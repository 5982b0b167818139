/** Value types shared by the store, the cache and the mappers: the request,
    DTO and response records of a flight, the UUID that identifies a flight,
    and the error values that travel back to callers. */
module Model {

  /** A 128-bit UUID, as generated by the database for every new flight. */
  newtype Uuid = x: int | 0 <= x < 0x1_0000_0000_0000_0000_0000_0000_0000_0000

  /** The all-zero UUID: the value of an identifier that was never assigned. */
  const Nil: Uuid := 0

  /** What a client sends to create or update a flight. */
  datatype FlightRequest = FlightRequest(destinationFrom: string, destinationTo: string)

  /** The record the store and the cache hold. */
  datatype FlightDTO = FlightDTO(flightId: Uuid, destinationFrom: string, destinationTo: string)

  /** What the service sends back to a client. */
  datatype FlightResponse = FlightResponse(id: Uuid, destinationFrom: string, destinationTo: string)

  datatype Option<T> = None | Some(value: T)

  /** The errors a caller of the store or of the cache can see. */
  datatype Error =
    | NotFound                       // no live record has the requested identifier
    | StoreFailure(context: string)  // any other database failure, wrapped with a context message
    | FlightAlreadyExists            // insert found the new identifier already in the cache table
    | FlightNotInCache               // update found no cache entry for the identifier

  datatype Result<T> = Ok(value: T) | Err(error: Error)
}
