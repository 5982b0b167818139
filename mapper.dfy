/** Field-copying conversions between the request, DTO and response records. */
module Mapper {
  import opened Model

  /** A DTO for a request that has no identifier yet: the identifier is left at its zero value. */
  function ToFlightDTO(req: FlightRequest): FlightDTO {
    FlightDTO(Nil, req.destinationFrom, req.destinationTo)
  }

  /** A DTO for a request that addresses the flight `id`. */
  function ToFlightDTOWithID(req: FlightRequest, id: Uuid): FlightDTO {
    FlightDTO(id, req.destinationFrom, req.destinationTo)
  }

  function ToFlightResponse(dto: FlightDTO): FlightResponse {
    FlightResponse(dto.flightId, dto.destinationFrom, dto.destinationTo)
  }

  /** The route of a request, a DTO and a response, to compare them with. */
  function RequestRoute(req: FlightRequest): (string, string) { (req.destinationFrom, req.destinationTo) }
  function DTORoute(dto: FlightDTO): (string, string) { (dto.destinationFrom, dto.destinationTo) }
  function ResponseRoute(resp: FlightResponse): (string, string) { (resp.destinationFrom, resp.destinationTo) }

  lemma ToFlightDTOKeepsRoute(req: FlightRequest)
    ensures DTORoute(ToFlightDTO(req)) == RequestRoute(req)
    ensures ToFlightDTO(req).flightId == Nil
  {
  }

  /** Attaching an identifier changes nothing but the identifier. */
  lemma ToFlightDTOWithIDSetsOnlyId(req: FlightRequest, id: Uuid)
    ensures ToFlightDTOWithID(req, id) == ToFlightDTO(req).(flightId := id)
    ensures ToFlightDTOWithID(req, id).flightId == id
    ensures DTORoute(ToFlightDTOWithID(req, id)) == RequestRoute(req)
  {
  }

  /** The response carries exactly the DTO's information, so distinct DTOs give distinct responses. */
  lemma ToFlightResponseKeepsFields(dto: FlightDTO, other: FlightDTO)
    ensures ToFlightResponse(dto).id == dto.flightId
    ensures ResponseRoute(ToFlightResponse(dto)) == DTORoute(dto)
    ensures ToFlightResponse(dto) == ToFlightResponse(other) <==> dto == other
  {
  }

  lemma ResponseOfRequestWithID(req: FlightRequest, id: Uuid)
    ensures ToFlightResponse(ToFlightDTOWithID(req, id)).id == id
    ensures ResponseRoute(ToFlightResponse(ToFlightDTOWithID(req, id))) == RequestRoute(req)
  {
  }
}
