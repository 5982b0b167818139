# Cache-aside flight decorator, modelled in Dafny

The flight service keeps flight records (an identifier, an origin and a
destination) in a PostgreSQL table behind a repository. In front of the
repository sits a cache-aside decorator offering the same five operations.
It holds an in-memory table from flight identifier to the flight and an
expiry time, plus the time-to-live it gives new entries.

- Reads of one flight come from the table while the entry is fresh.
  On a miss they go to the repository and cache the answer.
- Writes go to the repository first. Only after the repository succeeds is
  the table changed.
- A background tick sweeps expired entries out of the table.
- Small mapper functions copy fields between the request, DTO and response
  records.

Files:

- `model.dfy` (module `Model`): the records, the 128-bit `Uuid` with its
  zero value `Nil`, `Option`, `Result` and the errors callers can see.
- `mapper.dfy` (module `Mapper`): the three conversions and lemmas about
  what they copy.
- `repository.dfy` (module `Repository`): the repository as a class
  `FlightStore`. It holds a map of rows, each marked deleted or not (the
  repository soft-deletes). It also has a ghost counter `calls` of the
  operations sent to it. Each operation takes `fault`, which says whether
  the database call failed. For the listing of all flights, `fault` also says
  how it failed: the query fails, decoding a row fails, or the row iteration
  breaks off after some rows. `InsertFlight` takes `newId`, the key the
  database generates.
- `cache.dfy` (module `Cache`): the `Decorator` class. It has the table
  field `flights`, the store `flightsRepo` and `ttl`. The module also has
  the pure table functions `Lookup` (what a reader sees at time `now`),
  `Swept` and `ExpiredIds`, with lemmas about them. Module `CacheScenario`
  walks a ten-second-TTL client scenario through the contracts.

Time is an integer `now`, passed to every operation that reads the clock.
An entry is stale only when `now` is strictly after its expiry. So an entry
whose expiry equals `now` is still served, and the sweep keeps it. This is
what `time.Now().After(expiresAt)` does (internal/cache/cache.go:41 and :138).

Every decorator operation keeps the invariant `Valid()`: every table entry
is stored under its own flight's identifier. The five store operations
(`GetAllFlights`, `GetFlightByID`, `InsertFlight`, `UpdateFlight`,
`DeleteFlight`) and `Sweep` also preserve `Coherent()`: every cached entry,
stale or not, equals the live store row with that identifier. `Set` is public
too and, called on its own with a flight the store does not hold, breaks
`Coherent()`; inside `GetFlightByID` it is only called with the store's row.
The source does not rely on `Coherent()`. Two consequences are proved:

- When the table is coherent, a successful `GetFlightByID` returns exactly
  the store's live row.
- When the table is coherent, `InsertFlight` never reports
  "flight already exists". The store rejects a taken key, so the new key
  cannot already be in a coherent table.

The repository's listing never checks the row iteration for an error after
its loop (internal/repository/flight.go:31-37). An iteration that breaks off
therefore ends the loop early: the caller gets NotFound when no row was
read, and otherwise the rows read so far, reported as success. The model
keeps this behaviour (`ListFault.StopsAfter`).

`ToFlightDTOWithID` in the source takes `id int` and assigns it to a field
of type `uuid.UUID` (internal/mapper/mapper.go:12-14 against
internal/model/model.go:11), which Go does not accept. The model gives the
parameter the `Uuid` type, which is evidently what was meant.

## Model

| member | source | states |
|---|---|---|
| `Mapper.ToFlightDTOKeepsRoute` | internal/mapper/mapper.go:5-10 | the DTO has the request's origin and destination and the zero identifier |
| `Mapper.ToFlightDTOWithIDSetsOnlyId` | internal/mapper/mapper.go:12-18 | the result is `ToFlightDTO(req)` with only the identifier replaced by `id` |
| `Mapper.ToFlightResponseKeepsFields` | internal/mapper/mapper.go:20-26 | the response's id is the DTO's identifier and its route is the DTO's; two responses are equal exactly when their DTOs are |
| `Mapper.ResponseOfRequestWithID` | internal/mapper/mapper.go:12-26 | converting a request with `id` to a DTO and then to a response gives id `id` and the request's route |
| `Repository.FlightStore.constructor` | internal/repository/flight.go:19-21 | a store over the given rows, each stored under its own flight's identifier |
| `Repository.FlightStore.ScanRows` | internal/repository/flight.go:30-37 | the result lists live rows only, each once and as stored, and no deleted row; without an interruption it lists every live row; interrupted after k rows it lists min(k, number of live rows) of them |
| `Repository.ListingLength` | internal/repository/flight.go:30-41 | a listing has exactly as many elements as there are live rows, so an empty scan means no live row |
| `Repository.FlightStore.GetAllFlights` | internal/repository/flight.go:23-44 | a failed query gives "failed to fetch flights"; a failed row decode gives "failed to scan flight row"; no row read gives NotFound, not an empty list; otherwise every live row listed once, or, when the iteration breaks off after k rows, min(k, live rows) of them reported as success; one call counted, rows unchanged |
| `Repository.FlightStore.GetFlightByID` | internal/repository/flight.go:46-59 | failure, then NotFound for an absent or deleted row, else the row's flight, whose identifier is the requested one |
| `Repository.FlightStore.InsertFlight` | internal/repository/flight.go:61-71 | on success the flight is stored live under the generated key and returned with that identifier; a failure or a taken key leaves rows and flight unchanged |
| `Repository.FlightStore.UpdateFlight` | internal/repository/flight.go:73-86 | failure, then NotFound when no live row has the identifier, else that row is replaced; rows change only on success |
| `Repository.FlightStore.DeleteFlight` | internal/repository/flight.go:88-99 | failure, then NotFound when no live row has the identifier, else that row is marked deleted and kept |
| `Cache.Decorator.constructor` | internal/cache/cache.go:29-35 | an empty table over the given store with the given TTL, valid and coherent |
| `Cache.Decorator.Get` | internal/cache/cache.go:37-45 | returns `Lookup(flights, id, now)`: the cached flight if present and `now` is not after its expiry, else nothing; the table is untouched |
| `Cache.LookupAfterPut` | internal/cache/cache.go:37-55 | after writing an entry, its key reads as the flight up to and including the expiry and as absent after it; every other key reads as before |
| `Cache.Decorator.Set` | internal/cache/cache.go:47-55 | the entry under the flight's own identifier becomes (flight, now + ttl), present before or not; every other entry is unchanged |
| `Cache.Decorator.GetAllFlights` | internal/cache/cache.go:57-59 | exactly one store call, whose outcome, for every kind of failure, is returned as the store gives it; the table is neither read nor changed |
| `Cache.Decorator.GetFlightByID` | internal/cache/cache.go:61-73 | a fresh hit returns the cached flight with no store call and no change; a miss makes one store call and returns its result unchanged; only a success is cached, as (flight, now + ttl), and then reads as a hit for the whole TTL; under coherence a success is the live store row |
| `Cache.Decorator.InsertFlight` | internal/cache/cache.go:75-92 | a store error is returned unchanged with table and store untouched; after a store success a key already in the table, even stale, gives "flight already exists" and leaves the table, otherwise (flight, now + ttl) is added under the new key; the store write is never undone; under coherence the conflict cannot happen |
| `Cache.Decorator.UpdateFlight` | internal/cache/cache.go:94-112 | a store error, NotFound included, is returned unchanged with nothing changed; after a store success a missing key gives "flight not found in cache" and leaves the table, an existing one, even stale, is overwritten with the new flight and now + ttl |
| `Cache.Decorator.DeleteFlight` | internal/cache/cache.go:114-125 | a store error is returned unchanged with nothing changed; after a store success the key is gone from the table whatever was there and every other entry is unchanged |
| `Cache.LookupAfterRemove` | internal/cache/cache.go:119-121 | after removing a key it reads as absent at any time and every other key reads as before |
| `Cache.Decorator.Sweep` | internal/cache/cache.go:133-147 | the table becomes exactly its unexpired entries, unchanged; `removed` is the number of expired entries and the new size is the old size minus `removed` |
| `Cache.SweptKeepsFresh` | internal/cache/cache.go:137-142 | a key survives a sweep at `now` exactly when its expiry is at or after `now`, with its entry unchanged, and is among the removed keys exactly when it does not survive |
| `Cache.SweptSize` | internal/cache/cache.go:135-141 | the swept table's size is the old size minus the number of expired entries |
| `Cache.SweptIdempotent` | internal/cache/cache.go:137-142 | a second sweep at the same time finds no expired entry and leaves the table as it is |
| `Cache.SweptLater` | internal/cache/cache.go:137-142 | sweeping at one time and then at a later time is the same as sweeping once at the later time |
| `Cache.SweptInvisible` | internal/cache/cache.go:37-45 | for any key and any time at or after the sweep, a reader sees the same before and after the sweep |

## Left out

- The read/write mutex, the goroutine and the ticker of the cleanup loop (internal/cache/cache.go:18, 127-132): operations are sequential calls and one sweep tick is the explicit `Sweep(now)` call.
- The clock: `time.Now()` becomes the `now` parameter. `GetFlightByID` reads the clock twice in the source, once in `Get` and again in `Set`; the model uses one `now` for both.
- Time arithmetic is on unbounded integers: the model has no `time.Time`/`time.Duration` range limits or int64 overflow. The TTL is any integer, as `NewDecorator` does not check it; the "hit for the whole TTL" promise is stated for the instants between `now` and `now + ttl`.
- Prometheus metrics and the log line of the sweep (internal/metrics/metrics.go and the calls in cache.go): they are side effects into an external sink, on floating-point gauges. The ghost `calls` counter on the store stands in for counting store round trips.
- Shared references: in the source the cached `*FlightDTO` is shared with the caller and the repository's insert writes the new identifier through that pointer. The model stores records by value; `InsertFlight` returns the caller's flight as it is afterwards instead.
- Request contexts are dropped, because the store contract does not depend on them. One consequence is not modelled: `InsertFlight` and `UpdateFlight` pass `context.Background()` to the store instead of the caller's context (internal/cache/cache.go:76, 95), so a caller's cancellation or deadline never reaches those two store calls.
- SQL, pgx and the row scanning itself: the repository is a map of rows. A database failure is the `fault` input. For the listing it distinguishes a failed query, a failed row decode and an iteration that breaks off. The wrapped driver error inside each message is not modelled, only the context message. The key the database generates is the `newId` input; a taken key fails like a primary-key violation.
- Cache.Decorator.GetAllFlights: states that the result satisfies the store's listing contract after exactly one store call, not that it equals one particular list, because the model leaves the order of rows unspecified.
- The use-case pass-through (internal/usecase/flight.go), HTTP handlers and routing, configuration, database connections, migrations and the application wiring: they hold no logic of the decorator. The older int-keyed use case (internal/usecase/usecase.go) and the root main.go are raw SQL and I/O.
