/** The persistent flight store that the cache decorator wraps, reduced to the
    contract the decorator relies on. A row is never physically removed:
    deleting a flight marks its row deleted, and only rows that are not marked
    are live. Database failures are not predicted by the model: every
    operation takes `fault`, which says whether and how the database call
    failed. */
module Repository {
  import opened Model

  /** A stored row; `deleted` stands for a non-null `deleted_at` column. */
  datatype Row = Row(flight: FlightDTO, deleted: bool)

  type Rows = map<Uuid, Row>

  // Context messages the store wraps database failures in.
  const FetchAllFailed := "failed to fetch flights"
  const ScanRowFailed := "failed to scan flight row"
  const FetchByIdFailed := "failed to fetch flight by ID"
  const InsertFailed := "failed to insert flight"
  const UpdateFailed := "failed to update flight"
  const DeleteFailed := "failed to delete flight"

  predicate IsLive(rows: Rows, id: Uuid) {
    id in rows && !rows[id].deleted
  }

  function LiveIds(rows: Rows): set<Uuid> {
    set id | id in rows && !rows[id].deleted
  }

  /** Every row is stored under the identifier of the flight it holds. */
  ghost predicate WellKeyed(rows: Rows) {
    forall id :: id in rows ==> rows[id].flight.flightId == id
  }

  /** The identifiers a sequence of flights carries. */
  function IdsOf(s: seq<FlightDTO>): set<Uuid> {
    set i | 0 <= i < |s| :: s[i].flightId
  }

  /** `s` lists live rows, each once and as stored, in some order. */
  ghost predicate IsPartialListing(rows: Rows, s: seq<FlightDTO>) {
    && (forall i | 0 <= i < |s| :: IsLive(rows, s[i].flightId) && rows[s[i].flightId].flight == s[i])
    && (forall i, j | 0 <= i < j < |s| :: s[i].flightId != s[j].flightId)
  }

  /** `s` lists every live row exactly once, in some order. */
  ghost predicate IsListing(rows: Rows, s: seq<FlightDTO>) {
    IsPartialListing(rows, s) && IdsOf(s) == LiveIds(rows)
  }

  /** How a listing of all flights can go wrong. The loop over the result rows
      never asks whether the iteration itself failed, so a failure while
      iterating just ends the loop after `rowsRead` rows. */
  datatype ListFault =
    | NoFault
    | QueryFails                  // the query itself fails
    | ScanFails                   // decoding a row fails
    | StopsAfter(rowsRead: nat)   // the iteration fails after delivering `rowsRead` rows

  function Min(a: nat, b: nat): nat { if a <= b then a else b }

  /** The outcome `GetAllFlights` may report: no row read is NotFound, not an
      empty list, and an iteration that stopped early is reported as success
      with the rows read so far. */
  ghost predicate AllFlightsOutcome(rows: Rows, fault: ListFault, r: Result<seq<FlightDTO>>) {
    match fault
    case QueryFails => r == Err(StoreFailure(FetchAllFailed))
    case ScanFails => r == if LiveIds(rows) == {} then Err(NotFound) else Err(StoreFailure(ScanRowFailed))
    case NoFault => if LiveIds(rows) == {} then r == Err(NotFound) else r.Ok? && IsListing(rows, r.value)
    case StopsAfter(k) =>
      if k == 0 || LiveIds(rows) == {} then r == Err(NotFound)
      else r.Ok? && IsPartialListing(rows, r.value) && |r.value| == Min(k, |LiveIds(rows)|)
  }

  /** The outcome of reading one flight. */
  function FetchByID(rows: Rows, id: Uuid, fault: bool): Result<FlightDTO> {
    if fault then Err(StoreFailure(FetchByIdFailed))
    else if !IsLive(rows, id) then Err(NotFound)
    else Ok(rows[id].flight)
  }

  /** The error of inserting under the generated key `newId`; a key that is
      already taken, even by a deleted row, violates the primary key. */
  function InsertError(rows: Rows, newId: Uuid, fault: bool): Option<Error> {
    if fault || newId in rows then Some(StoreFailure(InsertFailed)) else None
  }

  /** The error of updating or deleting the row `id`: NotFound when no live row is affected. */
  function UpdateError(rows: Rows, id: Uuid, fault: bool): Option<Error> {
    if fault then Some(StoreFailure(UpdateFailed))
    else if !IsLive(rows, id) then Some(NotFound)
    else None
  }

  function DeleteError(rows: Rows, id: Uuid, fault: bool): Option<Error> {
    if fault then Some(StoreFailure(DeleteFailed))
    else if !IsLive(rows, id) then Some(NotFound)
    else None
  }

  lemma {:induction false} IdsOfAppend(s: seq<FlightDTO>, f: FlightDTO)
    ensures IdsOf(s + [f]) == IdsOf(s) + {f.flightId}
  {
    var t := s + [f];
    assert forall i | 0 <= i < |s| :: t[i] == s[i];
    assert t[|s|] == f;
  }

  /** A listing has one element per live row. */
  lemma {:induction false} ListingLength(rows: Rows, s: seq<FlightDTO>)
    requires IsListing(rows, s)
    ensures |s| == |LiveIds(rows)|
  {
    DistinctIdsCount(s);
  }

  lemma {:induction false} DistinctIdsCount(s: seq<FlightDTO>)
    requires forall i, j | 0 <= i < j < |s| :: s[i].flightId != s[j].flightId
    ensures |IdsOf(s)| == |s|
  {
    if s != [] {
      var init := s[..|s| - 1];
      var last := s[|s| - 1];
      assert s == init + [last];
      DistinctIdsCount(init);
      IdsOfAppend(init, last);
      assert last.flightId !in IdsOf(init);
    }
  }

  /** Reading the pending row `id` extends a partial listing by one row. */
  lemma {:induction false} ScanStep(rows: Rows, s: seq<FlightDTO>, pending: set<Uuid>, id: Uuid)
    requires WellKeyed(rows) && id in pending && pending <= LiveIds(rows)
    requires IsPartialListing(rows, s) && IdsOf(s) == LiveIds(rows) - pending
    ensures IsPartialListing(rows, s + [rows[id].flight])
    ensures IdsOf(s + [rows[id].flight]) == LiveIds(rows) - (pending - {id})
  {
    var f := rows[id].flight;
    IdsOfAppend(s, f);
    assert id !in IdsOf(s);
    assert forall i | 0 <= i < |s| :: s[i].flightId in IdsOf(s);
  }

  /** A scan that visited all but `pending` has one row per visited key, and
      fewer than all live rows while some are pending. */
  lemma {:induction false} ScanLength(rows: Rows, s: seq<FlightDTO>, pending: set<Uuid>)
    requires pending <= LiveIds(rows)
    requires IsPartialListing(rows, s) && IdsOf(s) == LiveIds(rows) - pending
    ensures |s| == |LiveIds(rows)| - |pending|
  {
    DistinctIdsCount(s);
    assert LiveIds(rows) == (LiveIds(rows) - pending) + pending;
  }

  /** The database behind the repository. */
  class FlightStore {
    var rows: Rows
    /** How many operations have been sent to the store. */
    ghost var calls: nat

    ghost predicate Valid()
      reads this
    {
      WellKeyed(rows)
    }

    constructor (initial: Rows)
      requires WellKeyed(initial)
      ensures Valid() && rows == initial && calls == 0
    {
      rows := initial;
      calls := 0;
    }

    /** Reads live rows, one at a time, into a sequence: all of them, or, when
        the iteration stops after `stopAfter` rows, that many if there are enough. */
    method ScanRows(stopAfter: Option<nat>) returns (s: seq<FlightDTO>)
      requires Valid()
      ensures IsPartialListing(rows, s)
      ensures stopAfter.None? ==> IsListing(rows, s)
      ensures stopAfter.Some? ==> |s| == Min(stopAfter.value, |LiveIds(rows)|)
    {
      s := [];
      var pending := LiveIds(rows);
      while pending != {} && (stopAfter.None? || |s| < stopAfter.value)
        invariant pending <= LiveIds(rows)
        invariant IsPartialListing(rows, s)
        invariant IdsOf(s) == LiveIds(rows) - pending
        invariant stopAfter.Some? ==> |s| <= stopAfter.value
        decreases pending
      {
        var id :| id in pending;
        ScanStep(rows, s, pending, id);
        s := s + [rows[id].flight];
        pending := pending - {id};
      }
      ScanLength(rows, s, pending);
    }

    method GetAllFlights(fault: ListFault) returns (r: Result<seq<FlightDTO>>)
      requires Valid()
      modifies this`calls
      ensures calls == old(calls) + 1
      ensures AllFlightsOutcome(rows, fault, r)
    {
      calls := calls + 1;
      if fault.QueryFails? {
        return Err(StoreFailure(FetchAllFailed));
      }
      var flights := ScanRows(if fault.StopsAfter? then Some(fault.rowsRead) else None);
      if fault.StopsAfter? {
        assert |flights| == 0 <==> fault.rowsRead == 0 || LiveIds(rows) == {};
      } else {
        ListingLength(rows, flights);
      }
      if fault.ScanFails? && |flights| > 0 {
        return Err(StoreFailure(ScanRowFailed));
      }
      if |flights| == 0 {
        return Err(NotFound);
      }
      r := Ok(flights);
    }

    method GetFlightByID(id: Uuid, fault: bool) returns (r: Result<FlightDTO>)
      requires Valid()
      modifies this`calls
      ensures calls == old(calls) + 1
      ensures r == FetchByID(rows, id, fault)
      ensures r.Ok? ==> r.value.flightId == id
    {
      calls := calls + 1;
      r := FetchByID(rows, id, fault);
    }

    /** Inserts `flight` under the key the database generates, `newId`, and
        returns the flight as the caller holds it afterwards: with its
        identifier set on success and unchanged on failure. */
    method InsertFlight(flight: FlightDTO, newId: Uuid, fault: bool) returns (stored: FlightDTO, err: Option<Error>)
      requires Valid()
      modifies this
      ensures Valid()
      ensures calls == old(calls) + 1
      ensures err == InsertError(old(rows), newId, fault)
      ensures err.Some? ==> stored == flight && rows == old(rows)
      ensures err.None? ==> stored == flight.(flightId := newId) && rows == old(rows)[newId := Row(stored, false)]
    {
      calls := calls + 1;
      stored := flight;
      err := InsertError(rows, newId, fault);
      if err.None? {
        stored := flight.(flightId := newId);
        rows := rows[newId := Row(stored, false)];
      }
    }

    method UpdateFlight(flight: FlightDTO, fault: bool) returns (err: Option<Error>)
      requires Valid()
      modifies this
      ensures Valid()
      ensures calls == old(calls) + 1
      ensures err == UpdateError(old(rows), flight.flightId, fault)
      ensures rows == if err.None? then old(rows)[flight.flightId := Row(flight, false)] else old(rows)
    {
      calls := calls + 1;
      err := UpdateError(rows, flight.flightId, fault);
      if err.None? {
        rows := rows[flight.flightId := Row(flight, false)];
      }
    }

    /** Soft delete: the row stays, marked deleted. */
    method DeleteFlight(id: Uuid, fault: bool) returns (err: Option<Error>)
      requires Valid()
      modifies this
      ensures Valid()
      ensures calls == old(calls) + 1
      ensures err == DeleteError(old(rows), id, fault)
      ensures rows == if err.None? then old(rows)[id := old(rows)[id].(deleted := true)] else old(rows)
    {
      calls := calls + 1;
      err := DeleteError(rows, id, fault);
      if err.None? {
        rows := rows[id := rows[id].(deleted := true)];
      }
    }
  }
}
