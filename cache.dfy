/** The cache-aside decorator: an in-memory table from flight identifier to
    (flight, expiry time) in front of the flight store. Reads are served from
    the table while the entry is fresh and fill it on a miss; writes go to the
    store first and change the table only after the store succeeded. The clock
    is not read: every operation that needs the time takes it as `now`. */
module Cache {
  import opened Model
  import opened Repository

  /** A cached flight and the time after which it is stale. */
  datatype Entry = Entry(data: FlightDTO, expiresAt: int)

  type Table = map<Uuid, Entry>

  /** An entry is expired only strictly after its expiry time. */
  predicate Expired(e: Entry, now: int) {
    now > e.expiresAt
  }

  /** What a reader of the table sees at time `now`: a stale entry reads as absent. */
  function Lookup(t: Table, id: Uuid, now: int): Option<FlightDTO> {
    if id in t && !Expired(t[id], now) then Some(t[id].data) else None
  }

  /** The table after a sweep at `now`: the entries that are not expired. */
  function Swept(t: Table, now: int): Table {
    map id | id in t && !Expired(t[id], now) :: t[id]
  }

  /** The identifiers a sweep at `now` removes. */
  function ExpiredIds(t: Table, now: int): set<Uuid> {
    set id | id in t && Expired(t[id], now)
  }

  /** Every entry is stored under the identifier of the flight it holds. */
  ghost predicate WellKeyedTable(t: Table) {
    forall id :: id in t ==> t[id].data.flightId == id
  }

  /** Writing an entry: the written key reads as its flight until `expiresAt`
      and as absent after it; every other key reads as before. */
  lemma LookupAfterPut(t: Table, f: FlightDTO, expiresAt: int, id: Uuid, now: int)
    ensures Lookup(t[f.flightId := Entry(f, expiresAt)], id, now) ==
            if id != f.flightId then Lookup(t, id, now)
            else if now <= expiresAt then Some(f)
            else None
  {
  }

  /** Removing a key: it reads as absent at any time; every other key reads as before. */
  lemma LookupAfterRemove(t: Table, removed: Uuid, id: Uuid, now: int)
    ensures Lookup(t - {removed}, id, now) == if id == removed then None else Lookup(t, id, now)
  {
  }

  /** A sweep keeps exactly the entries that are not expired, unchanged. */
  lemma SweptKeepsFresh(t: Table, now: int, id: Uuid)
    ensures id in Swept(t, now) <==> id in t && t[id].expiresAt >= now
    ensures id in Swept(t, now) ==> Swept(t, now)[id] == t[id]
    ensures id in ExpiredIds(t, now) <==> id in t && !(id in Swept(t, now))
  {
  }

  /** A sweep is invisible to readers: at the sweep time or later, every key
      reads the same before and after it. */
  lemma SweptInvisible(t: Table, now: int, later: int, id: Uuid)
    requires now <= later
    ensures Lookup(Swept(t, now), id, later) == Lookup(t, id, later)
  {
  }

  /** The table shrinks by exactly the number of expired entries. */
  lemma {:induction false} SweptSize(t: Table, now: int)
    ensures |Swept(t, now)| == |t| - |ExpiredIds(t, now)|
  {
    var kept := Swept(t, now).Keys;
    var gone := ExpiredIds(t, now);
    assert t.Keys == kept + gone;
    assert kept !! gone;
  }

  /** Sweeping a second time at the same time removes nothing. */
  lemma SweptIdempotent(t: Table, now: int)
    ensures ExpiredIds(Swept(t, now), now) == {}
    ensures Swept(Swept(t, now), now) == Swept(t, now)
  {
  }

  /** A sweep at a later time subsumes an earlier one. */
  lemma SweptLater(t: Table, earlier: int, later: int)
    requires earlier <= later
    ensures Swept(Swept(t, earlier), later) == Swept(t, later)
  {
  }

  /** The decorator around one flight store. */
  class Decorator {
    /** The cache table. */
    var flights: Table
    const flightsRepo: FlightStore
    const ttl: int

    ghost predicate Valid()
      reads this, flightsRepo
    {
      WellKeyedTable(flights) && flightsRepo.Valid()
    }

    /** Every cached entry, stale or not, holds the live row of the store.
        Nothing in the source relies on it. The five store operations and the
        sweep preserve it; `Set` called on its own, with a flight the store
        does not hold, breaks it. */
    ghost predicate Coherent()
      reads this, flightsRepo
    {
      forall id :: id in flights ==> IsLive(flightsRepo.rows, id) && flightsRepo.rows[id].flight == flights[id].data
    }

    constructor (flightsRepo: FlightStore, ttl: int)
      requires flightsRepo.Valid()
      ensures Valid() && Coherent()
      ensures flights == map[] && this.flightsRepo == flightsRepo && this.ttl == ttl
    {
      this.flightsRepo := flightsRepo;
      this.flights := map[];
      this.ttl := ttl;
    }

    /** The cached flight for `id`, unless it is absent or stale at `now`. */
    method Get(id: Uuid, now: int) returns (flight: Option<FlightDTO>)
      ensures flight == Lookup(flights, id, now)
    {
      if id !in flights || now > flights[id].expiresAt {
        return None;
      }
      flight := Some(flights[id].data);
    }

    /** Caches `flight` under its own identifier until `now + ttl`, whether or not it was cached before. */
    method Set(flight: FlightDTO, now: int)
      requires Valid()
      modifies this
      ensures Valid()
      ensures flights == old(flights)[flight.flightId := Entry(flight, now + ttl)]
    {
      flights := flights[flight.flightId := Entry(flight, now + ttl)];
    }

    /** Always answered by the store; the table is neither read nor changed. */
    method GetAllFlights(fault: ListFault) returns (r: Result<seq<FlightDTO>>)
      requires Valid()
      modifies flightsRepo`calls
      ensures flightsRepo.calls == old(flightsRepo.calls) + 1
      ensures AllFlightsOutcome(flightsRepo.rows, fault, r)
    {
      r := flightsRepo.GetAllFlights(fault);
    }

    /** Cache-aside read: a fresh entry is returned without asking the store;
        otherwise the store is asked once, and only its successful answer is cached. */
    method GetFlightByID(id: Uuid, now: int, fault: bool) returns (r: Result<FlightDTO>)
      requires Valid()
      modifies this, flightsRepo`calls
      ensures Valid()
      ensures flightsRepo.rows == old(flightsRepo.rows)
      ensures old(Lookup(flights, id, now)).Some? ==>
                && r == Ok(old(Lookup(flights, id, now)).value)
                && flights == old(flights)
                && flightsRepo.calls == old(flightsRepo.calls)
      ensures old(Lookup(flights, id, now)).None? ==>
                && flightsRepo.calls == old(flightsRepo.calls) + 1
                && r == FetchByID(old(flightsRepo.rows), id, fault)
                && flights == if r.Ok? then old(flights)[id := Entry(r.value, now + ttl)] else old(flights)
      ensures old(Lookup(flights, id, now)).None? && r.Ok? ==>
                forall later :: now <= later <= now + ttl ==> Lookup(flights, id, later) == Some(r.value)
      ensures old(Coherent()) ==> Coherent()
      ensures old(Coherent()) && r.Ok? ==> IsLive(flightsRepo.rows, id) && r.value == flightsRepo.rows[id].flight
    {
      var cached := Get(id, now);
      if cached.Some? {
        return Ok(cached.value);
      }
      r := flightsRepo.GetFlightByID(id, fault);
      if r.Err? {
        return;
      }
      Set(r.value, now);
    }

    /** Store first; only after the store assigned the identifier is the flight cached,
        unless the table already holds that identifier (stale or not). Returns the
        caller's flight as it is afterwards. */
    method InsertFlight(flight: FlightDTO, newId: Uuid, now: int, fault: bool) returns (stored: FlightDTO, err: Option<Error>)
      requires Valid()
      modifies this, flightsRepo
      ensures Valid()
      ensures flightsRepo.calls == old(flightsRepo.calls) + 1
      ensures InsertError(old(flightsRepo.rows), newId, fault).Some? ==>
                && err == InsertError(old(flightsRepo.rows), newId, fault)
                && stored == flight
                && flightsRepo.rows == old(flightsRepo.rows)
                && flights == old(flights)
      ensures InsertError(old(flightsRepo.rows), newId, fault).None? ==>
                && stored == flight.(flightId := newId)
                && flightsRepo.rows == old(flightsRepo.rows)[newId := Row(stored, false)]
                && (newId in old(flights) ==> err == Some(FlightAlreadyExists) && flights == old(flights))
                && (newId !in old(flights) ==> err == None && flights == old(flights)[newId := Entry(stored, now + ttl)])
      ensures old(Coherent()) ==> Coherent() && err != Some(FlightAlreadyExists)
    {
      stored, err := flightsRepo.InsertFlight(flight, newId, fault);
      if err.Some? {
        return;
      }
      if stored.flightId in flights {
        return stored, Some(FlightAlreadyExists);
      }
      flights := flights[stored.flightId := Entry(stored, now + ttl)];
    }

    /** Store first; after the store succeeded an existing entry, stale or not, is
        overwritten with a refreshed expiry, and a missing one is reported. */
    method UpdateFlight(flight: FlightDTO, now: int, fault: bool) returns (err: Option<Error>)
      requires Valid()
      modifies this, flightsRepo
      ensures Valid()
      ensures flightsRepo.calls == old(flightsRepo.calls) + 1
      ensures UpdateError(old(flightsRepo.rows), flight.flightId, fault).Some? ==>
                && err == UpdateError(old(flightsRepo.rows), flight.flightId, fault)
                && flightsRepo.rows == old(flightsRepo.rows)
                && flights == old(flights)
      ensures UpdateError(old(flightsRepo.rows), flight.flightId, fault).None? ==>
                && flightsRepo.rows == old(flightsRepo.rows)[flight.flightId := Row(flight, false)]
                && (flight.flightId !in old(flights) ==> err == Some(FlightNotInCache) && flights == old(flights))
                && (flight.flightId in old(flights) ==>
                      err == None && flights == old(flights)[flight.flightId := Entry(flight, now + ttl)])
      ensures old(Coherent()) ==> Coherent()
    {
      err := flightsRepo.UpdateFlight(flight, fault);
      if err.Some? {
        return;
      }
      if flight.flightId !in flights {
        return Some(FlightNotInCache);
      }
      flights := flights[flight.flightId := Entry(flight, now + ttl)];
    }

    /** Store first; after the store succeeded the identifier is dropped from the table. */
    method DeleteFlight(id: Uuid, fault: bool) returns (err: Option<Error>)
      requires Valid()
      modifies this, flightsRepo
      ensures Valid()
      ensures flightsRepo.calls == old(flightsRepo.calls) + 1
      ensures err == DeleteError(old(flightsRepo.rows), id, fault)
      ensures err.Some? ==> flightsRepo.rows == old(flightsRepo.rows) && flights == old(flights)
      ensures err.None? ==>
                && flightsRepo.rows == old(flightsRepo.rows)[id := old(flightsRepo.rows)[id].(deleted := true)]
                && flights == old(flights) - {id}
      ensures old(Coherent()) ==> Coherent()
    {
      err := flightsRepo.DeleteFlight(id, fault);
      if err.Some? {
        return;
      }
      flights := flights - {id};
    }

    /** One cleanup tick at time `now`: deletes every expired entry and counts them. */
    method Sweep(now: int) returns (removed: nat)
      requires Valid()
      modifies this
      ensures Valid()
      ensures flights == Swept(old(flights), now)
      ensures removed == |ExpiredIds(old(flights), now)|
      ensures |flights| == |old(flights)| - removed
      ensures old(Coherent()) ==> Coherent()
    {
      ghost var start := flights;
      removed := 0;
      var pending := flights.Keys;
      while pending != {}
        invariant pending <= start.Keys
        invariant flights == SweptExcept(start, now, pending)
        invariant removed == |ExpiredIds(start, now) - pending|
        decreases pending
      {
        var id :| id in pending;
        SweepStep(start, now, pending, id);
        if now > flights[id].expiresAt {
          flights := flights - {id};
          removed := removed + 1;
        }
        pending := pending - {id};
      }
      SweptExceptNothing(start, now);
      SweptSize(start, now);
      SweptSubmap(start, now);
    }
  }

  /** The table part-way through a sweep at `now`: the keys in `pending` are not yet visited. */
  function SweptExcept(t: Table, now: int, pending: set<Uuid>): Table {
    map id | id in t && (id in pending || !Expired(t[id], now)) :: t[id]
  }

  lemma SweptExceptNothing(t: Table, now: int)
    ensures SweptExcept(t, now, {}) == Swept(t, now)
  {
  }

  /** A swept table is part of the original one, so it keeps what holds of every entry. */
  lemma SweptSubmap(t: Table, now: int)
    ensures forall id :: id in Swept(t, now) ==> id in t && Swept(t, now)[id] == t[id]
    ensures WellKeyedTable(t) ==> WellKeyedTable(Swept(t, now))
  {
  }

  /** Visiting one pending key `id` deletes it exactly when it is expired, and counts it then. */
  lemma SweepStep(t: Table, now: int, pending: set<Uuid>, id: Uuid)
    requires id in pending && pending <= t.Keys
    ensures id in SweptExcept(t, now, pending) && SweptExcept(t, now, pending)[id] == t[id]
    ensures Expired(t[id], now) ==>
              && SweptExcept(t, now, pending - {id}) == SweptExcept(t, now, pending) - {id}
              && ExpiredIds(t, now) - (pending - {id}) == (ExpiredIds(t, now) - pending) + {id}
              && id !in ExpiredIds(t, now) - pending
    ensures !Expired(t[id], now) ==>
              && SweptExcept(t, now, pending - {id}) == SweptExcept(t, now, pending)
              && ExpiredIds(t, now) - (pending - {id}) == ExpiredIds(t, now) - pending
  {
  }
}

/** Insert a flight at time 0 with a ten-second TTL, read it back at 5
    (served from the table) and at 11 (stale, so read from the store and
    cached until 21), then sweep at 60. */
module CacheScenario {
  import opened Model
  import opened Repository
  import opened Cache

  method TenSecondTtl() {
    var repo := new FlightStore(map[]);
    var cache := new Decorator(repo, 10);
    var f1: Uuid := 1;
    var stored, err := cache.InsertFlight(FlightDTO(Nil, "A", "B"), f1, 0, false);
    assert err == None && stored == FlightDTO(f1, "A", "B");
    assert cache.Coherent();

    ghost var callsBefore := repo.calls;
    var r := cache.GetFlightByID(f1, 5, false);
    assert r == Ok(stored) && repo.calls == callsBefore;

    r := cache.GetFlightByID(f1, 11, false);
    assert r == Ok(stored) && repo.calls == callsBefore + 1;
    assert cache.flights == map[f1 := Entry(stored, 21)];

    var removed := cache.Sweep(60);
    assert ExpiredIds(map[f1 := Entry(stored, 21)], 60) == {f1};
    assert removed == 1 && cache.flights == map[];
  }

  /** `Set` caches whatever it is given: a flight the store does not hold makes the table incoherent. */
  method SetAloneBreaksCoherence() {
    var repo := new FlightStore(map[]);
    var cache := new Decorator(repo, 10);
    cache.Set(FlightDTO(1, "A", "B"), 0);
    assert 1 in cache.flights && !IsLive(repo.rows, 1);
    assert !cache.Coherent();
  }
}
