/** The ride service and its repository, as code over a rides table. */
module RideService {
  import opened Common
  import Runs
  import opened Fsm
  import opened Rides
  import Pricing
  import Location

  /** An UPDATE by id adds and removes no row, and touches no other. */
  ghost predicate ChangesOnly(before: Table, after: Table, id: RideId) {
    after.Keys == before.Keys && forall other | other in before && other != id :: after[other] == before[other]
  }

  /** The columns that no statement writes after the insert. */
  predicate KeepsTerms(before: Ride, after: Ride) {
    after.rider == before.rider && after.createdAt == before.createdAt
  }

  predicate KeepsTimes(before: Ride, after: Ride) {
    after.startedAt == before.startedAt && after.endedAt == before.endedAt
  }

  /** The rides table, as seen through the pool or through one transaction. */
  class Repository {
    var rows: Table

    constructor (rows: Table)
      ensures this.rows == rows
    {
      this.rows := rows;
    }

    method Create(id: RideId, rider: UserId, fare: real, now: Time, fault: Fault) returns (created: bool)
      modifies this
      ensures created <==> fault.NoFault? && id !in old(rows) && Pricing.FitsNumeric(fare)
      ensures rows == if created then old(rows)[id := NewRide(rider, fare, now)] else old(rows)
    {
      created := false;
      if fault.NoFault? && id !in rows && Pricing.FitsNumeric(fare) {
        rows := rows[id := Ride(rider, None, Requested, Pricing.StoredNumeric(fare), now, None, None)];
        created := true;
      }
    }

    method GetByIDForUpdate(id: RideId) returns (ride: Option<Ride>)
      ensures ride == if id in rows then Some(rows[id]) else None
    {
      ride := if id in rows then Some(rows[id]) else None;
    }

    /** The rider's most recently created ride that is requested, matched or enroute. */
    method GetActiveByRider(rider: UserId) returns (ride: Option<Ride>)
      ensures ride.Some? <==> HasActive(rows, rider)
      ensures ride.Some? ==> ride.value in rows.Values && IsCurrent(ride.value, rider)
      ensures forall id | ride.Some? && id in rows && IsCurrent(rows[id], rider) ::
                rows[id].createdAt <= ride.value.createdAt
    {
      ride := None;
      var todo := rows.Keys;
      while todo != {}
        invariant todo <= rows.Keys
        invariant ride.Some? ==> ride.value in rows.Values && IsCurrent(ride.value, rider)
        invariant ride.None? ==> forall id | id in rows && id !in todo :: !IsCurrent(rows[id], rider)
        invariant forall id | ride.Some? && id in rows && id !in todo && IsCurrent(rows[id], rider) ::
                    rows[id].createdAt <= ride.value.createdAt
        decreases todo
      {
        var id :| id in todo;
        todo := todo - {id};
        if IsCurrent(rows[id], rider) && (ride.None? || ride.value.createdAt < rows[id].createdAt) {
          ride := Some(rows[id]);
        }
      }
    }

    method UpdateStatus(id: RideId, status: Status, driver: Option<UserId>)
      modifies this
      ensures rows == Rides.UpdateStatus(old(rows), id, status, driver)
      ensures ChangesOnly(old(rows), rows, id)
      ensures id in rows ==>
                rows[id].status == status && KeepsTerms(old(rows)[id], rows[id])
                && KeepsTimes(old(rows)[id], rows[id])
      ensures id in rows ==> rows[id].fare == old(rows)[id].fare
      ensures id in rows ==> if driver.Some? then rows[id].driver == driver else rows[id].driver == old(rows)[id].driver
    {
      if id in rows {
        if driver.Some? {
          rows := rows[id := rows[id].(status := status, driver := driver)];
        } else {
          rows := rows[id := rows[id].(status := status)];
        }
      }
    }

    method SetStarted(id: RideId, began: Time)
      modifies this
      ensures rows == Rides.SetStarted(old(rows), id, began)
      ensures ChangesOnly(old(rows), rows, id)
      ensures id in rows ==> rows[id].status == Enroute && rows[id].startedAt == Some(began)
      ensures id in rows ==> KeepsTerms(old(rows)[id], rows[id]) && rows[id].driver == old(rows)[id].driver
      ensures id in rows ==> rows[id].fare == old(rows)[id].fare && rows[id].endedAt == old(rows)[id].endedAt
    {
      if id in rows {
        rows := rows[id := rows[id].(status := Enroute, startedAt := Some(began))];
      }
    }

    method SetCompleted(id: RideId, fare: real, began: Time)
      modifies this
      ensures rows == Rides.SetCompleted(old(rows), id, fare, began)
      ensures ChangesOnly(old(rows), rows, id)
      ensures id in rows ==> rows[id].status == Completed && rows[id].endedAt == Some(began)
      ensures id in rows ==> KeepsTerms(old(rows)[id], rows[id]) && rows[id].driver == old(rows)[id].driver
      ensures id in rows ==> rows[id].startedAt == old(rows)[id].startedAt
      ensures id in rows ==> -0.005 <= rows[id].fare - fare <= 0.005
    {
      if id in rows {
        rows := rows[id := rows[id].(status := Completed, fare := Pricing.StoredNumeric(fare), endedAt := Some(began))];
      }
    }
  }

  /** Both searches of a request look this far around the pickup. */
  const SEARCH_RADIUS_KM := 10.0

  datatype RideRequest = RideRequest(metric: Location.Metric, pickup: Location.Point, distanceKm: real) {
    function Around(): (q: Location.Search)
      ensures q.metric == metric && q.center == pickup && q.radiusKm == 10.0
    {
      Location.Search(metric, pickup, SEARCH_RADIUS_KM)
    }
  }

  /** What others do between two statements of a call: to the rides, and to the locations of drivers. */
  datatype Meanwhile = Meanwhile(rides: seq<Event>, updates: seq<Location.Event>)

  /** What goes into the surge: the number of recent requests, and what the cache answers. */
  datatype Demand = Demand(activeRequests: int, nearby: Result<seq<Location.GeoResult>, ()>) {
    /** A failed count is taken as no drivers. */
    function Drivers(): nat {
      if nearby.Ok? then |Location.WellFormed(nearby.value)| else 0
    }

    function Surge(): real {
      Pricing.DEFAULT_ENGINE.Calculate(activeRequests, Drivers())
    }
  }

  /** What matchDriver runs into: the lock, the answers to its search, and its write. */
  datatype Matching =
    | LockUnavailable
    | Search(fromCache: Result<seq<Location.GeoResult>, ()>, between: seq<Location.Event>,
             fromLog: Result<seq<Location.QueryRow>, ()>, fault: Fault)

  /** The driver it takes, if it finds any: the first of the answer. */
  function Pick(m: Matching): Option<Location.NearbyDriver> {
    if m.LockUnavailable? then None
    else
      var answer := Location.Answer(m.fromCache, m.fromLog);
      if answer.Err? || answer.value == [] then None else Some(answer.value[0])
  }

  /** The first driver id of the cache's answer or, if it has none, the driver of the log's first row. */
  predicate IsFirstFound(m: Matching, driver: UserId) {
    && m.Search?
    && if m.fromCache.Ok? && exists i :: 0 <= i < |m.fromCache.value| && m.fromCache.value[i].name.Id? then
         exists i :: 0 <= i < |m.fromCache.value| && m.fromCache.value[i].name == Location.Id(driver)
                     && forall j | 0 <= j < i :: m.fromCache.value[j].name.Malformed?
       else m.fromLog.Ok? && m.fromLog.value != [] && m.fromLog.value[0].driver == driver
  }

  /** A driver is taken whenever either source answers with one. */
  lemma PickExactly(m: Matching)
    ensures Pick(m).Some? <==>
              && m.Search?
              && ((m.fromCache.Ok? && exists i :: 0 <= i < |m.fromCache.value| && m.fromCache.value[i].name.Id?)
                  || (m.fromLog.Ok? && m.fromLog.value != []))
    ensures Pick(m).Some? ==> IsFirstFound(m, Pick(m).value.driver)
  {
    if m.Search? && m.fromCache.Ok? {
      Location.WellFormedIsFiltered(m.fromCache.value);
    }
  }

  /** The step with which a matching attempt ends its call. */
  function LastStep(call: CallId, m: Matching): Event {
    if Pick(m).Some? then WriteMatch(call, Pick(m).value.driver, m.fault) else GiveUp(call)
  }

  /** What drivers do while the attempt waits for the log, if it asks it. */
  function UpdatesDuring(m: Matching): seq<Location.Event> {
    if m.LockUnavailable? || Location.AnswersFromCache(m.fromCache) then [] else m.between
  }

  /** The answers fit what the location stores hold. */
  ghost predicate IsCounted(around: Location.Search, stores: Location.Stores, demand: Demand) {
    demand.nearby.Ok? ==> Location.IsGeoSearch(around, stores.cache, demand.nearby.value)
  }

  ghost predicate IsAnswered(around: Location.Search, stores: Location.Stores, available: set<UserId>, m: Matching) {
    m.Search? ==> Location.AreAnswers(around, stores, m.between, available, m.fromCache, m.fromLog)
  }

  /** The location stores once others have done their part before the insert and before the match. */
  ghost function AfterBoth(stores: Location.Stores, beforeInsert: Meanwhile, beforeMatch: Meanwhile): Location.Stores {
    Location.After(Location.After(stores, beforeInsert.updates), beforeMatch.updates)
  }

  /** The driver of the answer's first entry, the nearest in the source that answered. */
  ghost predicate IsNearestFound(around: Location.Search, stores: Location.Stores, available: set<UserId>,
                                 m: Matching, driver: UserId)
  {
    && m.Search? && Pick(m).Some? && Pick(m).value.driver == driver
    && Location.IsNearest(around, stores, m.between, available, m.fromCache, Pick(m).value)
  }

  lemma Regroup(a: seq<Event>, b: seq<Event>, c: seq<Event>, d: seq<Event>, e: seq<Event>, f: seq<Event>)
    ensures a + b + (c + d + (e + f)) == a + (b + c) + d + e + f
    ensures a + b + (c + d + []) == a + (b + c) + d
  {
  }

  datatype Response = Response(ride: Ride, matchedDriver: Option<UserId>)

  class Service {
    const repo: Repository
    const locations: Location.Service
    var calls: map<CallId, Call>   // how far each request under way has got
    var now: Time

    constructor (repo: Repository, locations: Location.Service)
      ensures this.repo == repo && this.locations == locations && calls == map[] && now == 0
    {
      this.repo, this.locations := repo, locations;
      calls, now := map[], 0;
    }

    function Abs(): State
      reads this, repo
    {
      State(repo.rows, calls, now)
    }

    /** Anything that others do between two statements of a call. */
    method Interfere(m: Meanwhile)
      modifies this, repo, locations
      ensures Abs() == After(old(Abs()), m.rides)
      ensures locations.Abs() == Location.After(old(locations.Abs()), m.updates)
    {
      var s := After(Abs(), m.rides);
      repo.rows, calls, now := s.rides, s.calls, s.now;
      locations.Interfere(m.updates);
    }

    /** The check before anything else. */
    method CheckActive(call: CallId, rider: UserId, fault: Fault) returns (error: Option<Error>)
      requires call !in calls
      modifies this
      ensures Abs() == Step(old(Abs()), Check(call, rider, fault))
      ensures error.None? <==> fault.NoFault? && !HasActive(repo.rows, rider)
      ensures error == Some(Conflict) <==> fault.NoFault? && HasActive(repo.rows, rider)
    {
      error := None;
      if !fault.NoFault? {
        error := Some(Internal);
      } else {
        var active := repo.GetActiveByRider(rider);
        if active.Some? {
          error := Some(Conflict);
        }
      }
      calls := calls[call := if error.Some? then Finished else Checked(rider)];
    }

    method CreateRide(call: CallId, id: RideId, distanceKm: real, surge: real, fault: Fault) returns (created: bool)
      requires call in calls && calls[call].Checked?
      modifies this, repo
      ensures Abs() == Step(old(Abs()), Insert(call, id, distanceKm, surge, fault))
      ensures calls[call] == if created then Pending(old(calls)[call].rider, id) else Finished
      ensures created <==> fault.NoFault? && id !in old(repo.rows)
                           && Pricing.FitsNumeric(Pricing.EstimateFare(distanceKm, surge))
      ensures created ==> id in repo.rows
    {
      var rider := calls[call].rider;
      created := repo.Create(id, rider, Pricing.EstimateFare(distanceKm, surge), now, fault);
      calls := calls[call := if created then Pending(rider, id) else Finished];
    }

    /** The surge multiplier: a count that fails is taken as no drivers. */
    method CalculateSurge(ghost around: Location.Search, demand: Demand) returns (surge: real)
      requires IsCounted(around, locations.Abs(), demand)
      ensures surge == demand.Surge()
      ensures demand.nearby.Ok? ==>
                surge == Pricing.DEFAULT_ENGINE.Calculate(demand.activeRequests,
                           |set i | 0 <= i < |demand.nearby.value| && demand.nearby.value[i].name.Id?|)
      ensures demand.nearby.Err? ==> surge == if demand.activeRequests > 0 then 3.0 else 1.0
      ensures demand.activeRequests >= 60 ==> surge == 3.0
    {
      var count := locations.ActiveDriverCount(around, demand.nearby);
      var drivers := if count.Ok? then count.value else 0;
      surge := Pricing.DEFAULT_ENGINE.Calculate(demand.activeRequests, drivers);
      if demand.activeRequests >= 60 {
        Pricing.SixtyRequestsAlwaysSurgeFully(demand.activeRequests, drivers);
      }
    }

    /** The search under the lock: the first driver of the source that answers. */
    method FindNearest(ghost around: Location.Search, matching: Matching)
      returns (nearest: Option<Location.NearbyDriver>)
      requires IsAnswered(around, locations.Abs(), locations.available, matching)
      modifies locations
      ensures nearest == Pick(matching)
      ensures locations.Abs() == Location.After(old(locations.Abs()), UpdatesDuring(matching))
      ensures nearest.Some? ==>
                IsNearestFound(around, old(locations.Abs()), locations.available, matching, nearest.value.driver)
    {
      if matching.LockUnavailable? {
        return None;
      }
      var drivers, _ := locations.GetNearbyDrivers(around, matching.fromCache, matching.between, matching.fromLog);
      if drivers.Err? || drivers.value == [] {
        return None;
      }
      nearest := Some(drivers.value[0]);
    }

    /**
     Assigns the nearest driver in the source that answered, whatever the ride's status has
     become, or gives up.
     */
    method MatchDriver(call: CallId, ghost around: Location.Search, matching: Matching)
      returns (matched: Option<UserId>)
      requires call in calls && calls[call].Pending?
      requires IsAnswered(around, locations.Abs(), locations.available, matching)
      modifies this, repo, locations
      ensures Abs() == Step(old(Abs()), LastStep(call, matching))
      ensures locations.Abs() == Location.After(old(locations.Abs()), UpdatesDuring(matching))
      ensures matched.Some? <==> Pick(matching).Some? && matching.fault.NoFault?
      ensures matched.Some? <==>
                && matching.Search? && matching.fault.NoFault?
                && ((matching.fromCache.Ok?
                     && exists i :: 0 <= i < |matching.fromCache.value| && matching.fromCache.value[i].name.Id?)
                    || (matching.fromLog.Ok? && matching.fromLog.value != []))
      ensures matched.Some? ==> IsFirstFound(matching, matched.value)
      ensures matched.Some? && old(calls)[call].id in old(repo.rows) ==>
                var id := old(calls)[call].id;
                repo.rows == old(repo.rows)[id := old(repo.rows)[id].(status := Matched, driver := matched)]
      ensures matched.None? ==> repo.rows == old(repo.rows)
      ensures matched.Some? ==>
                IsNearestFound(around, old(locations.Abs()), locations.available, matching, matched.value)
      ensures Pick(matching).Some? ==>
                IsNearestFound(around, old(locations.Abs()), locations.available, matching, Pick(matching).value.driver)
    {
      PickExactly(matching);
      var id := calls[call].id;
      calls := calls[call := Finished];
      var nearest := FindNearest(around, matching);
      if nearest.None? {
        return None;
      }
      var tx := new Repository(repo.rows);
      if !matching.fault.NoFault? {
        return None;
      }
      tx.UpdateStatus(id, Matched, Some(nearest.value.driver));
      repo.rows := tx.rows;
      matched := Some(nearest.value.driver);
    }

    /** What follows the surge: the insert, whatever others do, and the attempt to match. */
    method CreateAndMatch(call: CallId, id: RideId, request: RideRequest, surge: real, insertFault: Fault,
                          beforeMatch: Meanwhile, matching: Matching)
      returns (r: Option<Response>, ghost trace: seq<Event>)
      requires call in calls && calls[call].Checked? && Foreign(beforeMatch.rides, call)
      requires IsAnswered(request.Around(), Location.After(locations.Abs(), beforeMatch.updates), locations.available,
                          matching)
      modifies this, repo, locations
      ensures Abs() == After(old(Abs()), trace)
      ensures trace == [Insert(call, id, request.distanceKm, surge, insertFault)]
                       + if r.None? then [] else beforeMatch.rides + [LastStep(call, matching)]
      ensures locations.Abs()
              == if r.None? then old(locations.Abs())
                 else Location.After(Location.After(old(locations.Abs()), beforeMatch.updates), UpdatesDuring(matching))
      ensures r.Some? ==>
                DescribesTheRide(r.value, old(calls)[call].rider, Pricing.EstimateFare(request.distanceKm, surge))
      ensures r.Some? <==> insertFault.NoFault? && id !in old(repo.rows)
                           && Pricing.FitsNumeric(Pricing.EstimateFare(request.distanceKm, surge))
      ensures r.Some? ==> (r.value.matchedDriver.Some? <==> Pick(matching).Some? && matching.fault.NoFault?)
      ensures r.Some? ==> IsAssigned(repo.rows, id, r.value.matchedDriver)
      ensures r.Some? && r.value.matchedDriver.Some? ==>
                IsNearestFound(request.Around(), Location.After(old(locations.Abs()), beforeMatch.updates),
                               locations.available, matching, r.value.matchedDriver.value)
      ensures call in calls && calls[call].Finished?
    {
      ghost var s0 := Abs();
      var rider := calls[call].rider;
      ghost var insert := Insert(call, id, request.distanceKm, surge, insertFault);
      var created := CreateRide(call, id, request.distanceKm, surge, insertFault);
      Runs.One(Step, s0, insert);
      if !created {
        return None, [insert];
      }
      var fare := Pricing.EstimateFare(request.distanceKm, surge);
      var ride := Ride(rider, None, Requested, fare, now, None, None);
      OthersLeaveTheCall(Abs(), beforeMatch.rides, call);
      RowsStay(Abs(), beforeMatch.rides);
      Interfere(beforeMatch);
      ghost var s2 := Abs();
      var matched := MatchDriver(call, request.Around(), matching);
      Runs.One(Step, s2, LastStep(call, matching));
      Runs.Parts(Step, s0, insert, beforeMatch.rides, [LastStep(call, matching)]);
      trace := [insert] + beforeMatch.rides + [LastStep(call, matching)];
      assert trace == [insert] + (beforeMatch.rides + [LastStep(call, matching)]);
      if matched.Some? {
        ride := ride.(status := Matched, driver := matched);
      }
      r := Some(Response(ride, matched));
    }

    /** What follows the surge: whatever others do, and the rest. */
    method InsertAndMatch(call: CallId, id: RideId, request: RideRequest, surge: real, beforeInsert: Meanwhile,
                          insertFault: Fault, beforeMatch: Meanwhile, matching: Matching)
      returns (r: Option<Response>, ghost trace: seq<Event>)
      requires call in calls && calls[call].Checked?
      requires Foreign(beforeInsert.rides, call) && Foreign(beforeMatch.rides, call)
      requires IsAnswered(request.Around(), AfterBoth(locations.Abs(), beforeInsert, beforeMatch), locations.available,
                          matching)
      modifies this, repo, locations
      ensures Abs() == After(old(Abs()), trace)
      ensures trace == beforeInsert.rides + [Insert(call, id, request.distanceKm, surge, insertFault)]
                       + if r.None? then [] else beforeMatch.rides + [LastStep(call, matching)]
      ensures var stores := old(locations.Abs());
              var atMatch := AfterBoth(stores, beforeInsert, beforeMatch);
              && locations.Abs() == (if r.None? then Location.After(stores, beforeInsert.updates)
                                     else Location.After(atMatch, UpdatesDuring(matching)))
              && (r.Some? && r.value.matchedDriver.Some? ==>
                    IsNearestFound(request.Around(), atMatch, locations.available, matching,
                                   r.value.matchedDriver.value))
      ensures r.Some? ==>
                DescribesTheRide(r.value, old(calls)[call].rider, Pricing.EstimateFare(request.distanceKm, surge))
      ensures r.Some? <==> insertFault.NoFault? && id !in After(old(Abs()), beforeInsert.rides).rides
                           && Pricing.FitsNumeric(Pricing.EstimateFare(request.distanceKm, surge))
      ensures r.Some? ==> (r.value.matchedDriver.Some? <==> Pick(matching).Some? && matching.fault.NoFault?)
      ensures r.Some? ==> IsAssigned(repo.rows, id, r.value.matchedDriver)
      ensures call in calls && calls[call].Finished?
    {
      ghost var s0 := Abs();
      OthersLeaveTheCall(s0, beforeInsert.rides, call);
      Interfere(beforeInsert);
      ghost var rest;
      r, rest := CreateAndMatch(call, id, request, surge, insertFault, beforeMatch, matching);
      trace := beforeInsert.rides + rest;
      Runs.Concat(Step, s0, beforeInsert.rides, rest);
    }

    /**
     A call is its check, its insert and its match write or giving up, with anything in between,
     cut short by a failed check or insert.
     */
    method RequestRide(call: CallId, rider: UserId, request: RideRequest, checkFault: Fault, beforeCount: Meanwhile,
                       demand: Demand, beforeInsert: Meanwhile, id: RideId, insertFault: Fault,
                       beforeMatch: Meanwhile, matching: Matching)
      returns (r: Result<Response, Error>, ghost trace: seq<Event>)
      requires call !in calls
      requires Foreign(beforeCount.rides, call) && Foreign(beforeInsert.rides, call) && Foreign(beforeMatch.rides, call)
      requires IsCounted(request.Around(), Location.After(locations.Abs(), beforeCount.updates), demand)
      requires var counted := Location.After(locations.Abs(), beforeCount.updates);
               IsAnswered(request.Around(), AfterBoth(counted, beforeInsert, beforeMatch), locations.available,
                          matching)
      modifies this, repo, locations
      ensures Abs() == After(old(Abs()), trace)
      ensures var check := Check(call, rider, checkFault);
              var gap := beforeCount.rides + beforeInsert.rides;
              var insert := Insert(call, id, request.distanceKm, demand.Surge(), insertFault);
              && (r.Err? ==> trace == [check] || trace == [check] + gap + [insert])
              && (r.Ok? ==> trace == [check] + gap + [insert] + beforeMatch.rides + [LastStep(call, matching)])
      ensures var counted := Location.After(old(locations.Abs()), beforeCount.updates);
              var atMatch := AfterBoth(counted, beforeInsert, beforeMatch);
              && locations.Abs() == (if r.Ok? then Location.After(atMatch, UpdatesDuring(matching))
                                     else if |trace| == 1 then old(locations.Abs())
                                     else Location.After(counted, beforeInsert.updates))
              && (r.Ok? && r.value.matchedDriver.Some? ==>
                    IsNearestFound(request.Around(), atMatch, locations.available, matching,
                                   r.value.matchedDriver.value))
      ensures r == Err(Conflict) <==> checkFault.NoFault? && HasActive(old(repo.rows), rider)
      ensures r.Ok? <==>
                && checkFault.NoFault? && !HasActive(old(repo.rows), rider) && insertFault.NoFault?
                && id !in After(old(Abs()), [Check(call, rider, checkFault)] + beforeCount.rides
                                + beforeInsert.rides).rides
                && Pricing.FitsNumeric(Pricing.EstimateFare(request.distanceKm, demand.Surge()))
      ensures r.Ok? ==>
                (r.value.matchedDriver.Some? <==>
                   && matching.Search? && matching.fault.NoFault?
                   && ((matching.fromCache.Ok?
                        && exists i :: 0 <= i < |matching.fromCache.value| && matching.fromCache.value[i].name.Id?)
                       || (matching.fromLog.Ok? && matching.fromLog.value != [])))
      ensures r.Ok? && r.value.matchedDriver.Some? ==>
                && IsFirstFound(matching, r.value.matchedDriver.value)
                && request.metric(request.pickup, Pick(matching).value.at) <= 10.0
                && id in repo.rows && repo.rows[id].status == Matched && repo.rows[id].driver == r.value.matchedDriver
      ensures r.Ok? ==> DescribesTheRide(r.value, rider, Pricing.EstimateFare(request.distanceKm, demand.Surge()))
      ensures r.Ok? && demand.activeRequests >= 60 ==>
                r.value.ride.fare == Pricing.EstimateFare(request.distanceKm, 3.0)
      ensures r.Ok? ==>
                (r.value.matchedDriver.Some? <==> LastStep(call, matching).WriteMatch? && matching.fault.NoFault?)
      ensures r.Ok? && r.value.matchedDriver.Some? ==>
                LastStep(call, matching) == WriteMatch(call, r.value.matchedDriver.value, NoFault)
      ensures call in calls && calls[call].Finished?
    {
      ghost var s0 := Abs();
      ghost var check := Check(call, rider, checkFault);
      Runs.One(Step, s0, check);
      var error := CheckActive(call, rider, checkFault);
      if error.Some? {
        return Err(error.value), [check];
      }
      OthersLeaveTheCall(Abs(), beforeCount.rides, call);
      Interfere(beforeCount);
      PickExactly(matching);
      Runs.Parts(Step, s0, check, beforeCount.rides, beforeInsert.rides);
      ghost var rest;
      var response;
      var surge := CalculateSurge(request.Around(), demand);
      response, rest := InsertAndMatch(call, id, request, surge, beforeInsert, insertFault, beforeMatch, matching);
      Runs.Parts(Step, s0, check, beforeCount.rides, rest);
      trace := [check] + beforeCount.rides + rest;
      ghost var insert := Insert(call, id, request.distanceKm, demand.Surge(), insertFault);
      if response.None? {
        Regroup([check], beforeCount.rides, beforeInsert.rides, [insert], [], []);
        return Err(Internal), trace;
      }
      Regroup([check], beforeCount.rides, beforeInsert.rides, [insert], beforeMatch.rides, [LastStep(call, matching)]);
      r := Ok(response.value);
    }

    /** The ride is in the table and, if a driver was assigned, matched with that driver. */
    ghost predicate IsAssigned(rows: Table, id: RideId, driver: Option<UserId>) {
      id in rows && (driver.Some? ==> rows[id].status == Matched && rows[id].driver == driver)
    }

    /** The response shows the ride as it was inserted, and matched if and only if a driver was assigned. */
    ghost predicate DescribesTheRide(r: Response, rider: UserId, fare: real) {
      && r.ride.rider == rider && r.ride.driver == r.matchedDriver && r.ride.fare == fare
      && r.ride.status == if r.matchedDriver.Some? then Matched else Requested
    }

    method AcceptRide(id: RideId, driver: UserId, began: Time, fault: Fault) returns (r: Result<Ride, Error>)
      requires began <= now
      modifies repo
      ensures Abs() == Step(old(Abs()), Accept(id, driver, began, fault))
      ensures r.Ok? <==> fault.NoFault? && MayAdvance(old(repo.rows), id, driver, Enroute)
      ensures r.Ok? ==> r.value == old(repo.rows)[id].(status := Enroute)
      ensures r == Err(NotFound) <==> !fault.ReadFails? && id !in old(repo.rows)
      ensures r == Err(Forbidden) <==>
                !fault.ReadFails? && id in old(repo.rows) && old(repo.rows)[id].driver != Some(driver)
      ensures r == Err(BadRequest) <==>
                && !fault.ReadFails? && id in old(repo.rows) && old(repo.rows)[id].driver == Some(driver)
                && old(repo.rows)[id].status != Matched
      ensures r.Err? ==>
                r.error == AdvanceError(old(repo.rows), id, driver, Enroute, fault)
                && repo.rows == old(repo.rows)
    {
      var tx := new Repository(repo.rows);
      if fault.ReadFails? {
        return Err(Internal);
      }
      var ride := tx.GetByIDForUpdate(id);
      if ride.None? {
        return Err(NotFound);
      }
      if ride.value.driver.None? || ride.value.driver.value != driver {
        return Err(Forbidden);
      }
      if !CanTransition(ride.value.status, Enroute) {
        return Err(BadRequest);
      }
      tx.SetStarted(id, began);
      if fault.WriteFails? {
        return Err(Internal);
      }
      repo.rows := tx.rows;
      r := Ok(ride.value.(status := Enroute));
    }

    method CompleteRide(id: RideId, driver: UserId, began: Time, fault: Fault) returns (r: Result<Ride, Error>)
      requires began <= now
      modifies repo
      ensures Abs() == Step(old(Abs()), Complete(id, driver, began, fault))
      ensures r.Ok? <==> fault.NoFault? && MayAdvance(old(repo.rows), id, driver, Completed)
      ensures r.Ok? ==> r.value == old(repo.rows)[id].(status := Completed)
      ensures r == Err(NotFound) <==> !fault.ReadFails? && id !in old(repo.rows)
      ensures r == Err(Forbidden) <==>
                !fault.ReadFails? && id in old(repo.rows) && old(repo.rows)[id].driver != Some(driver)
      ensures r == Err(BadRequest) <==>
                && !fault.ReadFails? && id in old(repo.rows) && old(repo.rows)[id].driver == Some(driver)
                && old(repo.rows)[id].status != Enroute
      ensures r.Err? ==>
                r.error == AdvanceError(old(repo.rows), id, driver, Completed, fault)
                && repo.rows == old(repo.rows)
    {
      var tx := new Repository(repo.rows);
      if fault.ReadFails? {
        return Err(Internal);
      }
      var ride := tx.GetByIDForUpdate(id);
      if ride.None? {
        return Err(NotFound);
      }
      if ride.value.driver.None? || ride.value.driver.value != driver {
        return Err(Forbidden);
      }
      if !CanTransition(ride.value.status, Completed) {
        return Err(BadRequest);
      }
      tx.SetCompleted(id, ride.value.fare, began);
      if fault.WriteFails? {
        return Err(Internal);
      }
      repo.rows := tx.rows;
      r := Ok(ride.value.(status := Completed));
    }

    method CancelRide(id: RideId, user: UserId, fault: Fault) returns (r: Result<Ride, Error>)
      modifies repo
      ensures Abs() == Step(old(Abs()), Cancel(id, user, fault))
      ensures r.Ok? <==> fault.NoFault? && MayCancel(old(repo.rows), id, user)
      ensures r.Ok? ==> r.value == old(repo.rows)[id].(status := Cancelled)
      ensures r == Err(NotFound) <==> !fault.ReadFails? && id !in old(repo.rows)
      ensures r == Err(Forbidden) <==>
                && !fault.ReadFails? && id in old(repo.rows)
                && old(repo.rows)[id].rider != user && old(repo.rows)[id].driver != Some(user)
      ensures r == Err(BadRequest) <==>
                && !fault.ReadFails? && id in old(repo.rows)
                && (old(repo.rows)[id].rider == user || old(repo.rows)[id].driver == Some(user))
                && (old(repo.rows)[id].status == Completed || old(repo.rows)[id].status == Cancelled)
      ensures r.Err? ==> r.error == CancelError(old(repo.rows), id, user, fault) && repo.rows == old(repo.rows)
    {
      var tx := new Repository(repo.rows);
      if fault.ReadFails? {
        return Err(Internal);
      }
      var ride := tx.GetByIDForUpdate(id);
      if ride.None? {
        return Err(NotFound);
      }
      var isRider := ride.value.rider == user;
      var isDriver := ride.value.driver.Some? && ride.value.driver.value == user;
      if !isRider && !isDriver {
        return Err(Forbidden);
      }
      if !CanTransition(ride.value.status, Cancelled) {
        return Err(BadRequest);
      }
      tx.UpdateStatus(id, Cancelled, None);
      if fault.WriteFails? {
        return Err(Internal);
      }
      repo.rows := tx.rows;
      r := Ok(ride.value.(status := Cancelled));
    }
  }

  /** The error a driver gets when a row-locked transition does not go through. */
  ghost function AdvanceError(rides: Table, id: RideId, driver: UserId, to: Status, fault: Fault): Error {
    if fault.ReadFails? then Internal
    else if id !in rides then NotFound
    else if rides[id].driver != Some(driver) then Forbidden
    else if !CanTransition(rides[id].status, to) then BadRequest
    else Internal
  }

  ghost function CancelError(rides: Table, id: RideId, user: UserId, fault: Fault): Error {
    if fault.ReadFails? then Internal
    else if id !in rides then NotFound
    else if rides[id].rider != user && rides[id].driver != Some(user) then Forbidden
    else if !CanTransition(rides[id].status, Cancelled) then BadRequest
    else Internal
  }

}
