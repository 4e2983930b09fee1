/**
 Nearby search: the geo set in Redis, the append-only location log, and the query that falls
 back from one to the other.  One abstract distance serves both.
 */
module Location {
  import opened Common
  import Runs
  import Pricing

  datatype Point = Point(lat: real, long: real)

  /** A member of the geo set: a well-formed driver id, or anything else. */
  datatype Name = Id(driver: UserId) | Malformed(text: string)

  /** Distance in kilometres. */
  type Metric = (Point, Point) -> real

  datatype GeoResult = GeoResult(name: Name, at: Point, dist: real)

  datatype NearbyDriver = NearbyDriver(driver: UserId, at: Point, distanceKm: real)

  datatype Row = Row(user: UserId, at: Point, stamp: Time)

  datatype QueryRow = QueryRow(driver: UserId, at: Point, distanceM: real)

  type Cache = map<Name, Point>

  type Log = seq<Row>

  /** COUNT of the geo search. */
  const LIMIT: nat := 20

  datatype Search = Search(metric: Metric, center: Point, radiusKm: real) {
    function Km(p: Point): real {
      metric(center, p)
    }

    predicate Within(p: Point) {
      Km(p) <= radiusKm
    }
  }

  // ---- GEOSEARCH ... ASC COUNT 20, with any order among equal distances ----

  predicate HasName(results: seq<GeoResult>, name: Name) {
    exists i :: 0 <= i < |results| && results[i].name == name
  }

  ghost predicate IsGeoSearch(q: Search, cache: Cache, results: seq<GeoResult>) {
    && |results| <= LIMIT
    && (forall i | 0 <= i < |results| ::
          results[i].name in cache && results[i].at == cache[results[i].name]
          && results[i].dist == q.Km(results[i].at) && q.Within(results[i].at))
    && (forall i, j | 0 <= i < j < |results| ::
          results[i].name != results[j].name && results[i].dist <= results[j].dist)
    && (forall name | name in cache && q.Within(cache[name]) && !HasName(results, name) ::
          |results| == LIMIT && forall i | 0 <= i < |results| :: results[i].dist <= q.Km(cache[name]))
  }

  ghost predicate IsUntruncated(q: Search, cache: Cache, results: seq<GeoResult>) {
    forall name | name in cache && q.Within(cache[name]) :: HasName(results, name)
  }

  // ---- find_nearby_drivers, ordered by distance ----

  /** The row DISTINCT ON keeps for its user: the newest of those in range, nearest among equals. */
  ghost predicate IsKept(q: Search, log: Log, r: Row) {
    && r in log && q.Within(r.at)
    && forall other | other in log && other.user == r.user && q.Within(other.at) ::
         other.stamp < r.stamp || (other.stamp == r.stamp && q.Km(r.at) <= q.Km(other.at))
  }

  ghost predicate KeepsRow(q: Search, log: Log, answer: QueryRow) {
    exists r :: r in log && IsKept(q, log, r) && answer == QueryRow(r.user, r.at, 1000.0 * q.Km(r.at))
  }

  predicate HasDriver(rows: seq<QueryRow>, driver: UserId) {
    exists i :: 0 <= i < |rows| && rows[i].driver == driver
  }

  ghost predicate IsNearbyQuery(q: Search, log: Log, available: set<UserId>, rows: seq<QueryRow>) {
    && (forall i | 0 <= i < |rows| :: rows[i].driver in available && KeepsRow(q, log, rows[i]))
    && (forall i, j | 0 <= i < j < |rows| :: rows[i].driver != rows[j].driver && rows[i].distanceM <= rows[j].distanceM)
    && (forall r | r in log && r.user in available && q.Within(r.at) :: HasDriver(rows, r.user))
  }

  // ---- the code around the two queries ----

  function FromResult(r: GeoResult): NearbyDriver
    requires r.name.Id?
  {
    NearbyDriver(r.name.driver, r.at, r.dist)
  }

  function WellFormed(results: seq<GeoResult>): seq<NearbyDriver> {
    if results == [] then []
    else
      var last := results[|results| - 1];
      WellFormed(results[..|results| - 1]) + if last.name.Id? then [FromResult(last)] else []
  }

  /** Positions before n whose names are driver ids. */
  function IdsBefore(results: seq<GeoResult>, n: nat): set<int>
    requires n <= |results|
  {
    set j | 0 <= j < n && results[j].name.Id?
  }

  lemma IdsSnoc(results: seq<GeoResult>, n: nat)
    requires n < |results|
    ensures |IdsBefore(results, n + 1)| == |IdsBefore(results, n)| + if results[n].name.Id? then 1 else 0
  {
    assert IdsBefore(results, n + 1) == IdsBefore(results, n) + if results[n].name.Id? then {n} else {};
  }

  lemma {:induction false} WellFormedByPosition(results: seq<GeoResult>, i: nat)
    requires i < |results|
    ensures |WellFormed(results)| == |IdsBefore(results, |results|)|
    ensures results[i].name.Id? ==>
              |IdsBefore(results, i)| < |WellFormed(results)|
              && WellFormed(results)[|IdsBefore(results, i)|]
                 == NearbyDriver(results[i].name.driver, results[i].at, results[i].dist)
  {
    var n := |results| - 1;
    IdsSnoc(results, n);
    assert IdsBefore(results[..n], n) == IdsBefore(results, n);
    if n == 0 {
      assert WellFormed(results[..n]) == [] && IdsBefore(results, 0) == {};
    } else {
      WellFormedByPosition(results[..n], if i < n then i else 0);
      if i < n {
        assert IdsBefore(results[..n], i) == IdsBefore(results, i);
      }
    }
  }

  /**
   Every result with a driver id is answered with, as it is, after those before it, and nothing
   else is.
   */
  lemma WellFormedExactly(results: seq<GeoResult>)
    ensures |WellFormed(results)| == |set i | 0 <= i < |results| && results[i].name.Id?|
    ensures forall i | 0 <= i < |results| && results[i].name.Id? ::
              var p := |set j | 0 <= j < i && results[j].name.Id?|;
              p < |WellFormed(results)|
              && WellFormed(results)[p] == NearbyDriver(results[i].name.driver, results[i].at, results[i].dist)
  {
    assert (set i | 0 <= i < |results| && results[i].name.Id?) == IdsBefore(results, |results|);
    if results == [] {
      assert IdsBefore(results, 0) == {};
    } else {
      WellFormedByPosition(results, 0);
    }
    forall i | 0 <= i < |results| && results[i].name.Id?
      ensures var p := |set j | 0 <= j < i && results[j].name.Id?|;
              p < |WellFormed(results)|
              && WellFormed(results)[p] == NearbyDriver(results[i].name.driver, results[i].at, results[i].dist)
    {
      WellFormedByPosition(results, i);
      assert (set j | 0 <= j < i && results[j].name.Id?) == IdsBefore(results, i);
    }
  }

  /** Skips names that are not driver ids. */
  method NearbyDrivers(answer: Result<seq<GeoResult>, ()>) returns (r: Result<seq<NearbyDriver>, ()>)
    ensures r == if answer.Err? then Err(()) else Ok(WellFormed(answer.value))
    ensures r.Ok? ==>
              && |r.value| == |set i | 0 <= i < |answer.value| && answer.value[i].name.Id?|
              && forall i | 0 <= i < |answer.value| && answer.value[i].name.Id? ::
                   var p := |set j | 0 <= j < i && answer.value[j].name.Id?|;
                   p < |r.value|
                   && r.value[p] == NearbyDriver(answer.value[i].name.driver, answer.value[i].at, answer.value[i].dist)
  {
    if answer.Err? {
      return Err(());
    }
    var results, drivers := answer.value, [];
    for i := 0 to |results|
      invariant drivers == WellFormed(results[..i])
    {
      assert results[..i + 1][..i] == results[..i];
      if results[i].name.Id? {
        drivers := drivers + [NearbyDriver(results[i].name.driver, results[i].at, results[i].dist)];
      }
    }
    assert results[..|results|] == results;
    WellFormedExactly(results);
    r := Ok(drivers);
  }

  function FromRow(r: QueryRow): NearbyDriver {
    NearbyDriver(r.driver, r.at, r.distanceM / 1000.0)
  }

  method FindNearby(answer: Result<seq<QueryRow>, ()>) returns (r: Result<seq<NearbyDriver>, ()>)
    ensures if answer.Err? then r == Err(()) else r.Ok? && |r.value| == |answer.value|
    ensures r.Ok? ==> forall i | 0 <= i < |r.value| :: r.value[i] == FromRow(answer.value[i])
    ensures r.Ok? ==>
              forall i | 0 <= i < |r.value| ::
                var row := answer.value[i];
                r.value[i] == NearbyDriver(row.driver, row.at, row.distanceM / 1000.0)
  {
    if answer.Err? {
      return Err(());
    }
    var rows, drivers := answer.value, [];
    for i := 0 to |rows|
      invariant |drivers| == i && forall k | 0 <= k < i :: drivers[k] == FromRow(rows[k])
    {
      drivers := drivers + [NearbyDriver(rows[i].driver, rows[i].at, rows[i].distanceM / 1000.0)];
    }
    r := Ok(drivers);
  }

  /** Where an answer of the service came from. */
  datatype Source = FromCache | FromLog

  lemma {:induction false} WellFormedIsFiltered(results: seq<GeoResult>)
    ensures |WellFormed(results)| <= |results|
    ensures WellFormed(results) == [] <==> forall i | 0 <= i < |results| :: results[i].name.Malformed?
    ensures WellFormed(results) != [] ==>
              exists k :: 0 <= k < |results| && results[k].name.Id? && FromResult(results[k]) == WellFormed(results)[0]
                          && forall i | 0 <= i < k :: results[i].name.Malformed?
  {
    if results != [] {
      var n := |results| - 1;
      WellFormedIsFiltered(results[..n]);
      if WellFormed(results[..n]) != [] {
        var k :| 0 <= k < n && results[..n][k].name.Id? && FromResult(results[..n][k]) == WellFormed(results[..n])[0]
          && forall i | 0 <= i < k :: results[..n][i].name.Malformed?;
        assert results[k] == results[..n][k] && forall i | 0 <= i < k :: results[i] == results[..n][i];
      } else {
        assert forall i | 0 <= i < n :: results[i] == results[..n][i];
      }
    }
  }

  /** Sorting, truncating and skipping bad names keep the nearest well-formed driver in front. */
  lemma CacheAnswersNearestFirst(q: Search, cache: Cache, results: seq<GeoResult>, d: UserId)
    requires IsGeoSearch(q, cache, results) && WellFormed(results) != []
    requires Id(d) in cache && q.Within(cache[Id(d)])
    ensures WellFormed(results)[0].distanceKm <= q.Km(cache[Id(d)])
    ensures var first := WellFormed(results)[0];
            Id(first.driver) in cache && first.at == cache[Id(first.driver)] && first.distanceKm == q.Km(first.at)
              && q.Within(first.at)
  {
    WellFormedIsFiltered(results);
    var k :| 0 <= k < |results| && results[k].name.Id? && FromResult(results[k]) == WellFormed(results)[0]
      && forall i | 0 <= i < k :: results[i].name.Malformed?;
    if HasName(results, Id(d)) {
      var j :| 0 <= j < |results| && results[j].name == Id(d);
      assert j >= k;
    }
  }

  lemma LogAnswersNearestFirst(q: Search, log: Log, available: set<UserId>, rows: seq<QueryRow>, i: nat)
    requires IsNearbyQuery(q, log, available, rows) && i < |rows|
    ensures FromRow(rows[0]).distanceKm <= FromRow(rows[i]).distanceKm
    ensures FromRow(rows[i]).distanceKm == q.Km(rows[i].at) && q.Within(rows[i].at) && rows[i].driver in available
  {
    assert KeepsRow(q, log, rows[i]);
    assert i > 0 ==> rows[0].distanceM <= rows[i].distanceM;
  }

  lemma CacheAnswer(q: Search, cache: Cache, results: seq<GeoResult>, drivers: seq<NearbyDriver>)
    requires IsGeoSearch(q, cache, results) && drivers == WellFormed(results) && drivers != []
    ensures exists i :: 0 <= i < |results| && results[i].name.Id?
    ensures |drivers| <= LIMIT
    ensures var first := drivers[0];
            && Id(first.driver) in cache && first.at == cache[Id(first.driver)]
            && q.Within(first.at) && first.distanceKm == q.Km(first.at)
            && forall d | Id(d) in cache && q.Within(cache[Id(d)]) :: first.distanceKm <= q.Km(cache[Id(d)])
  {
    WellFormedIsFiltered(results);
    var k :| 0 <= k < |results| && results[k].name.Id?;
    CacheAnswersNearestFirst(q, cache, results, results[k].name.driver);
    forall d | Id(d) in cache && q.Within(cache[Id(d)]) ensures drivers[0].distanceKm <= q.Km(cache[Id(d)]) {
      CacheAnswersNearestFirst(q, cache, results, d);
    }
  }

  /** Every available driver with a row in range, nearest first, each in range and at its distance. */
  ghost predicate IsLogAnswer(q: Search, log: Log, available: set<UserId>, drivers: seq<NearbyDriver>) {
    && (drivers == [] <==> forall row | row in log && row.user in available :: !q.Within(row.at))
    && (forall i | 0 <= i < |drivers| ::
          drivers[i].driver in available && q.Within(drivers[i].at) && drivers[i].distanceKm == q.Km(drivers[i].at)
          && drivers[0].distanceKm <= drivers[i].distanceKm)
    && (forall row | row in log && row.user in available && q.Within(row.at) ::
          exists i :: 0 <= i < |drivers| && drivers[i].driver == row.user)
  }

  lemma LogAnswer(q: Search, log: Log, available: set<UserId>, rows: seq<QueryRow>, drivers: seq<NearbyDriver>)
    requires IsNearbyQuery(q, log, available, rows)
    requires |drivers| == |rows| && forall i | 0 <= i < |rows| :: drivers[i] == FromRow(rows[i])
    ensures IsLogAnswer(q, log, available, drivers)
  {
    forall i | 0 <= i < |rows|
      ensures drivers[i].driver in available && q.Within(drivers[i].at) && drivers[i].distanceKm == q.Km(drivers[i].at)
      ensures drivers[0].distanceKm <= drivers[i].distanceKm
    {
      LogAnswersNearestFirst(q, log, available, rows, i);
    }
    forall row | row in log && row.user in available && q.Within(row.at)
      ensures exists i :: 0 <= i < |drivers| && drivers[i].driver == row.user
    {
      assert HasDriver(rows, row.user);
      var i :| 0 <= i < |rows| && rows[i].driver == row.user;
      assert drivers[i].driver == row.user;
    }
    if drivers != [] {
      assert KeepsRow(q, log, rows[0]);
    }
  }

  // ---- the stores and the updates under way ----

  /** An update writes the cache and then the log; in between it is under way. */
  datatype Call = Sent(user: UserId, at: Point) | Ended

  /** Updates are numbered in the order of their cache writes. */
  datatype Stores = Stores(cache: Cache, log: Log, calls: seq<Call>)

  datatype Event =
    | GeoAdd(user: UserId, at: Point, fails: bool)
    | Insert(call: nat, stamp: Time, fails: bool)

  const EMPTY := Stores(map[], [], [])

  /** A failed cache write is only logged: the update goes on to the log. */
  function Step(s: Stores, e: Event): Stores {
    match e
    case GeoAdd(user, at, fails) =>
      Stores(if fails then s.cache else s.cache[Id(user) := at], s.log, s.calls + [Sent(user, at)])
    case Insert(i, stamp, fails) =>
      if !(i < |s.calls| && s.calls[i].Sent?) then s
      else
        s.(log := if fails then s.log else s.log + [Row(s.calls[i].user, s.calls[i].at, stamp)],
           calls := s.calls[i := Ended])
  }

  function After(s: Stores, es: seq<Event>): Stores {
    Runs.After(Step, s, es)
  }

  predicate Foreign(es: seq<Event>, call: nat) {
    forall i | 0 <= i < |es| :: es[i].GeoAdd? || es[i].call != call
  }

  lemma {:induction false} OthersLeaveTheCall(s: Stores, es: seq<Event>, call: nat)
    requires Foreign(es, call) && call < |s.calls|
    ensures call < |After(s, es).calls| && After(s, es).calls[call] == s.calls[call]
  {
    if es != [] {
      OthersLeaveTheCall(s, es[..|es| - 1], call);
      assert es[|es| - 1].GeoAdd? || es[|es| - 1].call != call;
    }
  }

  /** The drivers a service answers with, given what its two sources answer. */
  function Answer(fromCache: Result<seq<GeoResult>, ()>, fromLog: Result<seq<QueryRow>, ()>)
    : Result<seq<NearbyDriver>, ()>
  {
    if AnswersFromCache(fromCache) then Ok(WellFormed(fromCache.value))
    else if fromLog.Err? then Err(())
    else Ok(seq(|fromLog.value|, i requires 0 <= i < |fromLog.value| => FromRow(fromLog.value[i])))
  }

  predicate AnswersFromCache(fromCache: Result<seq<GeoResult>, ()>) {
    fromCache.Ok? && exists i :: 0 <= i < |fromCache.value| && fromCache.value[i].name.Id?
  }

  lemma AnswersUnlessEmpty(results: seq<GeoResult>)
    ensures AnswersFromCache(Ok(results)) <==> WellFormed(results) != []
    ensures |WellFormed(results)| <= |results|
  {
    WellFormedIsFiltered(results);
  }

  /** In range, and no farther than any well-formed driver in range in the cache. */
  ghost predicate IsNearestInCache(q: Search, cache: Cache, first: NearbyDriver) {
    && Id(first.driver) in cache && first.at == cache[Id(first.driver)]
    && q.Within(first.at) && first.distanceKm == q.Km(first.at)
    && forall d | Id(d) in cache && q.Within(cache[Id(d)]) :: first.distanceKm <= q.Km(cache[Id(d)])
  }

  /** At the row the log keeps for it, available, and no farther than any other such driver. */
  ghost predicate IsNearestInLog(q: Search, log: Log, available: set<UserId>, first: NearbyDriver) {
    && first.driver in available && first.distanceKm == q.Km(first.at)
    && (exists r :: r in log && IsKept(q, log, r) && r.user == first.driver && r.at == first.at)
    && forall r | r in log && r.user in available && IsKept(q, log, r) :: first.distanceKm <= q.Km(r.at)
  }

  /** What the two sources may answer when the cache is asked now and the log after the events between. */
  ghost predicate AreAnswers(q: Search, s: Stores, between: seq<Event>, available: set<UserId>,
                             fromCache: Result<seq<GeoResult>, ()>, fromLog: Result<seq<QueryRow>, ()>) {
    && (fromCache.Ok? ==> IsGeoSearch(q, s.cache, fromCache.value))
    && (fromLog.Ok? ==> IsNearbyQuery(q, After(s, between).log, available, fromLog.value))
  }

  ghost predicate IsNearest(q: Search, s: Stores, between: seq<Event>, available: set<UserId>,
                            fromCache: Result<seq<GeoResult>, ()>, first: NearbyDriver) {
    if AnswersFromCache(fromCache) then IsNearestInCache(q, s.cache, first)
    else IsNearestInLog(q, After(s, between).log, available, first)
  }

  /** Every kept row of an available driver is in the answer, at its distance. */
  lemma KeptRowIsAnswered(q: Search, log: Log, available: set<UserId>, rows: seq<QueryRow>, r: Row) returns (i: nat)
    requires IsNearbyQuery(q, log, available, rows)
    requires r in log && r.user in available && IsKept(q, log, r)
    ensures i < |rows| && FromRow(rows[i]).distanceKm == q.Km(r.at)
  {
    assert HasDriver(rows, r.user);
    i :| 0 <= i < |rows| && rows[i].driver == r.user;
    assert KeepsRow(q, log, rows[i]);
    var kept :| kept in log && IsKept(q, log, kept) && rows[i] == QueryRow(kept.user, kept.at, 1000.0 * q.Km(kept.at));
    assert kept.user == r.user && q.Within(kept.at) && q.Within(r.at);
  }

  /** Whichever source answers, the first driver is the nearest in it. */
  lemma AnswersNearestFirst(q: Search, s: Stores, between: seq<Event>, available: set<UserId>,
                            fromCache: Result<seq<GeoResult>, ()>, fromLog: Result<seq<QueryRow>, ()>)
    requires AreAnswers(q, s, between, available, fromCache, fromLog)
    requires Answer(fromCache, fromLog).Ok? && Answer(fromCache, fromLog).value != []
    ensures IsNearest(q, s, between, available, fromCache, Answer(fromCache, fromLog).value[0])
  {
    if AnswersFromCache(fromCache) {
      CacheAnswer(q, s.cache, fromCache.value, WellFormed(fromCache.value));
    } else {
      var log, rows := After(s, between).log, fromLog.value;
      LogAnswersNearestFirst(q, log, available, rows, 0);
      assert KeepsRow(q, log, rows[0]);
      forall r | r in log && r.user in available && IsKept(q, log, r)
        ensures FromRow(rows[0]).distanceKm <= q.Km(r.at)
      {
        var i := KeptRowIsAnswered(q, log, available, rows, r);
        LogAnswersNearestFirst(q, log, available, rows, i);
      }
    }
  }

  class Service {
    var cache: Cache
    var log: Log
    var calls: seq<Call>   // how far each update has got
    const available: set<UserId>

    constructor (available: set<UserId>)
      ensures Abs() == EMPTY && this.available == available
    {
      cache, log, calls, this.available := map[], [], [], available;
    }

    function Abs(): Stores
      reads this
    {
      Stores(cache, log, calls)
    }

    /** Other updates run between two statements. */
    method Interfere(es: seq<Event>)
      modifies this
      ensures Abs() == After(old(Abs()), es)
    {
      var s := After(Abs(), es);
      cache, log, calls := s.cache, s.log, s.calls;
    }

    /**
     The cache write, whatever others do, and the insert.  A cache failure is only logged; a
     database failure is reported.
     */
    method UpdateLocation(user: UserId, at: Point, cacheFails: bool, between: seq<Event>, stamp: Time, logFails: bool)
      returns (r: Result<(), ()>)
      requires Foreign(between, |calls|)
      modifies this
      ensures Abs() == After(old(Abs()), [GeoAdd(user, at, cacheFails)] + between
                             + [Insert(|old(calls)|, stamp, logFails)])
      ensures r.Err? <==> logFails
      ensures |old(calls)| < |calls| && calls[|old(calls)|].Ended?
    {
      ghost var s0 := Abs();
      var me := |calls|;
      if !cacheFails {
        cache := cache[Id(user) := at];
      }
      calls := calls + [Sent(user, at)];
      OthersLeaveTheCall(Abs(), between, me);
      Interfere(between);
      Runs.One(Step, Abs(), Insert(me, stamp, logFails));
      Runs.Parts(Step, s0, GeoAdd(user, at, cacheFails), between, [Insert(me, stamp, logFails)]);
      calls := calls[me := Ended];
      if logFails {
        return Err(());
      }
      log := log + [Row(user, at, stamp)];
      r := Ok(());
    }

    /**
     The cache's answer if it has one, else the log's, which is asked later.  Whichever answers,
     the first driver is the nearest: of all well-formed drivers in range in the cache, or of
     the log's answer.
     */
    method GetNearbyDrivers(ghost q: Search, fromCache: Result<seq<GeoResult>, ()>, between: seq<Event>,
                            fromLog: Result<seq<QueryRow>, ()>)
      returns (r: Result<seq<NearbyDriver>, ()>, source: Source)
      requires AreAnswers(q, Abs(), between, available, fromCache, fromLog)
      modifies this
      ensures Abs() == if source.FromCache? then old(Abs()) else After(old(Abs()), between)
      ensures source.FromCache? <==> AnswersFromCache(fromCache)
      ensures r == Answer(fromCache, fromLog)
      ensures source.FromCache? <==>
                fromCache.Ok? && exists i :: 0 <= i < |fromCache.value| && fromCache.value[i].name.Id?
      ensures source.FromCache? ==>
                && r.Ok? && |r.value| == |set i | 0 <= i < |fromCache.value| && fromCache.value[i].name.Id?|
                && forall i | 0 <= i < |fromCache.value| && fromCache.value[i].name.Id? ::
                     var p, found := |set j | 0 <= j < i && fromCache.value[j].name.Id?|, fromCache.value[i];
                     p < |r.value| && r.value[p] == NearbyDriver(found.name.driver, found.at, found.dist)
      ensures source.FromLog? && fromLog.Ok? ==>
                && r.Ok? && |r.value| == |fromLog.value|
                && forall i | 0 <= i < |r.value| ::
                     var row := fromLog.value[i];
                     r.value[i] == NearbyDriver(row.driver, row.at, row.distanceM / 1000.0)
      ensures r.Err? <==> source.FromLog? && fromLog.Err?
      ensures r.Ok? && r.value != [] ==> IsNearest(q, old(Abs()), between, available, fromCache, r.value[0])
      ensures r.Ok? && source.FromCache? ==> r.value != [] && |r.value| <= LIMIT
      ensures r.Ok? && source.FromLog? ==> IsLogAnswer(q, log, available, r.value)
    {
      r := NearbyDrivers(fromCache);
      source := FromCache;
      if r.Ok? {
        AnswersUnlessEmpty(fromCache.value);
        if r.value != [] {
          AnswersNearestFirst(q, Abs(), between, available, fromCache, fromLog);
          return;
        }
      }
      source := FromLog;
      ghost var s := Abs();
      Interfere(between);
      r := FindNearby(fromLog);
      if r.Ok? {
        assert r.value == Answer(fromCache, fromLog).value;
        LogAnswer(q, log, available, fromLog.value, r.value);
        if r.value != [] {
          AnswersNearestFirst(q, s, between, available, fromCache, fromLog);
        }
      }
    }

    method ActiveDriverCount(ghost q: Search, fromCache: Result<seq<GeoResult>, ()>) returns (r: Result<nat, ()>)
      requires fromCache.Ok? ==> IsGeoSearch(q, cache, fromCache.value)
      ensures r.Err? <==> fromCache.Err?
      ensures r.Ok? ==> r.value == |WellFormed(fromCache.value)| <= LIMIT
      ensures r.Ok? ==> r.value == |set i | 0 <= i < |fromCache.value| && fromCache.value[i].name.Id?| <= 20
      ensures r.Ok? ==> (r.value == 0 <==> forall i | 0 <= i < |fromCache.value| :: fromCache.value[i].name.Malformed?)
    {
      var drivers := NearbyDrivers(fromCache);
      if drivers.Err? {
        return Err(());
      }
      WellFormedIsFiltered(fromCache.value);
      r := Ok(|drivers.value|);
    }
  }

  // ---- the cache against the log ----

  /** This driver's own stamps strictly increase. */
  predicate StampsRise(log: Log, user: UserId) {
    forall i, j | 0 <= i < j < |log| && log[i].user == log[j].user == user :: log[i].stamp < log[j].stamp
  }

  function Newest(log: Log, user: UserId): Option<Row> {
    if log == [] then None
    else if log[|log| - 1].user == user then Some(log[|log| - 1])
    else Newest(log[..|log| - 1], user)
  }

  lemma {:induction false} NewestIsInLog(log: Log, user: UserId)
    ensures Newest(log, user).None? ==> forall r | r in log :: r.user != user
    ensures Newest(log, user).Some? ==> Newest(log, user).value in log && Newest(log, user).value.user == user
    ensures Newest(log, user).Some? && StampsRise(log, user) ==>
              forall r | r in log && r.user == user ::
                r == Newest(log, user).value || r.stamp < Newest(log, user).value.stamp
  {
    if log != [] {
      var n := |log| - 1;
      NewestIsInLog(log[..n], user);
      assert log == log[..n] + [log[n]];
    }
  }

  /** The update that wrote the driver's cache entry last. */
  function LastCached(es: seq<Event>, user: UserId): Option<nat> {
    if es == [] then None
    else
      var before, last := es[..|es| - 1], es[|es| - 1];
      if last.GeoAdd? && last.user == user && !last.fails then Some(|After(EMPTY, before).calls|)
      else LastCached(before, user)
  }

  /** The update that wrote the driver's newest row. */
  function LastLogged(es: seq<Event>, user: UserId): Option<nat> {
    if es == [] then None
    else
      var before, last := es[..|es| - 1], es[|es| - 1];
      if last.Insert? && !last.fails && IsUnderWay(After(EMPTY, before), last.call, user) then Some(last.call)
      else LastLogged(before, user)
  }

  predicate IsUnderWay(s: Stores, call: nat, user: UserId) {
    call < |s.calls| && s.calls[call].Sent? && s.calls[call].user == user
  }

  /** The position an update was sent with. */
  function PositionOf(es: seq<Event>, call: nat): Point
    requires call < |After(EMPTY, es).calls|
  {
    var before, last := es[..|es| - 1], es[|es| - 1];
    if call < |After(EMPTY, before).calls| then PositionOf(before, call) else last.at
  }

  lemma {:induction false} UnderWayIsAtItsPosition(es: seq<Event>, call: nat)
    requires call < |After(EMPTY, es).calls| && After(EMPTY, es).calls[call].Sent?
    ensures After(EMPTY, es).calls[call].at == PositionOf(es, call)
  {
    if call < |After(EMPTY, es[..|es| - 1]).calls| {
      UnderWayIsAtItsPosition(es[..|es| - 1], call);
    }
  }

  /** In every run the cache entry is where its update sent the driver. */
  lemma {:induction false} CacheHoldsAPosition(es: seq<Event>, user: UserId)
    ensures var s, cached := After(EMPTY, es), LastCached(es, user);
            && (Id(user) in s.cache <==> cached.Some?)
            && (cached.Some? ==> cached.value < |s.calls| && s.cache[Id(user)] == PositionOf(es, cached.value))
  {
    if es != [] {
      CacheHoldsAPosition(es[..|es| - 1], user);
    }
  }

  /** And so is the newest row. */
  lemma {:induction false} LogHoldsAPosition(es: seq<Event>, user: UserId)
    ensures var s, logged := After(EMPTY, es), LastLogged(es, user);
            && (Newest(s.log, user).Some? <==> logged.Some?)
            && (logged.Some? ==>
                  logged.value < |s.calls|
                  && Newest(s.log, user).value.at == PositionOf(es, logged.value))
  {
    if es != [] {
      var before, last := es[..|es| - 1], es[|es| - 1];
      var s := After(EMPTY, before);
      LogHoldsAPosition(before, user);
      if Step(s, last).log != s.log {
        assert Step(s, last).log[..|s.log|] == s.log;
        UnderWayIsAtItsPosition(before, last.call);
      }
    }
  }

  /** The cache says of the driver what the newest row says. */
  predicate HoldsNewest(s: Stores, user: UserId) {
    if Newest(s.log, user).None? then Id(user) !in s.cache
    else Id(user) in s.cache && s.cache[Id(user)] == Newest(s.log, user).value.at
  }

  /**
   For every run, with any failures and overlaps: the cache holds a driver's newest position
   exactly when the update that wrote the cache last and the one that wrote the newest row were
   sent with one position, or neither store was ever written; so whenever they are one update.
   */
  lemma HoldsNewestExactly(es: seq<Event>, user: UserId)
    ensures HoldsNewest(After(EMPTY, es), user)
            <==> var cached, logged := LastCached(es, user), LastLogged(es, user);
                 || (cached.None? && logged.None?)
                 || (cached.Some? && logged.Some?
                     && cached.value < |After(EMPTY, es).calls| && logged.value < |After(EMPTY, es).calls|
                     && PositionOf(es, cached.value) == PositionOf(es, logged.value))
    ensures LastCached(es, user) == LastLogged(es, user) ==> HoldsNewest(After(EMPTY, es), user)
  {
    CacheHoldsAPosition(es, user);
    LogHoldsAPosition(es, user);
  }

  // ---- what the two sources find ----

  /** An untruncated search of the cache finds the driver there. */
  predicate CacheFinds(q: Search, s: Stores, d: UserId, at: Point) {
    Id(d) in s.cache && s.cache[Id(d)] == at && q.Within(at)
  }

  /** A search of the log finds the driver there, if available. */
  ghost predicate LogFinds(q: Search, s: Stores, d: UserId, at: Point) {
    exists r :: r in s.log && IsKept(q, s.log, r) && r.user == d && r.at == at
  }

  /** The log finds what the cache finds, and the cache what the log finds at the newest position. */
  ghost predicate FindAlike(q: Search, s: Stores, d: UserId, at: Point) {
    && (CacheFinds(q, s, d, at) ==> LogFinds(q, s, d, at))
    && (LogFinds(q, s, d, at) && Newest(s.log, d).Some? && at == Newest(s.log, d).value.at ==> CacheFinds(q, s, d, at))
  }

  function Everywhere(): Search {
    Search((a: Point, b: Point) => 0.0, Point(0.0, 0.0), 0.0)
  }

  /** The two sources find a driver alike in every search exactly when the cache holds the newest position. */
  lemma FindAlikeExactly(s: Stores, d: UserId)
    requires StampsRise(s.log, d)
    ensures (forall q: Search, at: Point :: FindAlike(q, s, d, at)) <==> HoldsNewest(s, d)
  {
    NewestIsInLog(s.log, d);
    if HoldsNewest(s, d) {
      forall q: Search, at: Point ensures FindAlike(q, s, d, at) {
        if CacheFinds(q, s, d, at) {
          assert IsKept(q, s.log, Newest(s.log, d).value);
        }
      }
    } else {
      var q := Everywhere();
      if Newest(s.log, d).Some? {
        assert IsKept(q, s.log, Newest(s.log, d).value);
        assert LogFinds(q, s, d, Newest(s.log, d).value.at);
        assert !FindAlike(q, s, d, if Id(d) in s.cache then s.cache[Id(d)] else Newest(s.log, d).value.at);
      } else {
        assert !FindAlike(q, s, d, s.cache[Id(d)]);
      }
    }
  }

  predicate AnswersWith(results: seq<GeoResult>, d: UserId, at: Point) {
    exists i :: 0 <= i < |results| && results[i].name == Id(d) && results[i].at == at
  }

  predicate RowsHave(rows: seq<QueryRow>, d: UserId, at: Point) {
    exists j :: 0 <= j < |rows| && rows[j].driver == d && rows[j].at == at
  }

  lemma OneIsKept(q: Search, log: Log, r: Row, kept: Row)
    requires IsKept(q, log, r) && IsKept(q, log, kept) && r.user == kept.user && StampsRise(log, r.user)
    ensures r == kept
  {
    var i :| 0 <= i < |log| && log[i] == r;
    var j :| 0 <= j < |log| && log[j] == kept;
  }

  lemma KeptIsInRows(q: Search, log: Log, available: set<UserId>, rows: seq<QueryRow>, r: Row)
    requires IsNearbyQuery(q, log, available, rows) && StampsRise(log, r.user)
    requires r in log && IsKept(q, log, r) && r.user in available
    ensures RowsHave(rows, r.user, r.at)
  {
    assert HasDriver(rows, r.user);
    var j :| 0 <= j < |rows| && rows[j].driver == r.user;
    assert KeepsRow(q, log, rows[j]);
    var kept :| kept in log && IsKept(q, log, kept) && rows[j] == QueryRow(kept.user, kept.at, 1000.0 * q.Km(kept.at));
    OneIsKept(q, log, r, kept);
  }

  /** What the sources find is what they answer with: an untruncated cache, and the log for an available driver. */
  lemma FoundIsAnswered(q: Search, s: Stores, available: set<UserId>, results: seq<GeoResult>, rows: seq<QueryRow>,
                        d: UserId, at: Point)
    requires IsGeoSearch(q, s.cache, results) && IsUntruncated(q, s.cache, results)
    requires IsNearbyQuery(q, s.log, available, rows) && d in available && StampsRise(s.log, d)
    ensures CacheFinds(q, s, d, at) <==> AnswersWith(results, d, at)
    ensures LogFinds(q, s, d, at) <==> RowsHave(rows, d, at)
  {
    if CacheFinds(q, s, d, at) {
      assert HasName(results, Id(d));
    }
    if RowsHave(rows, d, at) {
      var j :| 0 <= j < |rows| && rows[j].driver == d && rows[j].at == at;
      assert KeepsRow(q, s.log, rows[j]);
    }
    if LogFinds(q, s, d, at) {
      var r :| r in s.log && IsKept(q, s.log, r) && r.user == d && r.at == at;
      KeptIsInRows(q, s.log, available, rows, r);
    }
  }

  predicate HasUnderWay(s: Stores, user: UserId) {
    exists i :: 0 <= i < |s.calls| && IsUnderWay(s, i, user)
  }

  /**
   The driver's own updates do not overlap and none of their writes fails; other drivers are
   unconstrained.
   */
  predicate InTurn(es: seq<Event>, user: UserId) {
    es == []
    || (var before, last := es[..|es| - 1], es[|es| - 1];
        && InTurn(before, user)
        && (last.GeoAdd? && last.user == user ==> !last.fails && !HasUnderWay(After(EMPTY, before), user))
        && (last.Insert? && IsUnderWay(After(EMPTY, before), last.call, user) ==> !last.fails))
  }

  lemma {:induction false} InTurnWritesBoth(es: seq<Event>, user: UserId)
    requires InTurn(es, user)
    ensures forall i | 0 <= i < |After(EMPTY, es).calls| && IsUnderWay(After(EMPTY, es), i, user) ::
              LastCached(es, user) == Some(i)
    ensures !HasUnderWay(After(EMPTY, es), user) ==> LastCached(es, user) == LastLogged(es, user)
  {
    if es != [] {
      var before, last := es[..|es| - 1], es[|es| - 1];
      InTurnWritesBoth(before, user);
      var s, s' := After(EMPTY, before), After(EMPTY, es);
      forall i | 0 <= i < |s'.calls| && IsUnderWay(s', i, user) ensures LastCached(es, user) == Some(i) {
        assert i < |s.calls| ==> IsUnderWay(s, i, user);
      }
      if HasUnderWay(s, user) && !HasUnderWay(s', user) {
        var i :| 0 <= i < |s.calls| && IsUnderWay(s, i, user);
        assert !IsUnderWay(s', i, user);
      } else if !HasUnderWay(s', user) {
        if last.GeoAdd? && last.user == user {
          assert IsUnderWay(s', |s.calls|, user);
        }
      }
    }
  }

  /** Between its updates, a driver who sends them in turn is in the cache where the newest row says. */
  lemma CacheIsNewest(es: seq<Event>, user: UserId)
    requires InTurn(es, user) && !HasUnderWay(After(EMPTY, es), user)
    ensures HoldsNewest(After(EMPTY, es), user)
  {
    InTurnWritesBoth(es, user);
    CacheHoldsAPosition(es, user);
    LogHoldsAPosition(es, user);
  }

  lemma KeptIsNewest(q: Search, log: Log, r: Row)
    requires StampsRise(log, r.user) && IsKept(q, log, r)
    ensures Newest(log, r.user).Some?
    ensures q.Within(Newest(log, r.user).value.at) <==> r == Newest(log, r.user).value
  {
    NewestIsInLog(log, r.user);
  }

  /** A driver the log answers with is at the newest position exactly when that is in range. */
  lemma RowIsNewestExactly(q: Search, log: Log, available: set<UserId>, rows: seq<QueryRow>, j: nat)
    requires IsNearbyQuery(q, log, available, rows) && j < |rows| && StampsRise(log, rows[j].driver)
    ensures Newest(log, rows[j].driver).Some?
    ensures q.Within(Newest(log, rows[j].driver).value.at) <==> rows[j].at == Newest(log, rows[j].driver).value.at
    ensures rows[j].distanceM == 1000.0 * q.Km(rows[j].at)
  {
    assert KeepsRow(q, log, rows[j]);
    var r :| r in log && IsKept(q, log, r) && rows[j] == QueryRow(r.user, r.at, 1000.0 * q.Km(r.at));
    KeptIsNewest(q, log, r);
  }

  /** The cache answers with a driver between updates sent in turn exactly when the newest position is in range. */
  lemma CachedIsNewestExactly(q: Search, es: seq<Event>, results: seq<GeoResult>, d: UserId)
    requires InTurn(es, d) && !HasUnderWay(After(EMPTY, es), d)
    requires IsGeoSearch(q, After(EMPTY, es).cache, results) && IsUntruncated(q, After(EMPTY, es).cache, results)
    ensures var log := After(EMPTY, es).log;
            && (HasName(results, Id(d)) <==> Newest(log, d).Some? && q.Within(Newest(log, d).value.at))
            && forall i | 0 <= i < |results| && results[i].name == Id(d) ::
                 Newest(log, d).Some? && results[i].at == Newest(log, d).value.at
                   && results[i].dist == q.Km(results[i].at)
  {
    CacheIsNewest(es, d);
  }

  /** The cache's answer and the log's, as far as one driver goes. */
  predicate AnswersAgree(q: Search, log: Log, results: seq<GeoResult>, rows: seq<QueryRow>, d: UserId) {
    && (HasName(results, Id(d)) ==> HasDriver(rows, d))
    && (forall i, j | 0 <= i < |results| && 0 <= j < |rows| && results[i].name == Id(d) && rows[j].driver == d ::
          FromRow(rows[j]) == FromResult(results[i]))
    && (forall j | 0 <= j < |rows| && rows[j].driver == d ::
          Newest(log, d).Some? && (!HasName(results, Id(d)) <==> rows[j].at != Newest(log, d).value.at))
  }

  /**
   The cache and the log agree on every available driver who sends updates in turn and is between
   two of them, whatever the others do; a driver only the log answers with is there for an older
   row, the newest position being out of range.
   */
  lemma CacheAgainstLog(q: Search, es: seq<Event>, available: set<UserId>, results: seq<GeoResult>,
                        rows: seq<QueryRow>, d: UserId)
    requires InTurn(es, d) && !HasUnderWay(After(EMPTY, es), d) && StampsRise(After(EMPTY, es).log, d)
    requires IsGeoSearch(q, After(EMPTY, es).cache, results) && IsUntruncated(q, After(EMPTY, es).cache, results)
    requires IsNearbyQuery(q, After(EMPTY, es).log, available, rows) && d in available
    ensures AnswersAgree(q, After(EMPTY, es).log, results, rows, d)
  {
    CacheIsNewest(es, d);
    HoldingNewestAgrees(q, After(EMPTY, es), available, results, rows, d);
  }

  lemma HoldingNewestAgrees(q: Search, s: Stores, available: set<UserId>, results: seq<GeoResult>,
                            rows: seq<QueryRow>, d: UserId)
    requires HoldsNewest(s, d) && StampsRise(s.log, d)
    requires IsGeoSearch(q, s.cache, results) && IsUntruncated(q, s.cache, results)
    requires IsNearbyQuery(q, s.log, available, rows) && d in available
    ensures AnswersAgree(q, s.log, results, rows, d)
  {
    NewestIsInLog(s.log, d);
    forall j | 0 <= j < |rows| && rows[j].driver == d
      ensures Newest(s.log, d).Some? && (HasName(results, Id(d)) <==> rows[j].at == Newest(s.log, d).value.at)
    {
      RowIsNewestExactly(q, s.log, available, rows, j);
    }
    forall i, j | 0 <= i < |results| && 0 <= j < |rows| && results[i].name == Id(d) && rows[j].driver == d
      ensures FromRow(rows[j]) == FromResult(results[i])
    {
      RowIsNewestExactly(q, s.log, available, rows, j);
    }
  }

  // ---- runs in which they disagree ----

  const HERE := Point(0.0, 0.0)
  const NEAR := Point(5.0, 0.0)
  const AWAY := Point(50.0, 0.0)

  function TenKmAround(): Search {
    Search((a: Point, b: Point) => if a == b then 0.0 else if b == NEAR then 5.0 else 50.0, HERE, 10.0)
  }

  const DEPARTURE: seq<Event> := [GeoAdd(9, HERE, false), Insert(0, 1, false), GeoAdd(9, AWAY, false),
                                  Insert(1, 2, false)]

  lemma FourSteps(es: seq<Event>)
    requires |es| == 4
    ensures After(EMPTY, es) == Step(Step(Step(Step(EMPTY, es[0]), es[1]), es[2]), es[3])
  {
    Runs.Prefix(Step, EMPTY, es, 0);
    Runs.Prefix(Step, EMPTY, es, 1);
    Runs.Prefix(Step, EMPTY, es, 2);
    Runs.Prefix(Step, EMPTY, es, 3);
    assert es[..3 + 1] == es && es[..0] == [];
  }

  /** A driver who has left the area is still found there by the log. */
  lemma LogFindsADriverWhoLeft()
    ensures var s := After(EMPTY, DEPARTURE);
            && StampsRise(s.log, 9) && HoldsNewest(s, 9) && Newest(s.log, 9).Some?
            && !TenKmAround().Within(Newest(s.log, 9).value.at)
            && IsNearbyQuery(TenKmAround(), s.log, {9}, [QueryRow(9, HERE, 0.0)])
  {
    FourSteps(DEPARTURE);
    var q, log, answer := TenKmAround(), After(EMPTY, DEPARTURE).log, QueryRow(9, HERE, 0.0);
    assert log == [Row(9, HERE, 1), Row(9, AWAY, 2)];
    assert q.Within(HERE) && !q.Within(AWAY);
    assert IsKept(q, log, Row(9, HERE, 1));
    assert KeepsRow(q, log, answer);
    assert [answer][0].driver == 9 && HasDriver([answer], 9);
  }

  /** Two updates of one driver cross between the stores. */
  const CROSSING: seq<Event> := [GeoAdd(9, HERE, false), GeoAdd(9, NEAR, false), Insert(1, 1, false),
                                 Insert(0, 2, false)]

  /** Without any failure and with rising stamps, the two sources place the driver differently. */
  lemma CrossingUpdatesDisagree()
    ensures var s, q := After(EMPTY, CROSSING), TenKmAround();
            var result, row := GeoResult(Id(9), NEAR, 5.0), QueryRow(9, HERE, 0.0);
            && StampsRise(s.log, 9) && !HasUnderWay(s, 9)
            && IsGeoSearch(q, s.cache, [result]) && IsUntruncated(q, s.cache, [result])
            && IsNearbyQuery(q, s.log, {9}, [row]) && FromRow(row) != FromResult(result)
  {
    FourSteps(CROSSING);
    var s, q := After(EMPTY, CROSSING), TenKmAround();
    var result, row := GeoResult(Id(9), NEAR, 5.0), QueryRow(9, HERE, 0.0);
    assert s.log == [Row(9, NEAR, 1), Row(9, HERE, 2)] && s.cache == map[Id(9) := NEAR];
    assert q.Km(NEAR) == 5.0 && q.Km(HERE) == 0.0;
    assert [result][0].name == Id(9) && HasName([result], Id(9));
    assert IsKept(q, s.log, Row(9, HERE, 2));
    assert KeepsRow(q, s.log, row);
    assert [row][0].driver == 9 && HasDriver([row], 9);
  }

  /** Between the two statements of a first update the cache answers and the log does not. */
  lemma HalfAnUpdateDisagrees()
    ensures var s, q := After(EMPTY, [GeoAdd(9, HERE, false)]), TenKmAround();
            var result := GeoResult(Id(9), HERE, 0.0);
            && IsGeoSearch(q, s.cache, [result]) && IsUntruncated(q, s.cache, [result])
            && IsNearbyQuery(q, s.log, {9}, [])
  {
    Runs.One(Step, EMPTY, GeoAdd(9, HERE, false));
    assert [GeoResult(Id(9), HERE, 0.0)][0].name == Id(9) && HasName([GeoResult(Id(9), HERE, 0.0)], Id(9));
  }

  /** Twenty-one drivers in one place. */
  function Crowd(): Cache {
    CrowdOf(21)
  }

  function CrowdOf(n: nat): Cache {
    if n == 0 then map[] else CrowdOf(n - 1)[Id(n - 1) := HERE]
  }

  lemma {:induction false} CrowdSize(n: nat)
    ensures |CrowdOf(n)| == n
    ensures forall name :: name in CrowdOf(n) <==> name.Id? && name.driver < n
    ensures forall name | name in CrowdOf(n) :: CrowdOf(n)[name] == HERE
  {
    if n > 0 {
      CrowdSize(n - 1);
    }
  }

  function FirstOfCrowd(q: Search, n: nat): seq<GeoResult> {
    seq(n, i requires 0 <= i < n => GeoResult(Id(i), HERE, q.Km(HERE)))
  }

  lemma {:induction false} FirstOfCrowdAreWellFormed(q: Search, n: nat)
    ensures |WellFormed(FirstOfCrowd(q, n))| == n
  {
    if n > 0 {
      FirstOfCrowdAreWellFormed(q, n - 1);
      assert FirstOfCrowd(q, n)[..n - 1] == FirstOfCrowd(q, n - 1);
    }
  }

  /** With more than twenty drivers in range the count stops at twenty. */
  lemma CountStopsAtTwenty(q: Search)
    requires q.Within(HERE)
    ensures |Crowd()| == 21 && forall name | name in Crowd() :: q.Within(Crowd()[name])
    ensures IsGeoSearch(q, Crowd(), FirstOfCrowd(q, 20)) && |WellFormed(FirstOfCrowd(q, 20))| == 20
  {
    FirstOfCrowdAreWellFormed(q, 20);
    CrowdSize(21);
  }

  /** The supply side of surge pricing is capped, so enough demand always gives the full multiplier. */
  lemma CappedSupplySurges(q: Search, cache: Cache, results: seq<GeoResult>, requests: nat)
    requires IsGeoSearch(q, cache, results) && requests >= 60
    ensures Pricing.DEFAULT_ENGINE.Calculate(requests, |WellFormed(results)|) == 3.0
  {
    WellFormedIsFiltered(results);
    Pricing.SixtyRequestsAlwaysSurgeFully(requests, |WellFormed(results)|);
  }
}
