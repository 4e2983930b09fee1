/**
 The dispatch protocol as a step machine over one rides table.

 Every transaction body and every statement outside a transaction is one atomic
 event.  A run is any sequence of events; an event that its call cannot take at
 that point leaves the state as it is.
 */
module Rides {
  import opened Common
  import Runs
  import opened Fsm
  import Pricing

  type RideId = nat
  type CallId = nat

  datatype Ride = Ride(
    rider: UserId,
    driver: Option<UserId>,
    status: Status,
    fare: real,
    createdAt: Time,
    startedAt: Option<Time>,
    endedAt: Option<Time>)

  type Table = map<RideId, Ride>

  /** Where a RequestRide call has got to. */
  datatype Call =
    | Checked(rider: UserId)               // no active ride was found
    | Pending(rider: UserId, id: RideId)   // the ride is inserted, its match write may still come
    | Finished

  datatype State = State(rides: Table, calls: map<CallId, Call>, now: Time)

  /** What the database does to a transaction or statement. */
  datatype Fault = NoFault | ReadFails | WriteFails

  datatype Event =
    | Check(call: CallId, rider: UserId, fault: Fault)
    | Insert(call: CallId, id: RideId, distanceKm: real, surge: real, fault: Fault)
    | WriteMatch(call: CallId, driver: UserId, fault: Fault)
    | GiveUp(call: CallId)
    | Accept(id: RideId, driver: UserId, began: Time, fault: Fault)
    | Complete(id: RideId, driver: UserId, began: Time, fault: Fault)
    | Cancel(id: RideId, user: UserId, fault: Fault)
    | Tick(to: Time)

  const EMPTY := State(map[], map[], 0)

  datatype Error = NotFound | Forbidden | BadRequest | Conflict | Internal

  // ---- statements ----

  predicate HasActive(rides: Table, rider: UserId) {
    exists id :: id in rides && IsCurrent(rides[id], rider)
  }

  predicate IsCurrent(r: Ride, rider: UserId) {
    r.rider == rider && IsActive(r.status)
  }

  /** A rider's current ride is one that could still be cancelled: requested, matched or enroute. */
  lemma CurrentExactly(r: Ride, rider: UserId)
    ensures IsCurrent(r, rider) <==> r.rider == rider && CanTransition(r.status, Cancelled)
    ensures IsCurrent(r, rider) <==> r.rider == rider && r.status in {Requested, Matched, Enroute}
  {
    TransitionsExactly(r.status, Cancelled);
  }

  function NewRide(rider: UserId, fare: real, now: Time): Ride {
    Ride(rider, None, Requested, Pricing.StoredNumeric(fare), now, None, None)
  }

  /** UPDATE by id; no row, no change.  A null driver leaves the column alone. */
  function UpdateStatus(rides: Table, id: RideId, status: Status, driver: Option<UserId>): Table {
    if id !in rides then rides
    else rides[id := rides[id].(status := status, driver := if driver.Some? then driver else rides[id].driver)]
  }

  function SetStarted(rides: Table, id: RideId, began: Time): Table {
    if id !in rides then rides
    else rides[id := rides[id].(status := Enroute, startedAt := Some(began))]
  }

  function SetCompleted(rides: Table, id: RideId, fare: real, began: Time): Table {
    if id !in rides then rides
    else rides[id := rides[id].(status := Completed, fare := Pricing.StoredNumeric(fare), endedAt := Some(began))]
  }

  // ---- the guards of the row-locked transactions ----

  predicate MayAdvance(rides: Table, id: RideId, driver: UserId, to: Status) {
    id in rides && rides[id].driver == Some(driver) && CanTransition(rides[id].status, to)
  }

  predicate MayCancel(rides: Table, id: RideId, user: UserId) {
    id in rides && (rides[id].rider == user || rides[id].driver == Some(user))
      && CanTransition(rides[id].status, Cancelled)
  }

  // ---- steps ----

  function Step(s: State, e: Event): State {
    match e
    case Check(c, rider, fault) =>
      if c in s.calls then s
      else if fault.NoFault? && !HasActive(s.rides, rider) then s.(calls := s.calls[c := Checked(rider)])
      else s.(calls := s.calls[c := Finished])
    case Insert(c, id, distanceKm, surge, fault) =>
      if !(c in s.calls && s.calls[c].Checked?) then s
      else
        var fare := Pricing.EstimateFare(distanceKm, surge);
        if fault.NoFault? && id !in s.rides && Pricing.FitsNumeric(fare) then
          State(s.rides[id := NewRide(s.calls[c].rider, fare, s.now)],
                s.calls[c := Pending(s.calls[c].rider, id)], s.now)
        else s.(calls := s.calls[c := Finished])
    case WriteMatch(c, driver, fault) =>
      if !(c in s.calls && s.calls[c].Pending?) then s
      else
        State(if fault.NoFault? then UpdateStatus(s.rides, s.calls[c].id, Matched, Some(driver)) else s.rides,
              s.calls[c := Finished], s.now)
    case GiveUp(c) =>
      if c in s.calls then s.(calls := s.calls[c := Finished]) else s
    case Accept(id, driver, began, fault) =>
      if began <= s.now && fault.NoFault? && MayAdvance(s.rides, id, driver, Enroute)
      then s.(rides := SetStarted(s.rides, id, began)) else s
    case Complete(id, driver, began, fault) =>
      if began <= s.now && fault.NoFault? && MayAdvance(s.rides, id, driver, Completed)
      then s.(rides := SetCompleted(s.rides, id, s.rides[id].fare, began)) else s
    case Cancel(id, user, fault) =>
      if fault.NoFault? && MayCancel(s.rides, id, user)
      then s.(rides := UpdateStatus(s.rides, id, Cancelled, None)) else s
    case Tick(to) =>
      if s.now <= to then s.(now := to) else s
  }

  function After(s: State, es: seq<Event>): State {
    Runs.After(Step, s, es)
  }

  /** The state of the run es from the empty system, just before event i. */
  function At(es: seq<Event>, i: nat): State
    requires i <= |es|
  {
    After(EMPTY, es[..i])
  }

  lemma AtStep(es: seq<Event>, i: nat)
    requires i < |es|
    ensures At(es, i + 1) == Step(At(es, i), es[i])
  {
    Runs.Prefix(Step, EMPTY, es, i);
  }

  /** Nothing deletes a ride. */
  lemma {:induction false} RowsStay(s: State, es: seq<Event>)
    ensures s.rides.Keys <= After(s, es).rides.Keys
  {
    if es != [] {
      RowsStay(s, es[..|es| - 1]);
    }
  }

  /** The call this event moves, if any. */
  function CallOf(e: Event): Option<CallId> {
    match e
    case Check(c, _, _) => Some(c)
    case Insert(c, _, _, _, _) => Some(c)
    case WriteMatch(c, _, _) => Some(c)
    case GiveUp(c) => Some(c)
    case _ => None
  }

  predicate Foreign(es: seq<Event>, call: CallId) {
    forall i :: 0 <= i < |es| ==> CallOf(es[i]) != Some(call)
  }

  /** Other calls, drivers and riders never move a call. */
  lemma {:induction false} OthersLeaveTheCall(s: State, es: seq<Event>, call: CallId)
    requires Foreign(es, call)
    ensures call in After(s, es).calls <==> call in s.calls
    ensures call in s.calls ==> After(s, es).calls[call] == s.calls[call]
  {
    if es != [] {
      OthersLeaveTheCall(s, es[..|es| - 1], call);
      assert CallOf(es[|es| - 1]) != Some(call);
    }
  }
}
