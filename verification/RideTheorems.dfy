/** What every run of the dispatch protocol keeps. */
module RideTheorems {
  import opened Common
  import opened Fsm
  import opened Rides
  import Pricing

  // ---- the inductive invariant ----

  predicate WellShaped(r: Ride) {
    && (r.driver.None? ==> r.status in {Requested, Cancelled} && r.startedAt.None?)
    && (r.status == Requested ==> r.driver.None?)
    && (r.status in {Enroute, Completed} ==> r.startedAt.Some?)
    && (r.status == Matched ==> r.startedAt.None?)
    && (r.endedAt.Some? <==> r.status == Completed)
  }

  /** A ride whose match write is still to come has no driver yet, so nobody can accept it. */
  predicate PendingOwned(s: State) {
    && (forall c | c in s.calls && s.calls[c].Pending? ::
          s.calls[c].id in s.rides
          && s.rides[s.calls[c].id].driver.None?
          && s.rides[s.calls[c].id].rider == s.calls[c].rider)
    && (forall c, d | c in s.calls && d in s.calls && s.calls[c].Pending? && s.calls[d].Pending? && c != d ::
          s.calls[c].id != s.calls[d].id)
  }

  predicate Inv(s: State) {
    PendingOwned(s) && forall id | id in s.rides :: WellShaped(s.rides[id])
  }

  lemma StepKeepsInv(s: State, e: Event)
    requires Inv(s)
    ensures Inv(Step(s, e))
  {
  }

  lemma {:induction false} RunKeepsInv(es: seq<Event>, i: nat)
    requires i <= |es|
    ensures Inv(At(es, i))
  {
    if i > 0 {
      RunKeepsInv(es, i - 1);
      AtStep(es, i - 1);
      StepKeepsInv(At(es, i - 1), es[i - 1]);
    }
  }

  /** Row shape in every reachable state. */
  lemma RowShape(es: seq<Event>, id: RideId)
    requires id in After(EMPTY, es).rides
    ensures var r := After(EMPTY, es).rides[id];
            && (r.status in {Matched, Enroute, Completed} ==> r.driver.Some?)
            && (r.status in {Enroute, Completed} ==> r.startedAt.Some?)
            && (r.endedAt.Some? <==> r.status == Completed)
            && (r.status == Requested ==> r.driver.None?)
  {
    RunKeepsInv(es, |es|);
    assert es[..|es|] == es;
  }

  // ---- one step, seen from one ride ----

  /** Event i is the match write of the call that inserted ride id, and it commits. */
  predicate IsMatchWrite(s: State, e: Event, id: RideId) {
    e.WriteMatch? && e.fault.NoFault? && e.call in s.calls && s.calls[e.call].Pending? && s.calls[e.call].id == id
  }

  predicate MatchPending(s: State, id: RideId) {
    exists c :: c in s.calls && s.calls[c].Pending? && s.calls[c].id == id
  }

  predicate WriteOnce<T(==)>(before: Option<T>, after: Option<T>) {
    before.Some? ==> after == before
  }

  /** All that one event may do to a ride that is already in the table. */
  lemma StepOnRide(s: State, e: Event, id: RideId)
    requires Inv(s) && id in s.rides
    ensures id in Step(s, e).rides
    ensures var r, r' := s.rides[id], Step(s, e).rides[id];
            && r'.rider == r.rider && r'.createdAt == r.createdAt
            && WriteOnce(r.driver, r'.driver)
            && WriteOnce(r.startedAt, r'.startedAt)
            && WriteOnce(r.endedAt, r'.endedAt)
            && (r'.driver != r.driver <==> IsMatchWrite(s, e, id))
            && (r'.status != r.status ==>
                  CanTransition(r.status, r'.status)
                  || (r.status == Cancelled && r'.status == Matched))
            && (r'.status == Matched && r.status != Matched <==> IsMatchWrite(s, e, id))
            && (IsMatchWrite(s, e, id) ==> r.status in {Requested, Cancelled} && r'.driver == Some(e.driver))
            && (MatchPending(Step(s, e), id) ==> MatchPending(s, id))
  {
  }

  // ---- whole runs, seen from one ride ----

  /** Every change of status follows the table, except the one a ride's own late match write makes. */
  lemma EveryStatusChange(es: seq<Event>, i: nat, id: RideId)
    requires i < |es| && id in At(es, i).rides
    ensures id in At(es, i + 1).rides
    ensures var a, b := At(es, i).rides[id].status, At(es, i + 1).rides[id].status;
            a == b || CanTransition(a, b) || (a == Cancelled && b == Matched && IsMatchWrite(At(es, i), es[i], id))
  {
    RunKeepsInv(es, i);
    AtStep(es, i);
    StepOnRide(At(es, i), es[i], id);
  }

  /** A ride appears by the insert of a call that found its rider without one, and starts out requested. */
  lemma RidesStartRequested(es: seq<Event>, i: nat, id: RideId)
    requires i < |es| && id !in At(es, i).rides
    ensures id in At(es, i + 1).rides <==>
              && es[i].Insert? && es[i].fault.NoFault? && es[i].id == id
              && es[i].call in At(es, i).calls && At(es, i).calls[es[i].call].Checked?
              && Pricing.FitsNumeric(Pricing.EstimateFare(es[i].distanceKm, es[i].surge))
    ensures id in At(es, i + 1).rides ==>
              At(es, i + 1).rides[id] ==
                Ride(At(es, i).calls[es[i].call].rider, None, Requested,
                     Pricing.EstimateFare(es[i].distanceKm, es[i].surge), At(es, i).now, None, None)
  {
    AtStep(es, i);
    if es[i].Insert? {
      Pricing.StoringAFareIsTheIdentity(es[i].distanceKm, es[i].surge);
    }
  }

  /** Who moves a ride into each status, and from where: no other event does, and these always do. */
  lemma StatusIsEnteredExactly(es: seq<Event>, i: nat, id: RideId)
    requires i < |es| && id in At(es, i).rides
    ensures id in At(es, i + 1).rides
    ensures var r, r', e := At(es, i).rides[id], At(es, i + 1).rides[id], es[i];
            && (r'.status == Enroute && r.status != Enroute <==>
                  e.Accept? && e.id == id && e.fault.NoFault? && e.began <= At(es, i).now
                  && r.status == Matched && r.driver == Some(e.driver))
            && (r'.status == Completed && r.status != Completed <==>
                  e.Complete? && e.id == id && e.fault.NoFault? && e.began <= At(es, i).now
                  && r.status == Enroute && r.driver == Some(e.driver))
            && (r'.status == Cancelled && r.status != Cancelled <==>
                  e.Cancel? && e.id == id && e.fault.NoFault?
                  && r.status in {Requested, Matched, Enroute} && (e.user == r.rider || r.driver == Some(e.user)))
            && (r'.status == Matched && r.status != Matched <==> IsMatchWrite(At(es, i), e, id))
            && (r'.startedAt != r.startedAt ==> r'.status == Enroute && e.Accept? && r'.startedAt == Some(e.began))
            && (r'.endedAt != r.endedAt ==> r'.status == Completed && e.Complete? && r'.endedAt == Some(e.began))
  {
    RunKeepsInv(es, i);
    AtStep(es, i);
    StepOnRide(At(es, i), es[i], id);
  }

  /** What later events can never undo. */
  lemma {:induction false} RowHistory(es: seq<Event>, i: nat, j: nat, id: RideId)
    requires i <= j <= |es| && id in At(es, i).rides
    ensures id in At(es, j).rides
    ensures var r, r' := At(es, i).rides[id], At(es, j).rides[id];
            && r'.rider == r.rider && r'.createdAt == r.createdAt
            && WriteOnce(r.driver, r'.driver)
            && WriteOnce(r.startedAt, r'.startedAt)
            && WriteOnce(r.endedAt, r'.endedAt)
    ensures MatchPending(At(es, j), id) ==> MatchPending(At(es, i), id)
    decreases j
  {
    if i < j {
      RowHistory(es, i, j - 1, id);
      RunKeepsInv(es, j - 1);
      AtStep(es, j - 1);
      StepOnRide(At(es, j - 1), es[j - 1], id);
    }
  }

  /** A ride gets at most one match write, and gets it in requested or cancelled. */
  lemma AtMostOneMatchWrite(es: seq<Event>, i: nat, j: nat, id: RideId)
    requires i < j < |es|
    requires IsMatchWrite(At(es, i), es[i], id)
    ensures !IsMatchWrite(At(es, j), es[j], id)
    ensures id in At(es, i).rides && At(es, i).rides[id].status in {Requested, Cancelled}
    ensures id in At(es, j).rides && At(es, j).rides[id].driver == Some(es[i].driver)
  {
    RunKeepsInv(es, i);
    RunKeepsInv(es, j);
    AtStep(es, i);
    StepOnRide(At(es, i), es[i], id);
    RowHistory(es, i + 1, j, id);
  }

  lemma StepKeepsCompleted(s: State, e: Event, id: RideId)
    requires Inv(s) && id in s.rides && s.rides[id].status == Completed
    ensures id in Step(s, e).rides && Step(s, e).rides[id] == s.rides[id]
  {
  }

  lemma StepKeepsSettledCancelled(s: State, e: Event, id: RideId)
    requires Inv(s) && id in s.rides && s.rides[id].status == Cancelled && !MatchPending(s, id)
    ensures id in Step(s, e).rides && Step(s, e).rides[id] == s.rides[id] && !MatchPending(Step(s, e), id)
  {
  }

  /** A completed ride never changes again. */
  lemma {:induction false} CompletedIsAbsorbing(es: seq<Event>, i: nat, j: nat, id: RideId)
    requires i <= j <= |es| && id in At(es, i).rides && At(es, i).rides[id].status == Completed
    ensures id in At(es, j).rides && At(es, j).rides[id] == At(es, i).rides[id]
    decreases j
  {
    if i < j {
      CompletedIsAbsorbing(es, i, j - 1, id);
      RunKeepsInv(es, j - 1);
      AtStep(es, j - 1);
      StepKeepsCompleted(At(es, j - 1), es[j - 1], id);
    }
  }

  /** Cancelled is documented as terminal; it is left exactly by the ride's own match write. */
  lemma CancelledIsLeftOnlyByItsMatchWrite(es: seq<Event>, i: nat, id: RideId)
    requires i < |es| && id in At(es, i).rides && At(es, i).rides[id].status == Cancelled
    ensures id in At(es, i + 1).rides
    ensures At(es, i + 1).rides[id].status != Cancelled <==> IsMatchWrite(At(es, i), es[i], id)
  {
    RunKeepsInv(es, i);
    AtStep(es, i);
    StepOnRide(At(es, i), es[i], id);
  }

  lemma {:induction false} CancelledIsAbsorbingWithoutPendingMatch(es: seq<Event>, i: nat, j: nat, id: RideId)
    requires i <= j <= |es| && id in At(es, i).rides && At(es, i).rides[id].status == Cancelled
    requires !MatchPending(At(es, i), id)
    ensures id in At(es, j).rides && At(es, j).rides[id] == At(es, i).rides[id] && !MatchPending(At(es, j), id)
    decreases j
  {
    if i < j {
      CancelledIsAbsorbingWithoutPendingMatch(es, i, j - 1, id);
      RunKeepsInv(es, j - 1);
      AtStep(es, j - 1);
      StepKeepsSettledCancelled(At(es, j - 1), es[j - 1], id);
    }
  }

  /** How many changes of status are still ahead of a ride. */
  function ChangesLeft(s: State, id: RideId): nat {
    if id !in s.rides then 4
    else match s.rides[id].status
         case Requested => if MatchPending(s, id) then 4 else 1
         case Cancelled => if MatchPending(s, id) then 3 else 0
         case Matched => 2
         case Enroute => 1
         case Completed => 0
  }

  function StatusChanges(es: seq<Event>, n: nat, id: RideId): nat
    requires n <= |es|
  {
    if n == 0 then 0
    else
      var before, after := At(es, n - 1).rides, At(es, n).rides;
      var changed := id in before && id in after && before[id].status != after[id].status;
      StatusChanges(es, n - 1, id) + if changed then 1 else 0
  }

  lemma StepUsesAChange(s: State, e: Event, id: RideId)
    requires Inv(s)
    ensures ChangesLeft(Step(s, e), id) <= ChangesLeft(s, id)
    ensures id in s.rides && id in Step(s, e).rides && s.rides[id].status != Step(s, e).rides[id].status ==>
              ChangesLeft(Step(s, e), id) < ChangesLeft(s, id)
  {
    if id in s.rides {
      StepOnRide(s, e, id);
    }
  }

  /** No run changes a ride's status more than four times: cancelled, matched late, enroute, ended. */
  lemma {:induction false} StatusChangesAreBounded(es: seq<Event>, n: nat, id: RideId)
    requires n <= |es|
    ensures StatusChanges(es, n, id) + ChangesLeft(At(es, n), id) <= 4
  {
    if n > 0 {
      StatusChangesAreBounded(es, n - 1, id);
      RunKeepsInv(es, n - 1);
      AtStep(es, n - 1);
      StepUsesAChange(At(es, n - 1), es[n - 1], id);
    }
  }

  // ---- the fare ----

  predicate FaresStored(s: State) {
    forall id | id in s.rides :: Pricing.StoredNumeric(s.rides[id].fare) == s.rides[id].fare
  }

  lemma StepKeepsFares(s: State, e: Event)
    requires FaresStored(s)
    ensures FaresStored(Step(s, e))
    ensures forall id | id in s.rides :: id in Step(s, e).rides && Step(s, e).rides[id].fare == s.rides[id].fare
  {
    if e.Insert? {
      Pricing.StoringIsIdempotent(Pricing.EstimateFare(e.distanceKm, e.surge));
    }
  }

  lemma {:induction false} RunKeepsFares(es: seq<Event>, i: nat, j: nat)
    requires i <= j <= |es|
    ensures FaresStored(At(es, j))
    ensures forall id | id in At(es, i).rides ::
              id in At(es, j).rides && At(es, j).rides[id].fare == At(es, i).rides[id].fare
    decreases j
  {
    if j > 0 {
      RunKeepsFares(es, if i < j then i else j - 1, j - 1);
      AtStep(es, j - 1);
      StepKeepsFares(At(es, j - 1), es[j - 1]);
    }
  }

  /** Storing and rewriting included, a ride is charged what was quoted when it was requested. */
  lemma FareIsTheQuote(es: seq<Event>, i: nat, j: nat, id: RideId)
    requires i < j <= |es| && id !in At(es, i).rides && id in At(es, i + 1).rides
    ensures es[i].Insert? && id in At(es, j).rides
    ensures At(es, j).rides[id].fare == Pricing.EstimateFare(es[i].distanceKm, es[i].surge)
  {
    AtStep(es, i);
    Pricing.StoringAFareIsTheIdentity(es[i].distanceKm, es[i].surge);
    RunKeepsFares(es, i + 1, j);
  }

  // ---- one current ride per rider ----

  predicate IsUnfinished(c: Call, rider: UserId) {
    !c.Finished? && c.rider == rider
  }

  predicate HasUnfinished(s: State, rider: UserId) {
    exists c :: c in s.calls && IsUnfinished(s.calls[c], rider)
  }

  predicate AtMostOneCurrent(rides: Table, rider: UserId) {
    forall a, b | a in rides && b in rides && IsCurrent(rides[a], rider) && IsCurrent(rides[b], rider) :: a == b
  }

  /** The rider's own requests do not overlap; everybody else is unconstrained. */
  predicate SingleFile(es: seq<Event>, rider: UserId) {
    forall i | 0 <= i < |es| ::
      es[i].Check? && es[i].rider == rider && es[i].call !in At(es, i).calls ==> !HasUnfinished(At(es, i), rider)
  }

  /** While a call of the rider is under way it is the only one, and only its own ride can be current. */
  predicate OneCallUnderWay(calls: map<CallId, Call>, rider: UserId) {
    forall c, d | c in calls && d in calls && IsUnfinished(calls[c], rider) && IsUnfinished(calls[d], rider) :: c == d
  }

  predicate CurrentBelongsToCall(s: State, rider: UserId) {
    forall c, id | c in s.calls && id in s.rides && IsUnfinished(s.calls[c], rider) && IsCurrent(s.rides[id], rider) ::
      s.calls[c].Pending? && s.calls[c].id == id
  }

  predicate RiderInv(s: State, rider: UserId) {
    AtMostOneCurrent(s.rides, rider) && OneCallUnderWay(s.calls, rider) && CurrentBelongsToCall(s, rider)
  }

  /** How a step can change which rides of the rider are current. */
  lemma StepCurrent(s: State, e: Event, rider: UserId, id: RideId)
    requires Inv(s)
    requires id in Step(s, e).rides && IsCurrent(Step(s, e).rides[id], rider)
    ensures (id in s.rides && IsCurrent(s.rides[id], rider))
            || (e.Insert? && e.id == id && e.call in s.calls && s.calls[e.call] == Checked(rider)
                && Step(s, e).calls == s.calls[e.call := Pending(rider, id)])
            || (e.WriteMatch? && e.call in s.calls && s.calls[e.call] == Pending(rider, id)
                && Step(s, e).calls == s.calls[e.call := Finished])
  {
  }

  lemma StepCalls(s: State, e: Event, rider: UserId, c: CallId)
    requires c in Step(s, e).calls && IsUnfinished(Step(s, e).calls[c], rider)
    ensures (c in s.calls && s.calls[c] == Step(s, e).calls[c])
            || (e.Check? && e.call == c && c !in s.calls && e.rider == rider
                && Step(s, e).calls[c].Checked? && Step(s, e).rides == s.rides && !HasActive(s.rides, rider))
            || (e.Insert? && e.call == c && c in s.calls && s.calls[c] == Checked(rider)
                && Step(s, e).calls[c] == Pending(rider, e.id)
                && Step(s, e).rides.Keys == s.rides.Keys + {e.id} && e.id !in s.rides
                && forall id | id in s.rides :: Step(s, e).rides[id] == s.rides[id])
  {
  }

  lemma StepKeepsRiderInv(s: State, e: Event, rider: UserId)
    requires Inv(s) && RiderInv(s, rider)
    requires e.Check? && e.rider == rider && e.call !in s.calls ==> !HasUnfinished(s, rider)
    ensures RiderInv(Step(s, e), rider)
  {
    var s' := Step(s, e);
    forall a, b | a in s'.rides && b in s'.rides && IsCurrent(s'.rides[a], rider) && IsCurrent(s'.rides[b], rider)
      ensures a == b
    {
      StepCurrent(s, e, rider, a);
      StepCurrent(s, e, rider, b);
    }
    forall c, d | c in s'.calls && d in s'.calls && IsUnfinished(s'.calls[c], rider) && IsUnfinished(s'.calls[d], rider)
      ensures c == d
    {
      StepCalls(s, e, rider, c);
      StepCalls(s, e, rider, d);
    }
    forall c, id | c in s'.calls && id in s'.rides && IsUnfinished(s'.calls[c], rider) && IsCurrent(s'.rides[id], rider)
      ensures s'.calls[c].Pending? && s'.calls[c].id == id
    {
      StepCalls(s, e, rider, c);
      StepCurrent(s, e, rider, id);
    }
  }

  lemma {:induction false} RunKeepsRiderInv(es: seq<Event>, i: nat, rider: UserId)
    requires i <= |es| && SingleFile(es, rider)
    ensures RiderInv(At(es, i), rider)
  {
    if i > 0 {
      RunKeepsRiderInv(es, i - 1, rider);
      RunKeepsInv(es, i - 1);
      AtStep(es, i - 1);
      StepKeepsRiderInv(At(es, i - 1), es[i - 1], rider);
    }
  }

  /** One current ride per rider, in every state of every run where the rider's requests are single file. */
  lemma OneCurrentRidePerRider(es: seq<Event>, rider: UserId, i: nat, a: RideId, b: RideId)
    requires i <= |es| && SingleFile(es, rider)
    requires a in At(es, i).rides && b in At(es, i).rides
    requires IsCurrent(At(es, i).rides[a], rider) && IsCurrent(At(es, i).rides[b], rider)
    ensures a == b
  {
    RunKeepsRiderInv(es, i, rider);
  }

  /** The event is about to make a ride of this rider current although one already is. */
  predicate SecondCurrent(s: State, e: Event, rider: UserId) {
    && HasActive(s.rides, rider)
    && match e
       case Insert(c, id, distanceKm, surge, fault) =>
         && fault.NoFault? && id !in s.rides && Pricing.FitsNumeric(Pricing.EstimateFare(distanceKm, surge))
         && c in s.calls && s.calls[c] == Checked(rider)
       case WriteMatch(c, _, fault) =>
         && fault.NoFault?
         && c in s.calls && s.calls[c].Pending? && s.calls[c].rider == rider
         && s.calls[c].id in s.rides && s.rides[s.calls[c].id].status == Cancelled
       case _ => false
  }

  lemma StepCurrentExactly(s: State, e: Event, rider: UserId)
    requires Inv(s) && AtMostOneCurrent(s.rides, rider)
    ensures AtMostOneCurrent(Step(s, e).rides, rider) <==> !SecondCurrent(s, e, rider)
  {
    var s' := Step(s, e);
    if SecondCurrent(s, e, rider) {
      var other :| other in s.rides && IsCurrent(s.rides[other], rider);
      var id := if e.Insert? then e.id else s.calls[e.call].id;
      assert IsCurrent(s'.rides[id], rider) && IsCurrent(s'.rides[other], rider) && id != other;
    } else {
      forall a, b | a in s'.rides && b in s'.rides && IsCurrent(s'.rides[a], rider) && IsCurrent(s'.rides[b], rider)
        ensures a == b
      {
        StepCurrent(s, e, rider, a);
        StepCurrent(s, e, rider, b);
      }
    }
  }

  predicate EventAddsSecondCurrent(es: seq<Event>, i: nat, rider: UserId)
    requires i < |es|
  {
    SecondCurrent(At(es, i), es[i], rider)
  }

  predicate AtMostOneCurrentAt(es: seq<Event>, m: nat, rider: UserId)
    requires m <= |es|
  {
    AtMostOneCurrent(At(es, m).rides, rider)
  }

  lemma EventAddsSecondCurrentExactly(es: seq<Event>, i: nat, rider: UserId)
    requires i < |es| && AtMostOneCurrentAt(es, i, rider)
    ensures AtMostOneCurrentAt(es, i + 1, rider) <==> !EventAddsSecondCurrent(es, i, rider)
  {
    RunKeepsInv(es, i);
    AtStep(es, i);
    StepCurrentExactly(At(es, i), es[i], rider);
  }

  /**
   Without the single-file assumption the check can be overtaken.  For every run: the rider
   has at most one current ride throughout exactly when no insert, and no match write to a
   cancelled ride, commits while another ride of the rider is current.
   */
  lemma {:induction false} OneCurrentRideExactly(es: seq<Event>, n: nat, rider: UserId)
    requires n <= |es|
    ensures (forall m | 0 <= m <= n :: AtMostOneCurrentAt(es, m, rider))
              <==> (forall i | 0 <= i < n :: !EventAddsSecondCurrent(es, i, rider))
  {
    if n == 0 {
      assert AtMostOneCurrentAt(es, 0, rider) by {
        assert es[..0] == [];
      }
    } else {
      OneCurrentRideExactly(es, n - 1, rider);
      if AtMostOneCurrentAt(es, n - 1, rider) {
        EventAddsSecondCurrentExactly(es, n - 1, rider);
      }
    }
  }

  // ---- one ride per driver ----

  predicate IsDriving(r: Ride, driver: UserId) {
    r.driver == Some(driver) && IsActive(r.status)
  }

  predicate IsBusy(rides: Table, driver: UserId) {
    exists id :: id in rides && IsDriving(rides[id], driver)
  }

  predicate AtMostOneDriven(rides: Table, driver: UserId) {
    forall a, b | a in rides && b in rides && IsDriving(rides[a], driver) && IsDriving(rides[b], driver) :: a == b
  }

  /** A match write commits for a driver who is already on a ride. */
  predicate DoubleMatch(s: State, e: Event, driver: UserId) {
    && e.WriteMatch? && e.fault.NoFault? && e.driver == driver
    && e.call in s.calls && s.calls[e.call].Pending?
    && IsBusy(s.rides, driver)
  }

  lemma StepDriving(s: State, e: Event, driver: UserId, id: RideId)
    requires Inv(s)
    requires id in Step(s, e).rides && IsDriving(Step(s, e).rides[id], driver)
    ensures (id in s.rides && IsDriving(s.rides[id], driver)) || (IsMatchWrite(s, e, id) && e.driver == driver)
  {
  }

  lemma StepDrivenExactly(s: State, e: Event, driver: UserId)
    requires Inv(s) && AtMostOneDriven(s.rides, driver)
    ensures AtMostOneDriven(Step(s, e).rides, driver) <==> !DoubleMatch(s, e, driver)
  {
    var s' := Step(s, e);
    if DoubleMatch(s, e, driver) {
      var other :| other in s.rides && IsDriving(s.rides[other], driver);
      var id := s.calls[e.call].id;
      assert IsDriving(s'.rides[id], driver) && IsDriving(s'.rides[other], driver) && id != other;
    } else {
      forall a, b | a in s'.rides && b in s'.rides && IsDriving(s'.rides[a], driver) && IsDriving(s'.rides[b], driver)
        ensures a == b
      {
        StepDriving(s, e, driver, a);
        StepDriving(s, e, driver, b);
      }
    }
  }

  predicate EventDoubleMatches(es: seq<Event>, i: nat, driver: UserId)
    requires i < |es|
  {
    DoubleMatch(At(es, i), es[i], driver)
  }

  predicate AtMostOneDrivenAt(es: seq<Event>, m: nat, driver: UserId)
    requires m <= |es|
  {
    AtMostOneDriven(At(es, m).rides, driver)
  }

  lemma EventDoubleMatchesExactly(es: seq<Event>, i: nat, driver: UserId)
    requires i < |es| && AtMostOneDrivenAt(es, i, driver)
    ensures AtMostOneDrivenAt(es, i + 1, driver) <==> !EventDoubleMatches(es, i, driver)
  {
    RunKeepsInv(es, i);
    AtStep(es, i);
    StepDrivenExactly(At(es, i), es[i], driver);
  }

  /**
   The matching lock is described as preventing double matching.  For every run: a driver is
   on at most one ride throughout exactly when no match write commits for a busy driver.
   */
  lemma {:induction false} OneRidePerDriverExactly(es: seq<Event>, n: nat, driver: UserId)
    requires n <= |es|
    ensures (forall m | 0 <= m <= n :: AtMostOneDrivenAt(es, m, driver))
              <==> (forall i | 0 <= i < n :: !EventDoubleMatches(es, i, driver))
  {
    if n == 0 {
      assert AtMostOneDrivenAt(es, 0, driver) by {
        assert es[..0] == [];
      }
    } else {
      OneRidePerDriverExactly(es, n - 1, driver);
      if AtMostOneDrivenAt(es, n - 1, driver) {
        EventDoubleMatchesExactly(es, n - 1, driver);
      }
    }
  }

  // ---- timestamps ----

  predicate RowInOrder(r: Ride) {
    && (r.startedAt.Some? ==> r.createdAt <= r.startedAt.value)
    && (r.startedAt.Some? && r.endedAt.Some? ==> r.startedAt.value <= r.endedAt.value)
  }

  predicate TimesInOrder(rides: Table) {
    forall id | id in rides :: RowInOrder(rides[id])
  }

  /** NOW() is when the transaction began: did it begin after the timestamp it follows was taken? */
  predicate BeganInOrder(s: State, e: Event) {
    match e
    case Accept(id, driver, began, fault) =>
      began <= s.now && fault.NoFault? && MayAdvance(s.rides, id, driver, Enroute) ==> s.rides[id].createdAt <= began
    case Complete(id, driver, began, fault) =>
      began <= s.now && fault.NoFault? && MayAdvance(s.rides, id, driver, Completed) && s.rides[id].startedAt.Some? ==>
        s.rides[id].startedAt.value <= began
    case _ => true
  }

  lemma StepTimes(s: State, e: Event)
    requires Inv(s)
    ensures TimesInOrder(Step(s, e).rides) <==> TimesInOrder(s.rides) && BeganInOrder(s, e)
  {
    var s' := Step(s, e);
    if TimesInOrder(s'.rides) {
      forall id | id in s.rides ensures RowInOrder(s.rides[id]) {
        StepOnRide(s, e, id);
        assert RowInOrder(s'.rides[id]);
      }
      match e {
        case Accept(id, driver, began, fault) =>
          if id in s'.rides { assert RowInOrder(s'.rides[id]); }
        case Complete(id, driver, began, fault) =>
          if id in s'.rides { assert RowInOrder(s'.rides[id]); }
        case _ =>
      }
    }
  }

  predicate EventBeganInOrder(es: seq<Event>, i: nat)
    requires i < |es|
  {
    BeganInOrder(At(es, i), es[i])
  }

  /**
   created <= started <= ended holds in the table after a run exactly when every
   transaction that wrote a timestamp began after the earlier timestamp was taken.
   */
  lemma {:induction false} TimesInOrderExactly(es: seq<Event>, n: nat)
    requires n <= |es|
    ensures TimesInOrder(At(es, n).rides) <==> forall i | 0 <= i < n :: EventBeganInOrder(es, i)
  {
    if n > 0 {
      TimesInOrderExactly(es, n - 1);
      RunKeepsInv(es, n - 1);
      AtStep(es, n - 1);
      StepTimes(At(es, n - 1), es[n - 1]);
      assert EventBeganInOrder(es, n - 1) <==> BeganInOrder(At(es, n - 1), es[n - 1]);
      assert (forall i | 0 <= i < n :: EventBeganInOrder(es, i))
        <==> (forall i | 0 <= i < n - 1 :: EventBeganInOrder(es, i)) && EventBeganInOrder(es, n - 1);
    }
  }

  predicate StampedBy(r: Ride, now: Time) {
    r.createdAt <= now && (r.startedAt.Some? ==> r.startedAt.value <= now)
  }

  lemma {:induction false} StampsAreInThePast(es: seq<Event>, n: nat)
    requires n <= |es|
    ensures forall id | id in At(es, n).rides :: StampedBy(At(es, n).rides[id], At(es, n).now)
  {
    if n > 0 {
      StampsAreInThePast(es, n - 1);
      AtStep(es, n - 1);
    }
  }

  /** When no transaction waits between its beginning and its row lock, the timestamps are in order. */
  lemma PromptTransactionsKeepTimesInOrder(es: seq<Event>)
    requires forall i | 0 <= i < |es| && (es[i].Accept? || es[i].Complete?) :: es[i].began == At(es, i).now
    ensures TimesInOrder(At(es, |es|).rides)
  {
    forall i | 0 <= i < |es| ensures EventBeganInOrder(es, i) {
      StampsAreInThePast(es, i);
      if es[i].Accept? || es[i].Complete? {
        var s := At(es, i);
        assert es[i].id in s.rides ==> StampedBy(s.rides[es[i].id], s.now);
      }
    }
    TimesInOrderExactly(es, |es|);
  }
}
