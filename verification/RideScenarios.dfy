/** Concrete runs showing what the dispatch protocol does not promise. */
module RideScenarios {
  import opened Common
  import opened Fsm
  import opened Rides
  import Pricing
  import RideTheorems

  const QUOTE := Pricing.EstimateFare(0.0, 1.0)

  function Row(rider: UserId, driver: Option<UserId>, status: Status, startedAt: Option<Time>,
               endedAt: Option<Time>): Ride
  {
    Ride(rider, driver, status, QUOTE, 0, startedAt, endedAt)
  }

  lemma QuoteIsStorable()
    ensures Pricing.FitsNumeric(QUOTE) && Pricing.StoredNumeric(QUOTE) == QUOTE
  {
    Pricing.StoringAFareIsTheIdentity(0.0, 1.0);
    assert QUOTE == 3.5;
  }

  lemma Follow(es: seq<Event>, e: Event, s: State, s': State)
    requires After(EMPTY, es) == s && Step(s, e) == s'
    ensures After(EMPTY, es + [e]) == s'
  {
    assert (es + [e])[..|es|] == es;
  }

  /** A call finds its rider free, inserts ride id, and is about to match. */
  lemma RequestUpToMatch(es: seq<Event>, s: State, call: CallId, rider: UserId, id: RideId) returns (fs: seq<Event>)
    requires After(EMPTY, es) == s && s.now == 0
    requires call !in s.calls && id !in s.rides && !HasActive(s.rides, rider)
    ensures fs == es + [Check(call, rider, NoFault)] + [Insert(call, id, 0.0, 1.0, NoFault)]
    ensures After(EMPTY, fs) == State(s.rides[id := Row(rider, None, Requested, None, None)],
                                      s.calls[call := Pending(rider, id)], 0)
  {
    QuoteIsStorable();
    var s1 := s.(calls := s.calls[call := Checked(rider)]);
    Follow(es, Check(call, rider, NoFault), s, s1);
    fs := es + [Check(call, rider, NoFault)];
    var s2 := State(s.rides[id := Row(rider, None, Requested, None, None)], s.calls[call := Pending(rider, id)], 0);
    assert s1.calls[call := Pending(rider, id)] == s2.calls;
    Follow(fs, Insert(call, id, 0.0, 1.0, NoFault), s1, s2);
    fs := fs + [Insert(call, id, 0.0, 1.0, NoFault)];
  }

  /** The rider cancels between the insert and the match write: the cancelled ride becomes matched. */
  lemma CancelledRideIsMatched() returns (es: seq<Event>)
    ensures |es| == 4
    ensures 0 in At(es, 3).rides && At(es, 3).rides[0].status == Cancelled
    ensures 0 in At(es, 4).rides && At(es, 4).rides[0].status == Matched
  {
    var fs := RequestUpToMatch([], EMPTY, 0, 1, 0);
    var cancelled := State(map[0 := Row(1, None, Cancelled, None, None)], map[0 := Pending(1, 0)], 0);
    Follow(fs, Cancel(0, 1, NoFault), After(EMPTY, fs), cancelled);
    fs := fs + [Cancel(0, 1, NoFault)];
    Follow(fs, WriteMatch(0, 9, NoFault), cancelled,
           State(map[0 := Row(1, Some(9), Matched, None, None)], map[0 := Finished], 0));
    es := fs + [WriteMatch(0, 9, NoFault)];
    assert es[..3] == fs && es[..4] == es;
  }

  /** Two overlapping requests of rider 1 both pass the check. */
  lemma OverlappingRequestsGiveTwoRides() returns (es: seq<Event>)
    ensures !RideTheorems.AtMostOneCurrent(After(EMPTY, es).rides, 1)
    ensures forall i | 0 <= i < |es| :: es[i].Check? || es[i].Insert?
  {
    QuoteIsStorable();
    var row := Row(1, None, Requested, None, None);
    var s1 := State(map[], map[0 := Checked(1)], 0);
    var s2 := State(map[], map[0 := Checked(1), 1 := Checked(1)], 0);
    var s3 := State(map[0 := row], map[0 := Pending(1, 0), 1 := Checked(1)], 0);
    var s4 := State(map[0 := row, 1 := row], map[0 := Pending(1, 0), 1 := Pending(1, 1)], 0);
    es := [];
    Follow(es, Check(0, 1, NoFault), EMPTY, s1);
    es := es + [Check(0, 1, NoFault)];
    Follow(es, Check(1, 1, NoFault), s1, s2);
    es := es + [Check(1, 1, NoFault)];
    Follow(es, Insert(0, 0, 0.0, 1.0, NoFault), s2, s3);
    es := es + [Insert(0, 0, 0.0, 1.0, NoFault)];
    Follow(es, Insert(1, 1, 0.0, 1.0, NoFault), s3, s4);
    es := es + [Insert(1, 1, 0.0, 1.0, NoFault)];
    assert IsCurrent(s4.rides[0], 1) && IsCurrent(s4.rides[1], 1);
  }

  /** Two riders, one after the other, are both given driver 9. */
  lemma DriverIsMatchedTwice() returns (es: seq<Event>)
    ensures !RideTheorems.AtMostOneDriven(After(EMPTY, es).rides, 9)
    ensures forall rider :: RideTheorems.SingleFile(es, rider)
  {
    var got1, got2 := Row(1, Some(9), Matched, None, None), Row(2, Some(9), Matched, None, None);
    var s1 := State(map[0 := got1], map[0 := Finished], 0);
    var s2 := State(map[0 := got1, 1 := got2], map[0 := Finished, 1 := Finished], 0);
    var first := RequestUpToMatch([], EMPTY, 0, 1, 0);
    Follow(first, WriteMatch(0, 9, NoFault), After(EMPTY, first), s1);
    first := first + [WriteMatch(0, 9, NoFault)];
    es := RequestUpToMatch(first, s1, 1, 2, 1);
    Follow(es, WriteMatch(1, 9, NoFault), After(EMPTY, es), s2);
    es := es + [WriteMatch(1, 9, NoFault)];
    assert RideTheorems.IsDriving(s2.rides[0], 9) && RideTheorems.IsDriving(s2.rides[1], 9);
    forall rider, i | 0 <= i < |es| && es[i].Check?
      ensures !RideTheorems.HasUnfinished(At(es, i), rider)
    {
      assert i == 0 || i == 3;
      assert es[..3] == first;
    }
  }

  /** A completion that began before the acceptance it waited for stamps an earlier time. */
  lemma EndedBeforeStarted() returns (es: seq<Event>)
    ensures !RideTheorems.TimesInOrder(After(EMPTY, es).rides)
  {
    var s1 := State(map[0 := Row(1, Some(9), Matched, None, None)], map[0 := Finished], 0);
    var s2 := State(map[0 := Row(1, Some(9), Enroute, Some(5), None)], map[0 := Finished], 5);
    var s3 := State(map[0 := Row(1, Some(9), Completed, Some(5), Some(4))], map[0 := Finished], 5);
    QuoteIsStorable();
    es := RequestUpToMatch([], EMPTY, 0, 1, 0);
    Follow(es, WriteMatch(0, 9, NoFault), After(EMPTY, es), s1);
    es := es + [WriteMatch(0, 9, NoFault)];
    Follow(es, Tick(5), s1, s1.(now := 5));
    es := es + [Tick(5)];
    Follow(es, Accept(0, 9, 5, NoFault), s1.(now := 5), s2);
    es := es + [Accept(0, 9, 5, NoFault)];
    Follow(es, Complete(0, 9, 4, NoFault), s2, s3);
    es := es + [Complete(0, 9, 4, NoFault)];
    assert !RideTheorems.RowInOrder(s3.rides[0]);
  }
}
