/**
 Charging rides: a read, a payment intent, a capture and an insert, each of which may fail,
 with any number of calls interleaved.
 */
module Payment {
  import opened Common
  import Runs
  import Pricing

  type RideId = nat
  type TxnId = nat

  datatype Charge = Charge(ride: RideId, amount: real, txn: TxnId)

  datatype Status = Pending | Completed | Refunded

  datatype Payment = Payment(charge: Charge, status: Status)

  datatype Call =
    | Checked(ride: RideId, amount: real)   // found no completed payment, or failed to read
    | Intended(charge: Charge)
    | Captured(charge: Charge)              // the money is taken and nothing is recorded yet
    | Recorded(charge: Charge)
    | Lost(charge: Charge)                  // the money is taken and the insert failed
    | Ended

  /** Calls are numbered in the order in which they read. */
  datatype State = State(rows: seq<Payment>, captured: seq<Charge>, calls: seq<Call>)

  datatype Event =
    | Read(ride: RideId, amount: real, fails: bool)
    | Intend(call: nat, txn: TxnId, fails: bool)
    | Capture(call: nat, fails: bool)
    | Insert(call: nat, fails: bool)

  const EMPTY := State([], [], [])

  /** What the NUMERIC(10,2) column keeps of a charge. */
  function Stored(c: Charge): Charge {
    c.(amount := Pricing.StoredNumeric(c.amount))
  }

  function GetByRideID(rows: seq<Payment>, ride: RideId): (p: Option<Payment>)
    ensures p.Some? ==> p.value in rows && p.value.charge.ride == ride
    ensures p.None? ==> forall i | 0 <= i < |rows| :: rows[i].charge.ride != ride
  {
    if rows == [] then None
    else if rows[0].charge.ride == ride then Some(rows[0])
    else GetByRideID(rows[1..], ride)
  }

  predicate IsPaid(rows: seq<Payment>, ride: RideId) {
    GetByRideID(rows, ride).Some? && GetByRideID(rows, ride).value.status == Completed
  }

  predicate InsertSucceeds(c: Charge, fails: bool) {
    !fails && Pricing.FitsNumeric(c.amount)
  }

  function Step(s: State, e: Event): State {
    match e
    case Read(ride, amount, fails) =>
      s.(calls := s.calls + [if !fails && IsPaid(s.rows, ride) then Ended else Checked(ride, amount)])
    case Intend(i, txn, fails) =>
      if !(i < |s.calls| && s.calls[i].Checked?) then s
      else s.(calls := s.calls[i := if fails then Ended else Intended(Charge(s.calls[i].ride, s.calls[i].amount, txn))])
    case Capture(i, fails) =>
      if !(i < |s.calls| && s.calls[i].Intended?) then s
      else if fails then s.(calls := s.calls[i := Ended])
      else s.(calls := s.calls[i := Captured(s.calls[i].charge)], captured := s.captured + [s.calls[i].charge])
    case Insert(i, fails) =>
      if !(i < |s.calls| && s.calls[i].Captured?) then s
      else if InsertSucceeds(s.calls[i].charge, fails) then
        s.(calls := s.calls[i := Recorded(s.calls[i].charge)],
           rows := s.rows + [Payment(Stored(s.calls[i].charge), Completed)])
      else s.(calls := s.calls[i := Lost(s.calls[i].charge)])
  }

  function After(s: State, es: seq<Event>): State {
    Runs.After(Step, s, es)
  }

  // ---- conservation of money ----

  function Total(w: Charge -> real, cs: seq<Charge>): real {
    if cs == [] then 0.0 else Total(w, cs[..|cs| - 1]) + w(cs[|cs| - 1])
  }

  function Booked(rows: seq<Payment>): seq<Charge> {
    seq(|rows|, i requires 0 <= i < |rows| => rows[i].charge)
  }

  /** What a call holds that was captured and is not recorded. */
  function Unrecorded(w: Charge -> real, c: Call, lost: bool): real {
    match c
    case Captured(charge) => if lost then 0.0 else w(charge)
    case Lost(charge) => if lost then w(charge) else 0.0
    case _ => 0.0
  }

  function TotalUnrecorded(w: Charge -> real, calls: seq<Call>, lost: bool): real {
    if calls == [] then 0.0
    else TotalUnrecorded(w, calls[..|calls| - 1], lost) + Unrecorded(w, calls[|calls| - 1], lost)
  }

  lemma TotalSnoc(w: Charge -> real, cs: seq<Charge>, c: Charge)
    ensures Total(w, cs + [c]) == Total(w, cs) + w(c)
  {
    assert (cs + [c])[..|cs|] == cs;
  }

  lemma UnrecordedSnoc(w: Charge -> real, calls: seq<Call>, c: Call, lost: bool)
    ensures TotalUnrecorded(w, calls + [c], lost) == TotalUnrecorded(w, calls, lost) + Unrecorded(w, c, lost)
  {
    assert (calls + [c])[..|calls|] == calls;
  }

  lemma {:induction false} UnrecordedUpdate(w: Charge -> real, calls: seq<Call>, i: nat, c: Call, lost: bool)
    requires i < |calls|
    ensures TotalUnrecorded(w, calls[i := c], lost)
            == TotalUnrecorded(w, calls, lost) - Unrecorded(w, calls[i], lost) + Unrecorded(w, c, lost)
  {
    var n := |calls| - 1;
    if i == n {
      assert calls[i := c][..n] == calls[..n];
    } else {
      assert calls[i := c][..n] == calls[..n][i := c];
      UnrecordedUpdate(w, calls[..n], i, c, lost);
    }
  }

  /** Weighing a charge as the payments table will show it. */
  function AsStored(w: Charge -> real): Charge -> real {
    (c: Charge) => w(Stored(c))
  }

  predicate Conserved(w: Charge -> real, s: State) {
    Total(AsStored(w), s.captured)
    == Total(w, Booked(s.rows)) + TotalUnrecorded(AsStored(w), s.calls, true)
      + TotalUnrecorded(AsStored(w), s.calls, false)
  }

  /** A call moves from one phase to another. */
  lemma MoveCall(w: Charge -> real, calls: seq<Call>, i: nat, c: Call)
    requires i < |calls|
    ensures TotalUnrecorded(w, calls[i := c], true) + TotalUnrecorded(w, calls[i := c], false)
            == TotalUnrecorded(w, calls, true) + TotalUnrecorded(w, calls, false)
               - (if calls[i].Captured? || calls[i].Lost? then w(calls[i].charge) else 0.0)
               + (if c.Captured? || c.Lost? then w(c.charge) else 0.0)
  {
    UnrecordedUpdate(w, calls, i, c, true);
    UnrecordedUpdate(w, calls, i, c, false);
  }

  lemma InsertConserves(w: Charge -> real, s: State, i: nat, fails: bool)
    requires Conserved(w, s) && i < |s.calls| && s.calls[i].Captured?
    ensures Conserved(w, Step(s, Insert(i, fails)))
  {
    var charge := s.calls[i].charge;
    MoveCall(AsStored(w), s.calls, i, Step(s, Insert(i, fails)).calls[i]);
    TotalSnoc(w, Booked(s.rows), Stored(charge));
    assert Booked(s.rows + [Payment(Stored(charge), Completed)]) == Booked(s.rows) + [Stored(charge)];
  }

  lemma StepConserves(w: Charge -> real, s: State, e: Event)
    requires Conserved(w, s)
    ensures Conserved(w, Step(s, e))
  {
    var v, s' := AsStored(w), Step(s, e);
    if s' != s {
      match e {
        case Read(_, _, _) =>
          UnrecordedSnoc(v, s.calls, s'.calls[|s.calls|], true);
          UnrecordedSnoc(v, s.calls, s'.calls[|s.calls|], false);
        case Intend(i, _, _) =>
          MoveCall(v, s.calls, i, s'.calls[i]);
        case Capture(i, _) =>
          MoveCall(v, s.calls, i, s'.calls[i]);
          TotalSnoc(v, s.captured, s.calls[i].charge);
        case Insert(i, fails) =>
          InsertConserves(w, s, i, fails);
      }
    }
  }

  /**
   In every run, for every way w of weighing charges (counting them, adding up amounts, looking
   at one ride only): captured is recorded plus lost plus in flight.
   */
  lemma {:induction false} MoneyIsConserved(w: Charge -> real, es: seq<Event>)
    ensures Conserved(w, After(EMPTY, es))
  {
    if es != [] {
      MoneyIsConserved(w, es[..|es| - 1]);
      StepConserves(w, After(EMPTY, es[..|es| - 1]), es[|es| - 1]);
    }
  }

  predicate WholeCents(c: Charge) {
    Stored(c) == c
  }

  predicate HoldsWholeCents(c: Call) {
    c.Captured? || c.Lost? ==> WholeCents(c.charge)
  }

  lemma {:induction false} WholeCentsTotals(w: Charge -> real, cs: seq<Charge>)
    requires forall i | 0 <= i < |cs| :: WholeCents(cs[i])
    ensures Total(AsStored(w), cs) == Total(w, cs)
  {
    if cs != [] {
      WholeCentsTotals(w, cs[..|cs| - 1]);
    }
  }

  lemma {:induction false} WholeCentsUnrecorded(w: Charge -> real, calls: seq<Call>, lost: bool)
    requires forall i | 0 <= i < |calls| :: HoldsWholeCents(calls[i])
    ensures TotalUnrecorded(AsStored(w), calls, lost) == TotalUnrecorded(w, calls, lost)
  {
    if calls != [] {
      WholeCentsUnrecorded(w, calls[..|calls| - 1], lost);
      assert HoldsWholeCents(calls[|calls| - 1]);
    }
  }

  lemma {:induction false} HeldIsCaptured(es: seq<Event>, i: nat)
    requires i < |After(EMPTY, es).calls|
    ensures var c := After(EMPTY, es).calls[i];
            c.Captured? || c.Lost? || c.Recorded? ==> c.charge in After(EMPTY, es).captured
  {
    if es != [] && i < |After(EMPTY, es[..|es| - 1]).calls| {
      HeldIsCaptured(es[..|es| - 1], i);
    }
  }

  /** With amounts in whole cents, which every ride fare is, nothing is lost to rounding either. */
  lemma WholeCentsAreConserved(w: Charge -> real, es: seq<Event>)
    requires forall c | c in After(EMPTY, es).captured :: WholeCents(c)
    ensures var s := After(EMPTY, es);
            Total(w, s.captured) == Total(w, Booked(s.rows)) + TotalUnrecorded(w, s.calls, true)
              + TotalUnrecorded(w, s.calls, false)
  {
    var s := After(EMPTY, es);
    MoneyIsConserved(w, es);
    WholeCentsTotals(w, s.captured);
    forall i | 0 <= i < |s.calls| ensures HoldsWholeCents(s.calls[i]) {
      HeldIsCaptured(es, i);
    }
    WholeCentsUnrecorded(w, s.calls, true);
    WholeCentsUnrecorded(w, s.calls, false);
  }

  // ---- charging once ----

  function CountRows(rows: seq<Payment>, ride: RideId): nat {
    if rows == [] then 0
    else CountRows(rows[..|rows| - 1], ride) + if rows[|rows| - 1].charge.ride == ride then 1 else 0
  }

  lemma CountSnoc(rows: seq<Payment>, p: Payment, ride: RideId)
    ensures CountRows(rows + [p], ride) == CountRows(rows, ride) + if p.charge.ride == ride then 1 else 0
  {
    assert (rows + [p])[..|rows|] == rows;
  }

  function FailedReads(es: seq<Event>, ride: RideId): nat {
    if es == [] then 0
    else
      var last := es[|es| - 1];
      FailedReads(es[..|es| - 1], ride) + if last.Read? && last.ride == ride && last.fails then 1 else 0
  }

  predicate IsUnderWay(c: Call, ride: RideId) {
    match c
    case Checked(r, _) => r == ride
    case Intended(charge) => charge.ride == ride
    case Captured(charge) => charge.ride == ride
    case _ => false
  }

  predicate HasUnderWay(calls: seq<Call>, ride: RideId) {
    exists i :: 0 <= i < |calls| && IsUnderWay(calls[i], ride)
  }

  /** Calls for this ride do not overlap; calls for other rides are unconstrained. */
  predicate SingleFile(es: seq<Event>, ride: RideId) {
    es == []
    || (var before, last := es[..|es| - 1], es[|es| - 1];
        SingleFile(before, ride)
        && (last.Read? && last.ride == ride ==> !HasUnderWay(After(EMPTY, before).calls, ride)))
  }

  predicate AllCompleted(rows: seq<Payment>) {
    forall i | 0 <= i < |rows| :: rows[i].status == Completed
  }

  lemma {:induction false} PaidMeansCounted(rows: seq<Payment>, ride: RideId)
    requires AllCompleted(rows)
    ensures IsPaid(rows, ride) <==> CountRows(rows, ride) > 0
  {
    if rows != [] {
      var before, last := rows[..|rows| - 1], rows[|rows| - 1];
      PaidMeansCounted(before, ride);
      FirstOfSnoc(before, last, ride);
      assert before + [last] == rows;
    }
  }

  lemma {:induction false} FirstOfSnoc(rows: seq<Payment>, p: Payment, ride: RideId)
    ensures GetByRideID(rows + [p], ride) ==
              if GetByRideID(rows, ride).Some? then GetByRideID(rows, ride)
              else if p.charge.ride == ride then Some(p) else None
  {
    if rows != [] {
      assert (rows + [p])[1..] == rows[1..] + [p];
      FirstOfSnoc(rows[1..], p, ride);
    }
  }

  predicate OneUnderWay(calls: seq<Call>, ride: RideId) {
    forall i, j | 0 <= i < |calls| && 0 <= j < |calls| && IsUnderWay(calls[i], ride) && IsUnderWay(calls[j], ride) ::
      i == j
  }

  lemma StepUnderWay(s: State, e: Event, ride: RideId, i: nat)
    requires i < |Step(s, e).calls| && IsUnderWay(Step(s, e).calls[i], ride)
    ensures (i < |s.calls| && IsUnderWay(s.calls[i], ride))
            || (i == |s.calls| && e.Read? && e.ride == ride && (e.fails || !IsPaid(s.rows, ride)))
  {
  }

  lemma StepRows(s: State, e: Event, ride: RideId)
    requires AllCompleted(s.rows)
    ensures AllCompleted(Step(s, e).rows)
    ensures CountRows(Step(s, e).rows, ride) == CountRows(s.rows, ride)
            || (CountRows(Step(s, e).rows, ride) == CountRows(s.rows, ride) + 1
                && e.Insert? && e.call < |s.calls| && IsUnderWay(s.calls[e.call], ride)
                && Step(s, e).calls == s.calls[e.call := Recorded(s.calls[e.call].charge)])
  {
    if Step(s, e).rows != s.rows {
      assert Step(s, e).rows[..|s.rows|] == s.rows;
    }
  }

  lemma {:induction false} RowsAndCalls(es: seq<Event>, ride: RideId)
    requires SingleFile(es, ride)
    ensures var s := After(EMPTY, es);
            && AllCompleted(s.rows) && OneUnderWay(s.calls, ride)
            && CountRows(s.rows, ride) + (if HasUnderWay(s.calls, ride) then 1 else 0) <= 1 + FailedReads(es, ride)
  {
    if es != [] {
      var before, e := es[..|es| - 1], es[|es| - 1];
      RowsAndCalls(before, ride);
      var s := After(EMPTY, before);
      var s' := Step(s, e);
      StepRows(s, e, ride);
      PaidMeansCounted(s.rows, ride);
      forall i, j | 0 <= i < |s'.calls| && 0 <= j < |s'.calls| && IsUnderWay(s'.calls[i], ride)
        && IsUnderWay(s'.calls[j], ride)
        ensures i == j
      {
        StepUnderWay(s, e, ride, i);
        StepUnderWay(s, e, ride, j);
      }
      if HasUnderWay(s'.calls, ride) {
        var i :| 0 <= i < |s'.calls| && IsUnderWay(s'.calls[i], ride);
        StepUnderWay(s, e, ride, i);
      }
    }
  }

  /** Without overlap, a ride is recorded at most once more than its reads failed. */
  lemma RecordedAtMostOncePerFailedRead(es: seq<Event>, ride: RideId)
    requires SingleFile(es, ride)
    ensures CountRows(After(EMPTY, es).rows, ride) <= 1 + FailedReads(es, ride)
  {
    RowsAndCalls(es, ride);
  }

  /** Weighs the charges of one ride 1 and all others 0. */
  function OfRide(ride: RideId): Charge -> real {
    (c: Charge) => if c.ride == ride then 1.0 else 0.0
  }

  lemma {:induction false} RowsWeighed(rows: seq<Payment>, ride: RideId)
    ensures Total(OfRide(ride), Booked(rows)) == CountRows(rows, ride) as real
  {
    if rows != [] {
      var n := |rows| - 1;
      RowsWeighed(rows[..n], ride);
      assert Booked(rows)[..n] == Booked(rows[..n]);
    }
  }

  lemma {:induction false} InFlightWeighed(calls: seq<Call>, ride: RideId)
    requires OneUnderWay(calls, ride)
    ensures TotalUnrecorded(AsStored(OfRide(ride)), calls, false) <= if HasUnderWay(calls, ride) then 1.0 else 0.0
  {
    if calls != [] {
      var n := |calls| - 1;
      InFlightWeighed(calls[..n], ride);
      if calls[n].Captured? {
        var c := calls[n].charge;
        assert AsStored(OfRide(ride))(c) == OfRide(ride)(Stored(c)) == if c.ride == ride then 1.0 else 0.0;
      }
      if HasUnderWay(calls[..n], ride) {
        var i :| 0 <= i < n && IsUnderWay(calls[..n][i], ride);
        assert IsUnderWay(calls[i], ride);
      }
      if IsUnderWay(calls[n], ride) {
        forall i | 0 <= i < n ensures !IsUnderWay(calls[..n][i], ride) {
          assert calls[..n][i] == calls[i];
        }
        assert HasUnderWay(calls, ride) && !HasUnderWay(calls[..n], ride);
      }
    }
  }

  /**
   Without overlap, the money for a ride is taken at most once more than its reads failed and
   its inserts failed after a capture: exactly once or never when nothing fails.
   */
  lemma CapturedAtMostOncePerFailure(es: seq<Event>, ride: RideId)
    requires SingleFile(es, ride)
    ensures var s := After(EMPTY, es);
            Total(AsStored(OfRide(ride)), s.captured)
            <= 1.0 + FailedReads(es, ride) as real + TotalUnrecorded(AsStored(OfRide(ride)), s.calls, true)
  {
    var s := After(EMPTY, es);
    RowsAndCalls(es, ride);
    MoneyIsConserved(OfRide(ride), es);
    RowsWeighed(s.rows, ride);
    InFlightWeighed(s.calls, ride);
  }

  // ---- exactly which calls take money ----

  /** The call found no completed payment of its ride, or could not read. */
  predicate PassesTheCheck(es: seq<Event>, c: nat, ride: RideId) {
    es != []
    && var before, last := es[..|es| - 1], es[|es| - 1];
       if c < |After(EMPTY, before).calls| then PassesTheCheck(before, c, ride)
       else c == |After(EMPTY, before).calls| && last.Read? && last.ride == ride
            && (last.fails || !IsPaid(After(EMPTY, before).rows, ride))
  }

  /** What the gateway answered to the call's payment intent. */
  function IntentAnswer(es: seq<Event>, c: nat): Option<bool> {
    if es == [] then None
    else
      var before, last := es[..|es| - 1], es[|es| - 1];
      if IntentAnswer(before, c).None? && c < |After(EMPTY, before).calls| && last.Intend? && last.call == c
      then Some(!last.fails) else IntentAnswer(before, c)
  }

  /** What it answered to the capture that follows. */
  function CaptureAnswer(es: seq<Event>, c: nat): Option<bool> {
    if es == [] then None
    else
      var before, last := es[..|es| - 1], es[|es| - 1];
      if CaptureAnswer(before, c).None? && IntentAnswer(before, c).Some? && last.Capture? && last.call == c
      then Some(!last.fails) else CaptureAnswer(before, c)
  }

  function AmountOf(es: seq<Event>, c: nat): real {
    if es == [] then 0.0
    else
      var before, last := es[..|es| - 1], es[|es| - 1];
      if c < |After(EMPTY, before).calls| then AmountOf(before, c) else if last.Read? then last.amount else 0.0
  }

  /** Whether the database took the row that follows. */
  function InsertAnswer(es: seq<Event>, c: nat): Option<bool> {
    if es == [] then None
    else
      var before, last := es[..|es| - 1], es[|es| - 1];
      if InsertAnswer(before, c).None? && CaptureAnswer(before, c).Some? && last.Insert? && last.call == c
      then Some(!last.fails && Pricing.FitsNumeric(AmountOf(before, c))) else InsertAnswer(before, c)
  }

  /** A call for the ride that passes its check and whose intent and capture succeed. */
  predicate GoesThrough(es: seq<Event>, c: nat, ride: RideId) {
    PassesTheCheck(es, c, ride) && IntentAnswer(es, c) == Some(true) && CaptureAnswer(es, c) == Some(true)
  }

  predicate HoldsMoney(c: Call, ride: RideId) {
    (c.Captured? || c.Recorded? || c.Lost?) && c.charge.ride == ride
  }

  lemma {:induction false} UnreadCallsHaveNoAnswers(es: seq<Event>, c: nat, ride: RideId)
    requires c >= |After(EMPTY, es).calls|
    ensures !PassesTheCheck(es, c, ride)
    ensures IntentAnswer(es, c).None? && CaptureAnswer(es, c).None? && InsertAnswer(es, c).None?
  {
    if es != [] {
      UnreadCallsHaveNoAnswers(es[..|es| - 1], c, ride);
    }
  }

  lemma {:induction false} CallKeepsItsAmount(es: seq<Event>, c: nat)
    requires c < |After(EMPTY, es).calls|
    ensures var call := After(EMPTY, es).calls[c];
            && (call.Checked? ==> call.amount == AmountOf(es, c))
            && (call.Intended? || call.Captured? ==> call.charge.amount == AmountOf(es, c))
  {
    if c < |After(EMPTY, es[..|es| - 1]).calls| {
      CallKeepsItsAmount(es[..|es| - 1], c);
    }
  }

  /** How far a call has got is decided by its check and the answers it was given. */
  lemma {:induction false} CallFollowsAnswers(es: seq<Event>, c: nat, ride: RideId)
    requires c < |After(EMPTY, es).calls|
    ensures var call := After(EMPTY, es).calls[c];
            && (call.Checked? && call.ride == ride <==> PassesTheCheck(es, c, ride) && IntentAnswer(es, c).None?)
            && (call.Intended? && call.charge.ride == ride <==>
                  PassesTheCheck(es, c, ride) && IntentAnswer(es, c) == Some(true) && CaptureAnswer(es, c).None?)
            && (call.Captured? && call.charge.ride == ride <==> GoesThrough(es, c, ride) && InsertAnswer(es, c).None?)
            && (call.Recorded? && call.charge.ride == ride
                <==> GoesThrough(es, c, ride) && InsertAnswer(es, c) == Some(true))
            && (call.Lost? && call.charge.ride == ride
                <==> GoesThrough(es, c, ride) && InsertAnswer(es, c) == Some(false))
            && (HoldsMoney(call, ride) <==> GoesThrough(es, c, ride))
    ensures IntentAnswer(es, c).None? ==> CaptureAnswer(es, c).None?
    ensures CaptureAnswer(es, c).None? ==> InsertAnswer(es, c).None?
  {
    var before := es[..|es| - 1];
    if c < |After(EMPTY, before).calls| {
      CallFollowsAnswers(before, c, ride);
      CallKeepsItsAmount(before, c);
    } else {
      UnreadCallsHaveNoAnswers(before, c, ride);
    }
  }

  function CountCharges(cs: seq<Charge>, ride: RideId): nat {
    if cs == [] then 0
    else CountCharges(cs[..|cs| - 1], ride) + if cs[|cs| - 1].ride == ride then 1 else 0
  }

  function Holders(calls: seq<Call>, ride: RideId): set<nat> {
    set c: nat | c < |calls| && HoldsMoney(calls[c], ride)
  }

  lemma {:induction false} CapturesAreHeld(es: seq<Event>, ride: RideId)
    ensures CountCharges(After(EMPTY, es).captured, ride) == |Holders(After(EMPTY, es).calls, ride)|
  {
    if es != [] {
      var e, s := es[|es| - 1], After(EMPTY, es[..|es| - 1]);
      CapturesAreHeld(es[..|es| - 1], ride);
      StepHolders(s, e, ride);
      if Step(s, e).captured != s.captured {
        assert Step(s, e).captured[..|s.captured|] == s.captured;
      }
    }
  }

  lemma StepHolders(s: State, e: Event, ride: RideId)
    ensures Holders(Step(s, e).calls, ride)
            == Holders(s.calls, ride)
               + if Step(s, e).captured != s.captured && s.calls[e.call].charge.ride == ride then {e.call} else {}
    ensures Step(s, e).captured != s.captured ==> e.Capture? && e.call < |s.calls| && e.call !in Holders(s.calls, ride)
  {
  }

  /** The calls that go through for the ride. */
  function Charged(es: seq<Event>, ride: RideId): set<nat> {
    set c: nat | c < |After(EMPTY, es).calls| && GoesThrough(es, c, ride)
  }

  /**
   In every run the money for a ride is taken once for each call that passed its check, by
   failing to read or by finding nothing, and whose intent and capture succeeded; so at most once
   exactly when there is at most one such call.
   */
  lemma ChargedExactly(es: seq<Event>, ride: RideId)
    ensures CountCharges(After(EMPTY, es).captured, ride) == |Charged(es, ride)|
    ensures CountCharges(After(EMPTY, es).captured, ride) <= 1
            <==> forall c, d | c in Charged(es, ride) && d in Charged(es, ride) :: c == d
  {
    CapturesAreHeld(es, ride);
    forall c: nat | c < |After(EMPTY, es).calls|
      ensures c in Charged(es, ride) <==> c in Holders(After(EMPTY, es).calls, ride)
    {
      CallFollowsAnswers(es, c, ride);
    }
    assert Charged(es, ride) == Holders(After(EMPTY, es).calls, ride);
    AtMostOneElement(Charged(es, ride));
  }

  function RecordedCalls(calls: seq<Call>, ride: RideId): set<nat> {
    set c: nat | c < |calls| && calls[c].Recorded? && calls[c].charge.ride == ride
  }

  lemma {:induction false} RowsAreRecordedCalls(es: seq<Event>, ride: RideId)
    ensures CountRows(After(EMPTY, es).rows, ride) == |RecordedCalls(After(EMPTY, es).calls, ride)|
    ensures AllCompleted(After(EMPTY, es).rows)
  {
    if es != [] {
      var e, s := es[|es| - 1], After(EMPTY, es[..|es| - 1]);
      RowsAreRecordedCalls(es[..|es| - 1], ride);
      StepRecordedCalls(s, e, ride);
      if Step(s, e).rows != s.rows {
        assert Step(s, e).rows[..|s.rows|] == s.rows;
      }
    }
  }

  lemma StepRecordedCalls(s: State, e: Event, ride: RideId)
    ensures RecordedCalls(Step(s, e).calls, ride)
            == RecordedCalls(s.calls, ride)
               + if Step(s, e).rows != s.rows && s.calls[e.call].charge.ride == ride then {e.call} else {}
    ensures Step(s, e).rows != s.rows ==> e.Insert? && e.call < |s.calls| && e.call !in RecordedCalls(s.calls, ride)
  {
  }

  function Paying(es: seq<Event>, ride: RideId): set<nat> {
    set c: nat | c < |After(EMPTY, es).calls| && GoesThrough(es, c, ride) && InsertAnswer(es, c) == Some(true)
  }

  /** And it is recorded once for each such call whose insert commits too. */
  lemma RecordedExactly(es: seq<Event>, ride: RideId)
    ensures CountRows(After(EMPTY, es).rows, ride) == |Paying(es, ride)|
    ensures CountRows(After(EMPTY, es).rows, ride) <= 1
            <==> forall c, d | c in Paying(es, ride) && d in Paying(es, ride) :: c == d
  {
    RowsAreRecordedCalls(es, ride);
    forall c: nat | c < |After(EMPTY, es).calls|
      ensures c in Paying(es, ride) <==> c in RecordedCalls(After(EMPTY, es).calls, ride)
    {
      CallFollowsAnswers(es, c, ride);
    }
    assert Paying(es, ride) == RecordedCalls(After(EMPTY, es).calls, ride);
    AtMostOneElement(Paying(es, ride));
  }

  /** A call that ends up with the ride's money was under way, or had it, ever since its read. */
  lemma {:induction false} HoldersWereUnderWay(es: seq<Event>, i: nat, c: nat, ride: RideId)
    requires i <= |es| && c < |After(EMPTY, es[..i]).calls| <= |After(EMPTY, es).calls|
    requires IsUnderWay(After(EMPTY, es).calls[c], ride) || HoldsMoney(After(EMPTY, es).calls[c], ride)
    ensures IsUnderWay(After(EMPTY, es[..i]).calls[c], ride) || HoldsMoney(After(EMPTY, es[..i]).calls[c], ride)
  {
    if i == |es| {
      assert es[..i] == es;
    } else {
      var before := es[..|es| - 1];
      assert before[..i] == es[..i];
      CallsGrow(before, i);
      HoldersWereUnderWay(before, i, c, ride);
    }
  }

  lemma {:induction false} CallsGrow(es: seq<Event>, i: nat)
    requires i <= |es|
    ensures |After(EMPTY, es[..i]).calls| <= |After(EMPTY, es).calls|
  {
    if i == |es| {
      assert es[..i] == es;
    } else {
      assert es[..|es| - 1][..i] == es[..i];
      CallsGrow(es[..|es| - 1], i);
    }
  }

  /** The event with which a call that passed its check read. */
  lemma {:induction false} ReadOf(es: seq<Event>, c: nat, ride: RideId) returns (i: nat)
    requires PassesTheCheck(es, c, ride)
    ensures i < |es| && es[i].Read? && es[i].ride == ride && |After(EMPTY, es[..i]).calls| == c
    ensures es[i].fails || !IsPaid(After(EMPTY, es[..i]).rows, ride)
  {
    var before := es[..|es| - 1];
    if c < |After(EMPTY, before).calls| {
      i := ReadOf(before, c, ride);
      assert before[..i] == es[..i];
    } else {
      i := |es| - 1;
    }
  }

  /**
   Why money is taken again: when the later of two charging calls read, its read failed, or the
   earlier one was still under way, or had lost its row.
   */
  lemma SecondChargeHasACause(es: seq<Event>, c: nat, d: nat, ride: RideId) returns (i: nat)
    requires c in Charged(es, ride) && d in Charged(es, ride) && c < d
    ensures i < |es| && es[i].Read? && es[i].ride == ride && |After(EMPTY, es[..i]).calls| == d
    ensures var first := After(EMPTY, es[..i]).calls[c];
            es[i].fails || IsUnderWay(first, ride) || (first.Lost? && first.charge.ride == ride)
  {
    i := ReadOf(es, d, ride);
    CallFollowsAnswers(es, c, ride);
    CallsGrow(es, i);
    HoldersWereUnderWay(es, i, c, ride);
    var s := After(EMPTY, es[..i]);
    if s.calls[c].Recorded? {
      RowsAreRecordedCalls(es[..i], ride);
      assert c in RecordedCalls(s.calls, ride);
      PaidMeansCounted(s.rows, ride);
    }
  }

  lemma AtMostOneElement(cs: set<nat>)
    ensures |cs| <= 1 <==> forall c, d | c in cs && d in cs :: c == d
  {
    if c :| c in cs {
      assert cs == {c} + (cs - {c});
      if d :| d in cs - {c} {
        assert c in cs && d in cs;
        assert |cs - {c}| > 0;
      }
    }
  }

  lemma Reach(es: seq<Event>, e: Event, s: State, s': State)
    requires After(EMPTY, es) == s && Step(s, e) == s'
    ensures After(EMPTY, es + [e]) == s'
    ensures FailedReads(es + [e], 7) == FailedReads(es, 7) + if e.Read? && e.ride == 7 && e.fails then 1 else 0
    ensures SingleFile(es, 7) && (e.Read? && e.ride == 7 ==> !HasUnderWay(s.calls, 7)) ==> SingleFile(es + [e], 7)
  {
    assert (es + [e])[..|es|] == es;
  }

  const CHARGE_A := Charge(7, 3.5, 1)
  const CHARGE_B := Charge(7, 3.5, 2)

  lemma ChargesAreStorable()
    ensures Stored(CHARGE_A) == CHARGE_A && Stored(CHARGE_B) == CHARGE_B && Pricing.FitsNumeric(3.5)
  {
  }

  /** The first call's steps after its read, beside whatever other calls there are. */
  lemma FinishFirst(es: seq<Event>, others: seq<Call>) returns (fs: seq<Event>)
    requires After(EMPTY, es) == State([], [], [Checked(7, 3.5)] + others)
    ensures After(EMPTY, fs) == State([Payment(CHARGE_A, Completed)], [CHARGE_A], [Recorded(CHARGE_A)] + others)
    ensures FailedReads(fs, 7) == FailedReads(es, 7) && (SingleFile(es, 7) ==> SingleFile(fs, 7))
  {
    ChargesAreStorable();
    fs := es;
    var s1 := State([], [], [Intended(CHARGE_A)] + others);
    Reach(fs, Intend(0, 1, false), After(EMPTY, fs), s1);
    fs := fs + [Intend(0, 1, false)];
    var s2 := State([], [CHARGE_A], [Captured(CHARGE_A)] + others);
    Reach(fs, Capture(0, false), s1, s2);
    fs := fs + [Capture(0, false)];
    Reach(fs, Insert(0, false), s2, State([Payment(CHARGE_A, Completed)], [CHARGE_A], [Recorded(CHARGE_A)] + others));
    fs := fs + [Insert(0, false)];
  }

  lemma FinishSecond(es: seq<Event>) returns (fs: seq<Event>)
    requires After(EMPTY, es) == State([Payment(CHARGE_A, Completed)], [CHARGE_A],
                                       [Recorded(CHARGE_A), Checked(7, 3.5)])
    ensures CountRows(After(EMPTY, fs).rows, 7) == 2 && |After(EMPTY, fs).captured| == 2
    ensures FailedReads(fs, 7) == FailedReads(es, 7) && (SingleFile(es, 7) ==> SingleFile(fs, 7))
  {
    ChargesAreStorable();
    var rowA, rowB := Payment(CHARGE_A, Completed), Payment(CHARGE_B, Completed);
    fs := es;
    var s1 := State([rowA], [CHARGE_A], [Recorded(CHARGE_A), Intended(CHARGE_B)]);
    Reach(fs, Intend(1, 2, false), After(EMPTY, fs), s1);
    fs := fs + [Intend(1, 2, false)];
    var s2 := State([rowA], [CHARGE_A, CHARGE_B], [Recorded(CHARGE_A), Captured(CHARGE_B)]);
    Reach(fs, Capture(1, false), s1, s2);
    fs := fs + [Capture(1, false)];
    Reach(fs, Insert(1, false), s2,
          State([rowA, rowB], [CHARGE_A, CHARGE_B], [Recorded(CHARGE_A), Recorded(CHARGE_B)]));
    fs := fs + [Insert(1, false)];
    CountSnoc([], rowA, 7);
    CountSnoc([rowA], rowB, 7);
    assert [] + [rowA] == [rowA] && [rowA] + [rowB] == [rowA, rowB];
  }

  /** Two calls, one after the other, charge and record twice when the second cannot read. */
  lemma FailedReadChargesTwice() returns (es: seq<Event>)
    ensures SingleFile(es, 7) && FailedReads(es, 7) == 1
    ensures CountRows(After(EMPTY, es).rows, 7) == 2 && |After(EMPTY, es).captured| == 2
  {
    Reach([], Read(7, 3.5, false), EMPTY, State([], [], [Checked(7, 3.5)] + []));
    es := FinishFirst([] + [Read(7, 3.5, false)], []);
    var s := State([Payment(CHARGE_A, Completed)], [CHARGE_A], [Recorded(CHARGE_A)] + []);
    Reach(es, Read(7, 3.5, true), s, s.(calls := [Recorded(CHARGE_A), Checked(7, 3.5)]));
    es := FinishSecond(es + [Read(7, 3.5, true)]);
  }

  lemma LoseFirst() returns (es: seq<Event>)
    ensures After(EMPTY, es) == State([], [CHARGE_A], [Lost(CHARGE_A)])
    ensures SingleFile(es, 7) && FailedReads(es, 7) == 0
  {
    var s1, s2 := State([], [], [Checked(7, 3.5)]), State([], [], [Intended(CHARGE_A)]);
    var s3 := State([], [CHARGE_A], [Captured(CHARGE_A)]);
    Reach([], Read(7, 3.5, false), EMPTY, s1);
    es := [] + [Read(7, 3.5, false)];
    Reach(es, Intend(0, 1, false), s1, s2);
    es := es + [Intend(0, 1, false)];
    Reach(es, Capture(0, false), s2, s3);
    es := es + [Capture(0, false)];
    Reach(es, Insert(0, true), s3, State([], [CHARGE_A], [Lost(CHARGE_A)]));
    es := es + [Insert(0, true)];
  }

  /** Two calls, one after the other, both charge when the first one's row is lost. */
  lemma LostInsertChargesTwice() returns (es: seq<Event>)
    ensures SingleFile(es, 7) && FailedReads(es, 7) == 0
    ensures CountRows(After(EMPTY, es).rows, 7) == 1 && CountCharges(After(EMPTY, es).captured, 7) == 2
  {
    ChargesAreStorable();
    es := LoseFirst();
    var row, lost := Payment(CHARGE_B, Completed), Lost(CHARGE_A);
    var s4, s5 := After(EMPTY, es), State([], [CHARGE_A], [lost, Checked(7, 3.5)]);
    Reach(es, Read(7, 3.5, false), s4, s5);
    es := es + [Read(7, 3.5, false)];
    var s6 := State([], [CHARGE_A], [lost, Intended(CHARGE_B)]);
    Reach(es, Intend(1, 2, false), s5, s6);
    es := es + [Intend(1, 2, false)];
    var s7 := State([], [CHARGE_A, CHARGE_B], [lost, Captured(CHARGE_B)]);
    Reach(es, Capture(1, false), s6, s7);
    es := es + [Capture(1, false)];
    var s8 := State([row], [CHARGE_A, CHARGE_B], [lost, Recorded(CHARGE_B)]);
    Reach(es, Insert(1, false), s7, s8);
    es := es + [Insert(1, false)];
    CountsOfTwo(row);
  }

  lemma CountsOfTwo(row: Payment)
    requires row.charge == CHARGE_B
    ensures CountRows([row], 7) == 1 && CountCharges([CHARGE_A, CHARGE_B], 7) == 2
  {
    assert [row][..0] == [] && [CHARGE_A, CHARGE_B][..1] == [CHARGE_A] && [CHARGE_A][..0] == [];
    assert CountCharges([CHARGE_A], 7) == 1;
  }

  /** Two overlapping calls both find nothing, and both charge and record. */
  lemma OverlappingCallsChargeTwice() returns (es: seq<Event>)
    ensures FailedReads(es, 7) == 0
    ensures CountRows(After(EMPTY, es).rows, 7) == 2 && |After(EMPTY, es).captured| == 2
  {
    var x := Checked(7, 3.5);
    Reach([], Read(7, 3.5, false), EMPTY, State([], [], [x]));
    es := [] + [Read(7, 3.5, false)];
    Reach(es, Read(7, 3.5, false), State([], [], [x]), State([], [], [x] + [x]));
    es := FinishFirst(es + [Read(7, 3.5, false)], [x]);
    assert [Recorded(CHARGE_A)] + [x] == [Recorded(CHARGE_A), x];
    es := FinishSecond(es);
  }

  // ---- the service ----

  predicate Foreign(es: seq<Event>, call: nat) {
    forall i | 0 <= i < |es| :: es[i].Read? || es[i].call != call
  }

  lemma {:induction false} OthersLeaveTheCall(s: State, es: seq<Event>, call: nat)
    requires Foreign(es, call) && call < |s.calls|
    ensures call < |After(s, es).calls| && After(s, es).calls[call] == s.calls[call]
  {
    if es != [] {
      OthersLeaveTheCall(s, es[..|es| - 1], call);
      assert es[|es| - 1].Read? || es[|es| - 1].call != call;
    }
  }

  /** The gateway's ledger only grows: nothing refunds. */
  lemma {:induction false} CapturesAreFinal(s: State, es: seq<Event>)
    ensures s.captured <= After(s, es).captured
  {
    if es != [] {
      CapturesAreFinal(s, es[..|es| - 1]);
    }
  }

  datatype ChargeError = IntentFailed | CaptureFailed | InsertFailed

  /** What the database and the gateway answer to one call. */
  datatype Replies = Replies(readFails: bool, txn: TxnId, intentFails: bool, captureFails: bool, insertFails: bool)

  class Service {
    var rows: seq<Payment>
    var captured: seq<Charge>
    var calls: seq<Call>   // how far each call has got

    constructor ()
      ensures Abs() == EMPTY
    {
      rows, captured, calls := [], [], [];
    }

    function Abs(): State
      reads this
    {
      State(rows, captured, calls)
    }

    /** Other calls run between two steps of this one. */
    method Interfere(es: seq<Event>)
      modifies this
      ensures Abs() == After(old(Abs()), es)
    {
      var s := After(Abs(), es);
      rows, captured, calls := s.rows, s.captured, s.calls;
    }

    /** The read before charging; a failed read counts as finding nothing. */
    method FindPaid(ride: RideId, amount: real, fails: bool) returns (paid: Option<Payment>)
      modifies this
      ensures Abs() == Step(old(Abs()), Read(ride, amount, fails))
      ensures paid.Some? <==> !fails && IsPaid(old(rows), ride)
      ensures paid.Some? ==> paid.value in old(rows) && paid.value.charge.ride == ride && paid.value.status == Completed
    {
      paid := None;
      if !fails {
        var existing := GetByRideID(rows, ride);
        if existing.Some? && existing.value.status == Completed {
          paid := existing;
        }
      }
      calls := calls + [if paid.Some? then Ended else Checked(ride, amount)];
    }

    method CreatePaymentIntent(me: nat, txn: TxnId, fails: bool) returns (ok: bool)
      requires me < |calls| && calls[me].Checked?
      modifies this
      ensures ok == !fails && Abs() == Step(old(Abs()), Intend(me, txn, fails))
    {
      ok := !fails;
      calls := calls[me := if ok then Intended(Charge(calls[me].ride, calls[me].amount, txn)) else Ended];
    }

    method CapturePayment(me: nat, fails: bool) returns (ok: bool)
      requires me < |calls| && calls[me].Intended?
      modifies this
      ensures ok == !fails && Abs() == Step(old(Abs()), Capture(me, fails))
    {
      ok := !fails;
      if fails {
        calls := calls[me := Ended];
        return;
      }
      captured := captured + [calls[me].charge];
      calls := calls[me := Captured(calls[me].charge)];
    }

    method Create(me: nat, fails: bool) returns (ok: bool)
      requires me < |calls| && calls[me].Captured?
      modifies this
      ensures ok == InsertSucceeds(old(calls)[me].charge, fails)
      ensures Abs() == Step(old(Abs()), Insert(me, fails))
    {
      var charge := calls[me].charge;
      ok := !fails && Pricing.FitsNumeric(charge.amount);
      if ok {
        rows := rows + [Payment(charge.(amount := Pricing.StoredNumeric(charge.amount)), Completed)];
      }
      calls := calls[me := if ok then Recorded(charge) else Lost(charge)];
    }

    /** Other calls run while this one waits for an answer. */
    method Wait(me: nat, gap: seq<Event>)
      requires me < |calls| && Foreign(gap, me)
      modifies this
      ensures Abs() == After(old(Abs()), gap)
      ensures me < |calls| && calls[me] == old(calls)[me]
    {
      OthersLeaveTheCall(Abs(), gap, me);
      Interfere(gap);
    }

    /** Takes the money and then records it. */
    method Collect(me: nat, replies: Replies, gap: seq<Event>) returns (r: Result<Payment, ChargeError>)
      requires me < |calls| && calls[me].Intended? && Foreign(gap, me)
      modifies this
      ensures Abs() == After(old(Abs()), CollectTrace(me, replies, gap)) && me < |calls|
      ensures r == CollectResult(old(calls)[me].charge, replies) && EndsAs(calls[me], old(calls)[me].charge, r)
    {
      ghost var s0 := Abs();
      var charge := calls[me].charge;
      var ok := CapturePayment(me, replies.captureFails);
      Runs.One(Step, s0, Capture(me, replies.captureFails));
      if !ok {
        return Err(CaptureFailed);
      }
      Wait(me, gap);
      Runs.One(Step, Abs(), Insert(me, replies.insertFails));
      ok := Create(me, replies.insertFails);
      Runs.Parts(Step, s0, Capture(me, false), gap, [Insert(me, replies.insertFails)]);
      r := if ok then Ok(Payment(charge, Completed)) else Err(InsertFailed);
    }

    /** The intent, and then the money. */
    method Pay(me: nat, replies: Replies, gap2: seq<Event>, gap3: seq<Event>) returns (r: Result<Payment, ChargeError>)
      requires me < |calls| && calls[me].Checked? && Foreign(gap2, me) && Foreign(gap3, me)
      modifies this
      ensures Abs() == After(old(Abs()), PayTrace(me, replies, gap2, gap3)) && me < |calls|
      ensures var charge := Charge(old(calls)[me].ride, old(calls)[me].amount, replies.txn);
              r == PayResult(charge, replies) && EndsAs(calls[me], charge, r)
    {
      ghost var s0 := Abs();
      var ok := CreatePaymentIntent(me, replies.txn, replies.intentFails);
      Runs.One(Step, s0, Intend(me, replies.txn, replies.intentFails));
      if !ok {
        return Err(IntentFailed);
      }
      Wait(me, gap2);
      r := Collect(me, replies, gap3);
      Runs.Parts(Step, s0, Intend(me, replies.txn, false), gap2, CollectTrace(me, replies, gap3));
    }

    /**
     A call is its read, intent, capture and insert with anything in between, cut short by the
     first that fails or by a payment found; only a captured charge can end up lost.
     */
    method ChargeRide(ride: RideId, amount: real, replies: Replies, gap1: seq<Event>, gap2: seq<Event>,
                      gap3: seq<Event>)
      returns (r: Result<Payment, ChargeError>)
      requires Foreign(gap1, |calls|) && Foreign(gap2, |calls|) && Foreign(gap3, |calls|)
      modifies this
      ensures var found := !replies.readFails && IsPaid(old(rows), ride);
              var charge := Charge(ride, amount, replies.txn);
              && |old(calls)| < |calls|
              && Abs() == After(old(Abs()), if found then [Read(ride, amount, replies.readFails)]
                                            else [Read(ride, amount, replies.readFails)] + gap1
                                                 + PayTrace(|old(calls)|, replies, gap2, gap3))
              && (found ==> r.Ok? && r.value in old(rows) && r.value.charge.ride == ride && r.value.status == Completed
                            && calls[|old(calls)|] == Ended)
              && (!found ==> r == PayResult(charge, replies) && EndsAs(calls[|old(calls)|], charge, r))
      ensures var found := !replies.readFails && IsPaid(old(rows), ride);
              && (r.Ok? <==> found || (!replies.intentFails && !replies.captureFails && !replies.insertFails
                                       && Pricing.FitsNumeric(amount)))
              && (r.Ok? && !found ==> r.value == Payment(Charge(ride, amount, replies.txn), Completed))
              && (r == Err(IntentFailed) <==> !found && replies.intentFails)
              && (r == Err(CaptureFailed) <==> !found && !replies.intentFails && replies.captureFails)
    {
      ghost var s0 := Abs();
      var me := |calls|;
      var existing := FindPaid(ride, amount, replies.readFails);
      if existing.Some? {
        Runs.One(Step, s0, Read(ride, amount, replies.readFails));
        return Ok(existing.value);
      }
      Wait(me, gap1);
      r := Pay(me, replies, gap2, gap3);
      Runs.Parts(Step, s0, Read(ride, amount, replies.readFails), gap1, PayTrace(me, replies, gap2, gap3));
    }
  }

  // ---- what one call does to the run ----

  ghost function CollectTrace(me: nat, replies: Replies, gap: seq<Event>): seq<Event> {
    if replies.captureFails then [Capture(me, true)]
    else [Capture(me, false)] + gap + [Insert(me, replies.insertFails)]
  }

  ghost function PayTrace(me: nat, replies: Replies, gap2: seq<Event>, gap3: seq<Event>): seq<Event> {
    if replies.intentFails then [Intend(me, replies.txn, true)]
    else [Intend(me, replies.txn, false)] + gap2 + CollectTrace(me, replies, gap3)
  }

  ghost function CollectResult(charge: Charge, replies: Replies): Result<Payment, ChargeError> {
    if replies.captureFails then Err(CaptureFailed)
    else if !InsertSucceeds(charge, replies.insertFails) then Err(InsertFailed)
    else Ok(Payment(charge, Completed))
  }

  ghost function PayResult(charge: Charge, replies: Replies): Result<Payment, ChargeError> {
    if replies.intentFails then Err(IntentFailed) else CollectResult(charge, replies)
  }

  /** How the ledger of calls shows the result. */
  ghost predicate EndsAs(call: Call, charge: Charge, r: Result<Payment, ChargeError>) {
    match r
    case Ok(_) => call == Recorded(charge)
    case Err(InsertFailed) => call == Lost(charge)
    case Err(_) => call == Ended
  }
}
