/**
 Login lockout: failures counted per email, a lock that expires lazily when it is looked
 at, a background sweep, and the discipline in which Login calls them.
 */
module Lockout {
  import opened Common
  import Runs

  type Email = nat

  datatype Attempts = Attempts(failCount: int, lockedAt: Option<Time>)

  type Table = map<Email, Attempts>

  datatype Config = Config(maxFails: int, lockDur: Time)

  predicate IsExpired(cfg: Config, a: Attempts, t: Time) {
    a.lockedAt.Some? && t - a.lockedAt.value > cfg.lockDur
  }

  // ---- the tracker ----

  predicate IsLockedOut(cfg: Config, m: Table, email: Email, t: Time) {
    email in m && !IsExpired(cfg, m[email], t) && m[email].failCount >= cfg.maxFails
  }

  function Look(cfg: Config, m: Table, email: Email, t: Time): Table {
    if email in m && IsExpired(cfg, m[email], t) then m - {email} else m
  }

  /** The entry after one more failure at t, whatever the entry's lock has become. */
  function Failed(cfg: Config, a: Option<Attempts>, t: Time): Attempts {
    var before := if a.Some? then a.value else Attempts(0, None);
    if before.failCount + 1 >= cfg.maxFails then Attempts(before.failCount + 1, Some(t))
    else before.(failCount := before.failCount + 1)
  }

  function Lookup(m: Table, email: Email): Option<Attempts> {
    if email in m then Some(m[email]) else None
  }

  /** RecordFailure answers whether the email is now locked. */
  predicate LocksNow(cfg: Config, m: Table, email: Email, t: Time) {
    Failed(cfg, Lookup(m, email), t).failCount >= cfg.maxFails
  }

  function Swept(cfg: Config, m: Table, t: Time): Table {
    map e | e in m && !IsExpired(cfg, m[e], t) :: m[e]
  }

  datatype Event =
    | Check(email: Email, t: Time)
    | Fail(email: Email, t: Time)
    | Succeed(email: Email, t: Time)
    | Abandon(email: Email, t: Time)   // the user lookup failed: nothing is recorded
    | Sweep(t: Time)

  function Step(cfg: Config, m: Table, e: Event): Table {
    match e
    case Check(email, t) => Look(cfg, m, email, t)
    case Fail(email, t) => m[email := Failed(cfg, Lookup(m, email), t)]
    case Succeed(email, _) => m - {email}
    case Abandon(_, _) => m
    case Sweep(t) => Swept(cfg, m, t)
  }

  function Stepper(cfg: Config): (Table, Event) -> Table {
    (m: Table, e: Event) => Step(cfg, m, e)
  }

  function After(cfg: Config, es: seq<Event>): Table {
    Runs.After(Stepper(cfg), map[], es)
  }

  // ---- the discipline of Login ----

  /** A login for the email has passed its check and recorded nothing yet. */
  predicate InLogin(cfg: Config, es: seq<Event>, email: Email) {
    es != []
    && var before, last := es[..|es| - 1], es[|es| - 1];
       if last.Sweep? || last.email != email then InLogin(cfg, before, email)
       else last.Check? && !IsLockedOut(cfg, After(cfg, before), email, last.t)
  }

  /** Per email, a login checks and then records at most once before the next one checks. */
  predicate Disciplined(cfg: Config, es: seq<Event>) {
    es == []
    || (var before, last := es[..|es| - 1], es[|es| - 1];
        && Disciplined(cfg, before)
        && (before != [] ==> before[|before| - 1].t <= last.t)
        && (!last.Sweep? ==> (InLogin(cfg, before, last.email) <==> !last.Check?)))
  }

  // ---- the history ----

  /** Failures recorded for the email since its last success. */
  function Failures(es: seq<Event>, email: Email): nat {
    if es == [] then 0
    else
      var before, last := es[..|es| - 1], es[|es| - 1];
      if last == Fail(email, last.t) then Failures(before, email) + 1
      else if last == Succeed(email, last.t) then 0
      else Failures(before, email)
  }

  /** When the latest of them was recorded. */
  function LastFailure(es: seq<Event>, email: Email): Time {
    if es == [] then 0
    else
      var before, last := es[..|es| - 1], es[|es| - 1];
      if last == Fail(email, last.t) then last.t else LastFailure(before, email)
  }

  /** Failures it takes to lock: one even when the configured number is not positive. */
  function Threshold(cfg: Config): nat {
    Max(1, cfg.maxFails)
  }

  /** The history alone decides: every Threshold-th failure in a row starts a lock of lockDur. */
  predicate LockedByHistory(cfg: Config, es: seq<Event>, email: Email, t: Time) {
    var n := Failures(es, email);
    n > 0 && n % Threshold(cfg) == 0 && t - LastFailure(es, email) <= cfg.lockDur
  }

  function EndOf(es: seq<Event>): Time {
    if es == [] then 0 else es[|es| - 1].t
  }

  /**
   How an entry of the map stands to the history of its email, in a run in which no failure is
   recorded under a lock, or in any run when one failure is enough to lock.
   */
  predicate Reflects(cfg: Config, a: Option<Attempts>, failures: nat, last: Time, now: Time) {
    var th := Threshold(cfg);
    && last <= now
    && match a
       case None =>
         failures % th == 0 && (failures > 0 ==> now - last > cfg.lockDur)
       case Some(Attempts(count, None)) =>
         0 < count < th && failures % th == count
       case Some(Attempts(count, Some(at))) =>
         count >= th && (th > 1 ==> count == th) && failures > 0 && failures % th == 0 && at == last
  }

  lemma OneMoreModulo(n: nat, th: nat)
    requires th > 0
    ensures (n + 1) % th == if n % th == th - 1 then 0 else n % th + 1
  {
    var q, r := n / th, n % th;
    assert n == q * th + r;
    if r == th - 1 {
      assert n + 1 == (q + 1) * th;
      ModuloUnique(n + 1, q + 1, 0, th);
    } else {
      ModuloUnique(n + 1, q, r + 1, th);
    }
  }

  lemma ModuloUnique(n: nat, q: nat, r: nat, th: nat)
    requires r < th && n == q * th + r
    ensures n % th == r
  {
    var q' := n / th;
    assert n == q' * th + n % th;
    CancelFactor(q, q' + 1, th);
    CancelFactor(q', q + 1, th);
  }

  predicate HasLock(a: Option<Attempts>) {
    a.Some? && a.value.lockedAt.Some?
  }

  lemma FailureReflects(cfg: Config, a: Option<Attempts>, failures: nat, last: Time, now: Time, t: Time)
    requires Reflects(cfg, a, failures, last, now) && now <= t
    requires cfg.maxFails <= 1 || !HasLock(a)
    ensures Reflects(cfg, Some(Failed(cfg, a, t)), failures + 1, t, t)
    ensures Failed(cfg, a, t).failCount >= cfg.maxFails <==> (failures + 1) % Threshold(cfg) == 0
  {
    OneMoreModulo(failures, Threshold(cfg));
  }

  /** The mutex makes the clock readings of successive calls nondecreasing. */
  predicate Ordered(es: seq<Event>) {
    forall i | 0 < i < |es| :: es[i - 1].t <= es[i].t
  }

  /** RecordFailure finds the email's lock set, expired or not; nothing in it looks. */
  predicate FailsUnderALock(cfg: Config, es: seq<Event>, i: nat, email: Email)
    requires i < |es|
  {
    es[i] == Fail(email, es[i].t) && HasLock(Lookup(After(cfg, es[..i]), email))
  }

  predicate IsClean(cfg: Config, es: seq<Event>, email: Email) {
    cfg.maxFails <= 1 || forall i | 0 <= i < |es| :: !FailsUnderALock(cfg, es, i, email)
  }

  lemma CleanPrefix(cfg: Config, es: seq<Event>, n: nat, email: Email)
    requires n <= |es| && (cfg.maxFails <= 1 || forall i | 0 <= i < n :: !FailsUnderALock(cfg, es, i, email))
    ensures IsClean(cfg, es[..n], email)
  {
    forall i | 0 <= i < n && FailsUnderALock(cfg, es[..n], i, email) ensures FailsUnderALock(cfg, es, i, email) {
      assert es[..n][..i] == es[..i];
    }
  }

  lemma NextReflects(cfg: Config, m: Table, e: Event, email: Email, failures: nat, last: Time, now: Time)
    requires Reflects(cfg, Lookup(m, email), failures, last, now) && now <= e.t
    requires e == Fail(email, e.t) ==> cfg.maxFails <= 1 || !HasLock(Lookup(m, email))
    ensures Reflects(cfg, Lookup(Step(cfg, m, e), email),
                     if e == Fail(email, e.t) then failures + 1 else if e == Succeed(email, e.t) then 0 else failures,
                     if e == Fail(email, e.t) then e.t else last, e.t)
  {
    if e == Fail(email, e.t) {
      FailureReflects(cfg, Lookup(m, email), failures, last, now, e.t);
      assert Lookup(Step(cfg, m, e), email) == Some(Failed(cfg, Lookup(m, email), e.t));
    } else if e == Succeed(email, e.t) {
      assert 0 % Threshold(cfg) == 0;
    } else {
      var before, after := Lookup(m, email), Lookup(Step(cfg, m, e), email);
      assert after == before || (after.None? && before.Some? && IsExpired(cfg, before.value, e.t));
    }
  }

  lemma {:induction false} TrackerReflects(cfg: Config, es: seq<Event>, email: Email)
    requires Ordered(es) && IsClean(cfg, es, email)
    ensures Reflects(cfg, Lookup(After(cfg, es), email), Failures(es, email), LastFailure(es, email), EndOf(es))
  {
    if es != [] {
      var n := |es| - 1;
      CleanPrefix(cfg, es, n, email);
      TrackerReflects(cfg, es[..n], email);
      assert cfg.maxFails <= 1 || !FailsUnderALock(cfg, es, n, email);
      NextReflects(cfg, After(cfg, es[..n]), es[n], email, Failures(es[..n], email), LastFailure(es[..n], email),
                   EndOf(es[..n]));
    }
  }

  lemma CleanRunsAgree(cfg: Config, es: seq<Event>, email: Email, t: Time)
    requires Ordered(es) && IsClean(cfg, es, email) && EndOf(es) <= t
    ensures IsLockedOut(cfg, After(cfg, es), email, t) <==> LockedByHistory(cfg, es, email, t)
  {
    TrackerReflects(cfg, es, email);
  }

  /** After every event and at every later time, the code and the history give the same answer. */
  ghost predicate AgreesThroughout(cfg: Config, es: seq<Event>, email: Email) {
    forall n: nat, t: Time | n <= |es| && EndOf(es[..n]) <= t ::
      IsLockedOut(cfg, After(cfg, es[..n]), email, t) <==> LockedByHistory(cfg, es[..n], email, t)
  }

  /** The first failure under a lock extends the lock, and the history counts on from there. */
  lemma FirstFailureUnderALock(cfg: Config, es: seq<Event>, i: nat, email: Email)
    requires Ordered(es) && i < |es| && cfg.maxFails > 1 && FailsUnderALock(cfg, es, i, email)
    requires forall k | 0 <= k < i :: !FailsUnderALock(cfg, es, k, email)
    ensures EndOf(es[..i + 1]) == es[i].t
    ensures IsLockedOut(cfg, After(cfg, es[..i + 1]), email, es[i].t)
    ensures !LockedByHistory(cfg, es[..i + 1], email, es[i].t)
  {
    CleanPrefix(cfg, es, i, email);
    TrackerReflects(cfg, es[..i], email);
    Runs.Prefix(Stepper(cfg), map[], es, i);
    assert es[..i + 1][..i] == es[..i];
    OneMoreModulo(Failures(es[..i], email), Threshold(cfg));
  }

  /**
   With any number of logins at once: the tracker follows the history of failures and successes
   throughout exactly when one failure is enough to lock or no failure is recorded for the email
   while its lock is set.
   */
  lemma AgreesExactly(cfg: Config, es: seq<Event>, email: Email)
    requires Ordered(es)
    ensures AgreesThroughout(cfg, es, email)
            <==> cfg.maxFails <= 1 || forall i | 0 <= i < |es| :: !FailsUnderALock(cfg, es, i, email)
  {
    if IsClean(cfg, es, email) {
      forall n: nat, t: Time | n <= |es| && EndOf(es[..n]) <= t
        ensures IsLockedOut(cfg, After(cfg, es[..n]), email, t) <==> LockedByHistory(cfg, es[..n], email, t)
      {
        CleanPrefix(cfg, es, n, email);
        CleanRunsAgree(cfg, es[..n], email, t);
      }
    } else {
      var i := FirstUnderALock(cfg, es, |es|, email);
      FirstFailureUnderALock(cfg, es, i, email);
    }
  }

  lemma {:induction false} FirstUnderALock(cfg: Config, es: seq<Event>, n: nat, email: Email) returns (i: nat)
    requires n <= |es| && exists k :: 0 <= k < n && FailsUnderALock(cfg, es, k, email)
    ensures i < n && FailsUnderALock(cfg, es, i, email)
    ensures forall k | 0 <= k < i :: !FailsUnderALock(cfg, es, k, email)
  {
    i := n - 1;
    if exists k :: 0 <= k < n - 1 && FailsUnderALock(cfg, es, k, email) {
      i := FirstUnderALock(cfg, es, n - 1, email);
    }
  }

  // ---- disciplined runs ----

  predicate LocksAreFull(cfg: Config, m: Table) {
    forall e | e in m :: m[e].failCount > 0 && (m[e].lockedAt.Some? ==> m[e].failCount >= cfg.maxFails)
  }

  lemma {:induction false} LocksAreAlwaysFull(cfg: Config, es: seq<Event>)
    ensures LocksAreFull(cfg, After(cfg, es))
  {
    if es != [] {
      LocksAreAlwaysFull(cfg, es[..|es| - 1]);
    }
  }

  /** A check that lets a login pass leaves no lock behind, and sweeps and others set none. */
  lemma {:induction false} InLoginIsUnlocked(cfg: Config, es: seq<Event>, email: Email)
    requires InLogin(cfg, es, email)
    ensures !HasLock(Lookup(After(cfg, es), email))
  {
    var before, last := es[..|es| - 1], es[|es| - 1];
    if last.Sweep? || last.email != email {
      InLoginIsUnlocked(cfg, before, email);
    } else {
      LocksAreAlwaysFull(cfg, before);
    }
  }

  /** Logins that do not overlap never record a failure under a lock. */
  lemma {:induction false} DisciplinedIsClean(cfg: Config, es: seq<Event>, email: Email)
    requires Disciplined(cfg, es)
    ensures Ordered(es) && forall i | 0 <= i < |es| :: !FailsUnderALock(cfg, es, i, email)
  {
    if es != [] {
      var n := |es| - 1;
      var before := es[..n];
      DisciplinedIsClean(cfg, before, email);
      forall i | 0 <= i < |es| ensures !FailsUnderALock(cfg, es, i, email) {
        if i < n {
          assert !FailsUnderALock(cfg, before, i, email);
          assert before[..i] == es[..i];
        } else if es[n] == Fail(email, es[n].t) {
          InLoginIsUnlocked(cfg, before, email);
        }
      }
    }
  }

  /**
   For every disciplined run, with any other emails and any sweeps in between: the email is
   locked at t exactly when its history of failures and successes says so.
   */
  lemma LockoutRefinesHistory(cfg: Config, es: seq<Event>, email: Email, t: Time)
    requires Disciplined(cfg, es) && EndOf(es) <= t
    ensures IsLockedOut(cfg, After(cfg, es), email, t) <==> LockedByHistory(cfg, es, email, t)
    ensures InLogin(cfg, es, email) ==>
              (LocksNow(cfg, After(cfg, es), email, t) <==> (Failures(es, email) + 1) % Threshold(cfg) == 0)
  {
    DisciplinedIsClean(cfg, es, email);
    CleanRunsAgree(cfg, es, email, t);
    if InLogin(cfg, es, email) {
      InLoginIsUnlocked(cfg, es, email);
      TrackerReflects(cfg, es, email);
      FailureReflects(cfg, Lookup(After(cfg, es), email), Failures(es, email), LastFailure(es, email), EndOf(es), t);
    }
  }

  // ---- attempts left ----

  function Remaining(cfg: Config, m: Table, email: Email): int {
    if email in m then Max(0, cfg.maxFails - m[email].failCount) else cfg.maxFails
  }

  /**
   What the number is for: of any failures that follow, the one that locks is the one that
   brings it to nothing, and every one after that.
   */
  lemma {:induction false} RemainingFailuresLock(cfg: Config, m: Table, es: seq<Event>, email: Email, t: Time)
    requires forall i | 0 <= i < |es| :: es[i].Fail?
    ensures LocksNow(cfg, Runs.After(Stepper(cfg), m, es), email, t)
            <==> Failures(es, email) + 1 >= Remaining(cfg, m, email)
    ensures var a := Lookup(Runs.After(Stepper(cfg), m, es), email);
            (if a.Some? then a.value.failCount else 0)
            == Failures(es, email) + if email in m then m[email].failCount else 0
  {
    if es != [] {
      RemainingFailuresLock(cfg, m, es[..|es| - 1], email, t);
    }
  }

  /**
   Against the history, in a run without a failure under a lock: the failures still missing to
   the next multiple of the limit; none while locked; and when the latest failure completed a
   multiple whose lock has run out, none or all of them, as the expired lock still stands or not.
   */
  lemma RemainingFollowsHistory(cfg: Config, es: seq<Event>, email: Email, t: Time)
    requires Ordered(es) && IsClean(cfg, es, email) && EndOf(es) <= t
    ensures var left, missing := Remaining(cfg, After(cfg, es), email), Failures(es, email) % Threshold(cfg);
            && (missing > 0 ==> left == cfg.maxFails - missing && left > 0)
            && (LockedByHistory(cfg, es, email, t) ==> left == 0)
            && (missing == 0 ==> left == if HasLock(Lookup(After(cfg, es), email)) then 0 else cfg.maxFails)
            && (Failures(es, email) == 0 ==> left == cfg.maxFails)
  {
    TrackerReflects(cfg, es, email);
    assert 0 % Threshold(cfg) == 0;
    match Lookup(After(cfg, es), email)
    case None => assert Failures(es, email) % Threshold(cfg) == 0;
    case Some(Attempts(count, None)) => assert Failures(es, email) % Threshold(cfg) == count > 0;
    case Some(Attempts(_, Some(_))) => assert Failures(es, email) % Threshold(cfg) == 0;
  }

  // ---- sweeps ----

  function WithoutSweeps(es: seq<Event>): seq<Event> {
    if es == [] then []
    else
      var last := es[|es| - 1];
      WithoutSweeps(es[..|es| - 1]) + if last.Sweep? then [] else [last]
  }

  lemma WithoutSweepsSnoc(es: seq<Event>)
    requires es != []
    ensures var own, last := WithoutSweeps(es[..|es| - 1]), es[|es| - 1];
            if last.Sweep? then WithoutSweeps(es) == own
            else WithoutSweeps(es) != [] && WithoutSweeps(es)[..|WithoutSweeps(es)| - 1] == own
                 && WithoutSweeps(es)[|WithoutSweeps(es)| - 1] == last
  {
  }

  lemma {:induction false} HistoryIgnoresSweeps(cfg: Config, es: seq<Event>, email: Email)
    ensures Failures(WithoutSweeps(es), email) == Failures(es, email)
    ensures LastFailure(WithoutSweeps(es), email) == LastFailure(es, email)
  {
    if es != [] {
      WithoutSweepsSnoc(es);
      HistoryIgnoresSweeps(cfg, es[..|es| - 1], email);
    }
  }

  lemma {:induction false} DisciplineIgnoresSweeps(cfg: Config, es: seq<Event>)
    requires Disciplined(cfg, es)
    ensures Disciplined(cfg, WithoutSweeps(es)) && EndOf(WithoutSweeps(es)) <= EndOf(es)
    ensures forall email :: InLogin(cfg, WithoutSweeps(es), email) <==> InLogin(cfg, es, email)
  {
    if es != [] {
      var before, last := es[..|es| - 1], es[|es| - 1];
      WithoutSweepsSnoc(es);
      DisciplineIgnoresSweeps(cfg, before);
      if last.Check? {
        LockoutRefinesHistory(cfg, before, last.email, last.t);
        LockoutRefinesHistory(cfg, WithoutSweeps(before), last.email, last.t);
        HistoryIgnoresSweeps(cfg, before, last.email);
      }
    }
  }

  /** Taking every sweep out of a disciplined run changes no answer, to a check or to a failure. */
  lemma SweepsAreInvisible(cfg: Config, es: seq<Event>, email: Email, t: Time)
    requires Disciplined(cfg, es) && EndOf(es) <= t
    ensures IsLockedOut(cfg, After(cfg, WithoutSweeps(es)), email, t) <==> IsLockedOut(cfg, After(cfg, es), email, t)
    ensures InLogin(cfg, es, email) ==>
              (LocksNow(cfg, After(cfg, WithoutSweeps(es)), email, t) <==> LocksNow(cfg, After(cfg, es), email, t))
  {
    var fs := WithoutSweeps(es);
    DisciplineIgnoresSweeps(cfg, es);
    assert LockedByHistory(cfg, fs, email, t) <==> LockedByHistory(cfg, es, email, t) by {
      HistoryIgnoresSweeps(cfg, es, email);
    }
    assert (Failures(fs, email) + 1) % Threshold(cfg) == (Failures(es, email) + 1) % Threshold(cfg) by {
      HistoryIgnoresSweeps(cfg, es, email);
    }
    LockoutRefinesHistory(cfg, es, email, t);
    LockoutRefinesHistory(cfg, fs, email, t);
  }

  /**
   Without the discipline a sweep can be seen: in any reachable table, sweeping at s changes
   what a failure at t answers exactly when the email's lock had expired by s and one failure
   is not enough to lock.  A check never notices.
   */
  lemma SweepIsVisibleExactly(cfg: Config, es: seq<Event>, email: Email, s: Time, t: Time)
    requires s <= t
    ensures var m := After(cfg, es);
            && (IsLockedOut(cfg, Swept(cfg, m, s), email, t) <==> IsLockedOut(cfg, m, email, t))
            && (LocksNow(cfg, Swept(cfg, m, s), email, t) != LocksNow(cfg, m, email, t)
                <==> email in m && IsExpired(cfg, m[email], s) && cfg.maxFails > 1)
  {
    LocksAreAlwaysFull(cfg, es);
  }

  /** A sweep between an expired lock and the next failure lets that failure off. */
  lemma SweepIsSeen() returns (cfg: Config, es: seq<Event>)
    ensures |es| == 2 && 0 in After(cfg, es) && IsExpired(cfg, After(cfg, es)[0], 13)
    ensures LocksNow(cfg, After(cfg, es), 0, 14) && !LocksNow(cfg, Swept(cfg, After(cfg, es), 13), 0, 14)
  {
    cfg := Config(2, 10);
    es := [Fail(0, 1), Fail(0, 2)];
    Runs.Prefix(Stepper(cfg), map[], es, 0);
    Runs.Prefix(Stepper(cfg), map[], es, 1);
    assert es[..0] == [] && es[..2] == es;
    assert After(cfg, es) == map[0 := Attempts(2, Some(2))];
  }

  /** Three logins at once: the third failure is recorded under a lock and extends it. */
  lemma ConcurrentLoginsExtendTheLock() returns (cfg: Config, es: seq<Event>)
    ensures |es| == 6 && es[..3] == [Check(0, 0), Check(0, 0), Check(0, 0)]
    ensures IsLockedOut(cfg, After(cfg, es), 0, 14) && !LockedByHistory(cfg, es, 0, 14)
    ensures LockedByHistory(cfg, es[..5], 0, 10) && !LockedByHistory(cfg, es[..5], 0, 14)
  {
    cfg := Config(2, 10);
    es := [Check(0, 0), Check(0, 0), Check(0, 0), Fail(0, 1), Fail(0, 2), Fail(0, 5)];
    assert es[..6] == es;
    forall i | 0 <= i < 6 ensures After(cfg, es[..i + 1]) == Step(cfg, After(cfg, es[..i]), es[i]) {
      Runs.Prefix(Stepper(cfg), map[], es, i);
    }
    assert es[..6][..5] == es[..5] && es[..5][..4] == es[..4] && es[..4][..3] == es[..3]
           && es[..3][..2] == es[..2] && es[..2][..1] == es[..1] && es[..1][..0] == [];
    assert After(cfg, es[..0]) == map[];
    assert After(cfg, es[..0 + 1]) == map[];
    assert After(cfg, es[..1 + 1]) == map[];
    assert After(cfg, es[..2 + 1]) == map[];
    assert After(cfg, es[..3 + 1]) == map[0 := Attempts(1, None)];
    assert After(cfg, es[..4 + 1]) == map[0 := Attempts(2, Some(2))];
    assert After(cfg, es[..5 + 1]) == map[0 := Attempts(3, Some(5))];
    assert Failures(es[..1], 0) == 0;
    assert Failures(es[..2], 0) == 0;
    assert Failures(es[..3], 0) == 0;
    assert Failures(es[..4], 0) == 1;
    assert Failures(es[..5], 0) == 2 && LastFailure(es[..5], 0) == 2;
    assert Failures(es[..6], 0) == 3;
  }

  // ---- the tracker and the login ----

  class LoginAttemptTracker {
    var attempts: Table
    const maxFails: int
    const lockDur: Time

    constructor (maxFails: int, lockDur: Time)
      ensures attempts == map[] && Settings() == Config(maxFails, lockDur)
    {
      attempts := map[];
      this.maxFails, this.lockDur := maxFails, lockDur;
    }

    function Settings(): Config {
      Config(maxFails, lockDur)
    }

    /** Other logins and the sweep between two calls of this one. */
    method Interfere(es: seq<Event>)
      modifies this
      ensures attempts == Runs.After(Stepper(Settings()), old(attempts), es)
    {
      attempts := Runs.After(Stepper(Settings()), attempts, es);
    }

    method IsLocked(email: Email, t: Time) returns (locked: bool)
      modifies this
      ensures locked <==> IsLockedOut(Settings(), old(attempts), email, t)
      ensures attempts == Step(Settings(), old(attempts), Check(email, t))
    {
      if email !in attempts {
        return false;
      }
      var info := attempts[email];
      if info.lockedAt.Some? && t - info.lockedAt.value > lockDur {
        attempts := attempts - {email};
        return false;
      }
      locked := info.failCount >= maxFails;
    }

    method RecordFailure(email: Email, t: Time) returns (locked: bool)
      modifies this
      ensures locked <==> LocksNow(Settings(), old(attempts), email, t)
      ensures attempts == Step(Settings(), old(attempts), Fail(email, t))
    {
      if email !in attempts {
        attempts := attempts[email := Attempts(0, None)];
      }
      attempts := attempts[email := attempts[email].(failCount := attempts[email].failCount + 1)];
      locked := attempts[email].failCount >= maxFails;
      if locked {
        attempts := attempts[email := attempts[email].(lockedAt := Some(t))];
      }
    }

    method RecordSuccess(email: Email, t: Time)
      modifies this
      ensures attempts == Step(Settings(), old(attempts), Succeed(email, t))
    {
      attempts := attempts - {email};
    }

    /** Among failures that follow, the first to lock is the one that uses up the remaining attempts. */
    method RemainingAttempts(email: Email) returns (remaining: int)
      ensures remaining == Remaining(Settings(), attempts, email)
      ensures forall es: seq<Event>, t: Time | forall i | 0 <= i < |es| :: es[i].Fail? ::
                LocksNow(Settings(), Runs.After(Stepper(Settings()), attempts, es), email, t)
                <==> Failures(es, email) + 1 >= remaining
    {
      forall es: seq<Event>, t: Time | forall i | 0 <= i < |es| :: es[i].Fail?
        ensures LocksNow(Settings(), Runs.After(Stepper(Settings()), attempts, es), email, t)
                <==> Failures(es, email) + 1 >= Remaining(Settings(), attempts, email)
      {
        RemainingFailuresLock(Settings(), attempts, es, email, t);
      }
      if email !in attempts {
        return maxFails;
      }
      remaining := maxFails - attempts[email].failCount;
      if remaining < 0 {
        return 0;
      }
    }

    method Cleanup(now: Time)
      modifies this
      ensures attempts == Step(Settings(), old(attempts), Sweep(now))
      ensures forall e :: e in attempts <==>
                            e in old(attempts)
                            && !(old(attempts)[e].lockedAt.Some? && now - old(attempts)[e].lockedAt.value > lockDur)
      ensures forall e | e in attempts :: attempts[e] == old(attempts)[e]
    {
      var todo := attempts.Keys;
      while todo != {}
        invariant todo <= attempts.Keys <= old(attempts).Keys
        invariant forall e | e in attempts :: attempts[e] == old(attempts)[e]
        invariant forall e | e in old(attempts) && e !in todo ::
                    e in attempts <==> !IsExpired(Settings(), old(attempts)[e], now)
        decreases todo
      {
        var email :| email in todo;
        todo := todo - {email};
        var info := attempts[email];
        if info.lockedAt.Some? && now - info.lockedAt.value > lockDur {
          attempts := attempts - {email};
        }
      }
    }
  }

  /** What the user table and the password comparison answer. */
  datatype Credentials = LookupFailed | NoSuchUser | WrongPassword | Match

  datatype LoginError = TooManyRequests | Unauthorized | Internal

  /** The record a login that passed its check makes. */
  function Record(email: Email, credentials: Credentials, t: Time): Event {
    match credentials
    case LookupFailed => Abandon(email, t)
    case NoSuchUser => Fail(email, t)
    case WrongPassword => Fail(email, t)
    case Match => Succeed(email, t)
  }

  /** Whether the events are other emails' and sweeps. */
  predicate Foreign(es: seq<Event>, email: Email) {
    forall i | 0 <= i < |es| :: es[i].Sweep? || es[i].email != email
  }

  lemma {:induction false} OthersLeaveTheLogin(cfg: Config, es: seq<Event>, gap: seq<Event>, email: Email)
    requires Foreign(gap, email)
    ensures InLogin(cfg, es + gap, email) <==> InLogin(cfg, es, email)
  {
    if gap == [] {
      assert es + gap == es;
    } else {
      assert (es + gap)[..|es + gap| - 1] == es + gap[..|gap| - 1];
      OthersLeaveTheLogin(cfg, es, gap[..|gap| - 1], email);
    }
  }

  /** A login's steps extend a disciplined run if what happens in between is disciplined too. */
  ghost predicate ExtendsDiscipline(cfg: Config, es: seq<Event>, email: Email, checked: Time, gap: seq<Event>,
                                    recorded: Time)
  {
    var before := es + [Check(email, checked)] + gap;
    && Disciplined(cfg, es) && EndOf(es) <= checked && !InLogin(cfg, es, email)
    && (!IsLockedOut(cfg, After(cfg, es), email, checked) ==>
          Foreign(gap, email) && Disciplined(cfg, before) && EndOf(before) <= recorded)
  }

  ghost function LoginTrace(email: Email, credentials: Credentials, checked: Time, gap: seq<Event>, recorded: Time,
                            locked: bool): seq<Event>
  {
    [Check(email, checked)] + if locked then [] else gap + [Record(email, credentials, recorded)]
  }

  lemma LoginIsDisciplined(cfg: Config, es: seq<Event>, email: Email, credentials: Credentials, checked: Time,
                           gap: seq<Event>, recorded: Time)
    requires ExtendsDiscipline(cfg, es, email, checked, gap, recorded)
    ensures var locked := IsLockedOut(cfg, After(cfg, es), email, checked);
            var fs := es + LoginTrace(email, credentials, checked, gap, recorded, locked);
            Disciplined(cfg, fs) && !InLogin(cfg, fs, email)
  {
    var locked := IsLockedOut(cfg, After(cfg, es), email, checked);
    var trace := LoginTrace(email, credentials, checked, gap, recorded, locked);
    var fs := es + [Check(email, checked)];
    assert fs[..|fs| - 1] == es && fs[|fs| - 1] == Check(email, checked);
    assert Disciplined(cfg, fs);
    if locked {
      assert es + trace == fs;
    } else {
      OthersLeaveTheLogin(cfg, fs, gap, email);
      var last := Record(email, credentials, recorded);
      var gs := fs + gap + [last];
      assert gs[..|gs| - 1] == fs + gap && gs[|gs| - 1] == last && last.email == email;
      assert es + trace == gs;
    }
  }

  lemma {:induction false} OthersLeaveTheHistory(es: seq<Event>, gap: seq<Event>, email: Email)
    requires Foreign(gap, email)
    ensures Failures(es + gap, email) == Failures(es, email)
  {
    if gap == [] {
      assert es + gap == es;
    } else {
      assert (es + gap)[..|es + gap| - 1] == es + gap[..|gap| - 1];
      OthersLeaveTheHistory(es, gap[..|gap| - 1], email);
    }
  }

  /** A wrong password counts, an unknown user counts, a match forgets, and a failed lookup does neither. */
  lemma LoginCounts(es: seq<Event>, email: Email, credentials: Credentials, checked: Time, gap: seq<Event>,
                    recorded: Time)
    requires Foreign(gap, email)
    ensures Failures(es + LoginTrace(email, credentials, checked, gap, recorded, true), email) == Failures(es, email)
    ensures Failures(es + LoginTrace(email, credentials, checked, gap, recorded, false), email)
            == match credentials
               case LookupFailed => Failures(es, email)
               case NoSuchUser => Failures(es, email) + 1
               case WrongPassword => Failures(es, email) + 1
               case Match => 0
  {
    var check, record := [Check(email, checked)], Record(email, credentials, recorded);
    assert (es + check)[..|es|] == es;
    assert check + [] == check;
    OthersLeaveTheHistory(es + check, gap, email);
    var before := es + check + gap;
    assert es + (check + (gap + [record])) == before + [record];
    assert (before + [record])[..|before|] == before;
  }

  /** A login's run, step by step. */
  lemma LoginSteps(cfg: Config, m: Table, email: Email, credentials: Credentials, checked: Time, gap: seq<Event>,
                   recorded: Time)
    ensures Runs.After(Stepper(cfg), m, LoginTrace(email, credentials, checked, gap, recorded, true))
            == Look(cfg, m, email, checked)
    ensures Runs.After(Stepper(cfg), m, [Check(email, checked)] + gap)
            == Runs.After(Stepper(cfg), Look(cfg, m, email, checked), gap)
    ensures Runs.After(Stepper(cfg), m, LoginTrace(email, credentials, checked, gap, recorded, false))
            == Step(cfg, Runs.After(Stepper(cfg), Look(cfg, m, email, checked), gap),
                    Record(email, credentials, recorded))
  {
    var check, record := Check(email, checked), Record(email, credentials, recorded);
    Runs.One(Stepper(cfg), m, check);
    assert [check] + [] == [check];
    Runs.Concat(Stepper(cfg), m, [check], gap);
    Runs.Extend(Stepper(cfg), m, [check] + gap, record);
    assert [check] + (gap + [record]) == [check] + gap + [record];
  }

  /**
   One check and, if it lets the login pass, one record, with anything in between: the database
   read and the password comparison take their time.
   */
  method Login(lockout: LoginAttemptTracker, email: Email, credentials: Credentials,
               checked: Time, gap: seq<Event>, recorded: Time)
    returns (r: Result<(), LoginError>, ghost trace: seq<Event>)
    requires checked <= recorded
    modifies lockout
    ensures var locked := IsLockedOut(lockout.Settings(), old(lockout.attempts), email, checked);
            && trace == LoginTrace(email, credentials, checked, gap, recorded, locked)
            && r == (if locked then Err(TooManyRequests)
                     else match credentials
                          case LookupFailed => Err(Internal)
                          case NoSuchUser => Err(Unauthorized)
                          case WrongPassword => Err(Unauthorized)
                          case Match => Ok(()))
    ensures lockout.attempts == Runs.After(Stepper(lockout.Settings()), old(lockout.attempts), trace)
    ensures var cfg, found := lockout.Settings(), old(lockout.attempts);
            if IsLockedOut(cfg, found, email, checked) then lockout.attempts == found
            else
              var met := Runs.After(Stepper(cfg), found, [Check(email, checked)] + gap);
              && (forall other | other != email :: Lookup(lockout.attempts, other) == Lookup(met, other))
              && (credentials.LookupFailed? ==> lockout.attempts == met)
              && (credentials.Match? ==> email !in lockout.attempts)
              && (credentials.NoSuchUser? || credentials.WrongPassword? ==>
                    && email in lockout.attempts
                    && lockout.attempts[email].failCount == (if email in met then met[email].failCount else 0) + 1
                    && lockout.attempts[email].lockedAt
                       == (if lockout.attempts[email].failCount >= cfg.maxFails then Some(recorded)
                           else if email in met then met[email].lockedAt else None))
    ensures Foreign(gap, email) && r != Err(TooManyRequests) ==>
              forall es: seq<Event> :: Failures(es + trace, email)
                                       == (match credentials
                                           case LookupFailed => Failures(es, email)
                                           case NoSuchUser => Failures(es, email) + 1
                                           case WrongPassword => Failures(es, email) + 1
                                           case Match => 0)
    ensures forall es | old(lockout.attempts) == After(lockout.Settings(), es)
                        && ExtendsDiscipline(lockout.Settings(), es, email, checked, gap, recorded) ::
              && lockout.attempts == After(lockout.Settings(), es + trace)
              && Disciplined(lockout.Settings(), es + trace) && !InLogin(lockout.Settings(), es + trace, email)
  {
    ghost var m0, cfg := lockout.attempts, lockout.Settings();
    var locked := lockout.IsLocked(email, checked);
    trace := LoginTrace(email, credentials, checked, gap, recorded, locked);
    LoginSteps(cfg, m0, email, credentials, checked, gap, recorded);
    if locked {
      r := Err(TooManyRequests);
    } else {
      lockout.Interfere(gap);
      match credentials {
        case LookupFailed =>
          r := Err(Internal);
        case NoSuchUser =>
          var _ := lockout.RecordFailure(email, recorded);
          r := Err(Unauthorized);
        case WrongPassword =>
          var _ := lockout.RecordFailure(email, recorded);
          r := Err(Unauthorized);
        case Match =>
          lockout.RecordSuccess(email, recorded);
          r := Ok(());
      }
    }
    if !locked && Foreign(gap, email) {
      forall es: seq<Event> {
        LoginCounts(es, email, credentials, checked, gap, recorded);
      }
    }
    forall es | m0 == After(cfg, es) && ExtendsDiscipline(cfg, es, email, checked, gap, recorded)
      ensures lockout.attempts == After(cfg, es + trace)
      ensures Disciplined(cfg, es + trace) && !InLogin(cfg, es + trace, email)
    {
      Runs.Concat(Stepper(cfg), map[], es, trace);
      LoginIsDisciplined(cfg, es, email, credentials, checked, gap, recorded);
    }
  }
}
