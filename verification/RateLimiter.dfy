/**
 The per-user rate limiter: a counter per user that restarts once its window is over, and
 a background sweep that drops windows that are over.
 */
module RateLimiter {
  import opened Common
  import Runs

  type Key = nat

  datatype Window = Window(count: int, resetAt: Time)

  type Users = map<Key, Window>

  datatype Config = Config(maxReqs: int, window: Time)

  /** A request reads the clock once to look, and again if it opens a window. */
  datatype Event =
    | Request(user: Key, first: Time, second: Time)
    | Sweep(at: Time)

  predicate IsOver(w: Window, t: Time) {
    t > w.resetAt
  }

  /** The counter after one more request; None is a user without a window. */
  function Next(cfg: Config, w: Option<Window>, first: Time, second: Time): Window {
    if w.None? || IsOver(w.value, first) then Window(1, second + cfg.window)
    else w.value.(count := w.value.count + 1)
  }

  function Lookup(users: Users, user: Key): Option<Window> {
    if user in users then Some(users[user]) else None
  }

  function Swept(users: Users, at: Time): Users {
    map u | u in users && !IsOver(users[u], at) :: users[u]
  }

  function Step(cfg: Config, users: Users, e: Event): Users {
    match e
    case Request(user, first, second) => users[user := Next(cfg, Lookup(users, user), first, second)]
    case Sweep(at) => Swept(users, at)
  }

  predicate IsAllowed(cfg: Config, users: Users, e: Event)
    requires e.Request?
  {
    Next(cfg, Lookup(users, e.user), e.first, e.second).count <= cfg.maxReqs
  }

  function Stepper(cfg: Config): (Users, Event) -> Users {
    (m: Users, e: Event) => Step(cfg, m, e)
  }

  function After(cfg: Config, es: seq<Event>): Users {
    Runs.After(Stepper(cfg), map[], es)
  }

  function At(cfg: Config, es: seq<Event>, i: nat): Users
    requires i <= |es|
  {
    After(cfg, es[..i])
  }

  // ---- the clock ----

  function First(e: Event): Time {
    if e.Request? then e.first else e.at
  }

  function Last(e: Event): Time {
    if e.Request? then e.second else e.at
  }

  /** The mutex makes the clock readings of successive events nondecreasing. */
  predicate Timed(es: seq<Event>) {
    && (forall i | 0 <= i < |es| :: First(es[i]) <= Last(es[i]))
    && (forall i | 0 < i < |es| :: Last(es[i - 1]) <= First(es[i]))
  }

  // ---- one user's requests on their own ----

  /** The requests of one user, without sweeps and without anybody else. */
  function OfUser(es: seq<Event>, user: Key): seq<Event> {
    if es == [] then []
    else
      var last := es[|es| - 1];
      OfUser(es[..|es| - 1], user) + if last.Request? && last.user == user then [last] else []
  }

  /** The user's window had nobody ever swept it. */
  function Solo(cfg: Config, es: seq<Event>, user: Key): Option<Window> {
    Lookup(After(cfg, OfUser(es, user)), user)
  }

  lemma SoloSnoc(cfg: Config, es: seq<Event>, user: Key)
    requires es != []
    ensures var before, last := Solo(cfg, es[..|es| - 1], user), es[|es| - 1];
            Solo(cfg, es, user) == if last.Request? && last.user == user
                                   then Some(Next(cfg, before, last.first, last.second)) else before
  {
    var own, last := OfUser(es[..|es| - 1], user), es[|es| - 1];
    if last.Request? && last.user == user {
      assert (own + [last])[..|own|] == own;
    } else {
      assert own + [] == own;
    }
  }

  /** A sweep can only have dropped a window that is over. */
  lemma {:induction false} SweptOrSame(cfg: Config, es: seq<Event>, user: Key)
    requires Timed(es)
    ensures var here, solo := Lookup(After(cfg, es), user), Solo(cfg, es, user);
            here == solo || (here.None? && solo.Some? && es != [] && IsOver(solo.value, Last(es[|es| - 1])))
  {
    if es != [] {
      SweptOrSame(cfg, es[..|es| - 1], user);
      SoloSnoc(cfg, es, user);
    }
  }

  /**
   Sweeps and other users are invisible: a request is answered exactly as it would be by a
   limiter that had served this user alone and never swept.
   */
  lemma OnlyOwnRequestsMatter(cfg: Config, es: seq<Event>, n: nat)
    requires Timed(es) && n < |es| && es[n].Request?
    ensures IsAllowed(cfg, At(cfg, es, n), es[n]) <==> IsAllowed(cfg, After(cfg, OfUser(es[..n], es[n].user)), es[n])
  {
    SweptOrSame(cfg, es[..n], es[n].user);
  }

  // ---- how many requests get through ----

  /** Event i is a request of the user, stamped in [lo, hi], that is let through. */
  predicate Counts(cfg: Config, es: seq<Event>, i: nat, user: Key, lo: int, hi: int)
    requires i < |es|
  {
    es[i].Request? && es[i].user == user && lo <= es[i].first <= hi && IsAllowed(cfg, At(cfg, es, i), es[i])
  }

  function AllowedIn(cfg: Config, es: seq<Event>, n: nat, user: Key, lo: int, hi: int): nat
    requires n <= |es|
  {
    if n == 0 then 0
    else AllowedIn(cfg, es, n - 1, user, lo, hi) + if Counts(cfg, es, n - 1, user, lo, hi) then 1 else 0
  }

  lemma SoloAt(cfg: Config, es: seq<Event>, n: nat, user: Key)
    requires n < |es|
    ensures var before := Solo(cfg, es[..n], user);
            Solo(cfg, es[..n + 1], user) == if es[n].Request? && es[n].user == user
                                            then Some(Next(cfg, before, es[n].first, es[n].second)) else before
  {
    assert es[..n + 1][..n] == es[..n];
    SoloSnoc(cfg, es[..n + 1], user);
  }

  lemma CountsSolo(cfg: Config, es: seq<Event>, i: nat, user: Key, lo: int, hi: int)
    requires i < |es| && Timed(es)
    ensures Counts(cfg, es, i, user, lo, hi) <==>
              es[i].Request? && es[i].user == user && lo <= es[i].first <= hi
              && Next(cfg, Solo(cfg, es[..i], user), es[i].first, es[i].second).count <= cfg.maxReqs
  {
    if es[i].Request? {
      OnlyOwnRequestsMatter(cfg, es, i);
    }
  }

  /** The most that gets through within k windows. */
  function MostWithin(cfg: Config, k: nat): int {
    if k > 0 && cfg.maxReqs > 0 then (k + 1) * cfg.maxReqs - 1 else (k + 1) * Max(0, cfg.maxReqs)
  }

  /**
   Windows finished since the first request at or after lo that got through, and whether that
   request opened its window: if not, the one that did got through before lo.
   */
  predicate Accounts(cfg: Config, solo: Option<Window>, allowed: nat, lo: int, windows: nat, opens: bool) {
    var cap := Max(0, cfg.maxReqs);
    && (allowed == 0 ==> windows == 0)
    && (allowed > 0 ==>
          solo.Some? && cap > 0
          && solo.value.resetAt >= lo + windows * cfg.window + (if opens then cfg.window else 0)
          && (windows > 0 ==> solo.value.resetAt > lo + windows * cfg.window + (if opens then cfg.window else 0))
          && allowed <= windows * cap + Min(solo.value.count, cap) - (if opens then 0 else 1))
  }

  predicate Opened(cfg: Config, solo: Option<Window>, now: int) {
    solo.Some? ==> solo.value.count > 0 && solo.value.resetAt - cfg.window <= now
  }

  /** With at most k windows before the one in hand, or k - 1 if the first was opened since lo. */
  lemma FewEnough(cfg: Config, allowed: int, windows: nat, opens: bool, k: nat)
    requires cfg.maxReqs > 0 && allowed <= windows * cfg.maxReqs + cfg.maxReqs - (if opens then 0 else 1)
    requires windows == 0 || windows + (if opens then 1 else 0) <= k
    ensures allowed <= MostWithin(cfg, k)
  {
    var cap := cfg.maxReqs;
    OneMore(k, cap);
    if windows == 0 {
      ScaleUp(0, k, cap);
      if k > 0 {
        ScaleUp(1, k, cap);
      }
    } else if opens {
      ScaleUp(windows + 1, k, cap);
      OneMore(windows, cap);
    } else {
      ScaleUp(windows, k, cap);
    }
  }

  /** A request within the stretch that the window in force lets through. */
  lemma SameWindow(cfg: Config, solo: Option<Window>, e: Event, allowed: nat, windows: nat, opens: bool, lo: int,
                   k: nat)
    requires e.Request? && solo.Some? && !IsOver(solo.value, e.first)
    requires Accounts(cfg, solo, allowed, lo, windows, opens) && Opened(cfg, solo, e.first) && allowed > 0
    requires lo <= e.first <= lo + k * cfg.window && solo.value.count + 1 <= cfg.maxReqs
    ensures allowed + 1 <= MostWithin(cfg, k)
  {
    if windows > 0 {
      OneMore(windows - 1, cfg.window);
      if opens {
        OneMore(windows, cfg.window);
        CancelFactor(windows, k, cfg.window);
      } else {
        CancelFactor(windows - 1, k, cfg.window);
      }
    }
    FewEnough(cfg, allowed + 1, windows, opens, k);
  }

  /** A request within the stretch that opens a new window after others. */
  lemma NewWindow(cfg: Config, solo: Option<Window>, e: Event, allowed: nat, windows: nat, opens: bool, lo: int, k: nat)
    requires e.Request? && solo.Some? && IsOver(solo.value, e.first)
    requires Accounts(cfg, solo, allowed, lo, windows, opens) && allowed > 0
    requires lo <= e.first <= lo + k * cfg.window
    ensures allowed + 1 <= MostWithin(cfg, k)
  {
    if opens {
      OneMore(windows, cfg.window);
      CancelFactor(windows + 1, k, cfg.window);
    } else {
      CancelFactor(windows, k, cfg.window);
    }
    OneMore(windows, cfg.maxReqs);
    FewEnough(cfg, allowed + 1, windows + 1, opens, k);
  }

  lemma OneMoreRequest(cfg: Config, solo: Option<Window>, e: Event, allowed: nat, windows: nat, opens: bool, lo: int,
                       k: nat)
    returns (windows': nat, opens': bool)
    requires e.Request? && e.first <= e.second
    requires Accounts(cfg, solo, allowed, lo, windows, opens) && Opened(cfg, solo, e.first)
    requires allowed <= MostWithin(cfg, k)
    ensures var next := Next(cfg, solo, e.first, e.second);
            var counted := lo <= e.first <= lo + k * cfg.window && next.count <= cfg.maxReqs;
            var allowed' := allowed + if counted then 1 else 0;
            && Accounts(cfg, Some(next), allowed', lo, windows', opens')
            && Opened(cfg, Some(next), e.second)
            && allowed' <= MostWithin(cfg, k)
  {
    var next := Next(cfg, solo, e.first, e.second);
    var counted := lo <= e.first <= lo + k * cfg.window && next.count <= cfg.maxReqs;
    var isNew := solo.None? || IsOver(solo.value, e.first);
    if allowed == 0 {
      windows', opens' := 0, isNew;
      if counted {
        FewEnough(cfg, 1, 0, true, k);
      }
    } else if isNew {
      windows', opens' := windows + 1, opens;
      OneMore(windows, cfg.maxReqs);
      OneMore(windows, cfg.window);
      if counted {
        NewWindow(cfg, solo, e, allowed, windows, opens, lo, k);
      }
    } else {
      windows', opens' := windows, opens;
      if counted {
        SameWindow(cfg, solo, e, allowed, windows, opens, lo, k);
      }
    }
  }

  lemma {:induction false} WindowsSince(cfg: Config, es: seq<Event>, n: nat, user: Key, lo: int, k: nat)
    returns (windows: nat, opens: bool)
    requires n <= |es| && Timed(es)
    ensures var allowed := AllowedIn(cfg, es, n, user, lo, lo + k * cfg.window);
            && Accounts(cfg, Solo(cfg, es[..n], user), allowed, lo, windows, opens)
            && allowed <= MostWithin(cfg, k)
    ensures if n == 0 then Solo(cfg, es[..n], user).None? else Opened(cfg, Solo(cfg, es[..n], user), Last(es[n - 1]))
  {
    if n == 0 {
      windows, opens := 0, false;
      assert es[..0] == [];
      ScaleUp(1, k + 1, Max(0, cfg.maxReqs));
    } else {
      windows, opens := WindowsSince(cfg, es, n - 1, user, lo, k);
      var e, hi := es[n - 1], lo + k * cfg.window;
      var solo, allowed := Solo(cfg, es[..n - 1], user), AllowedIn(cfg, es, n - 1, user, lo, hi);
      SoloAt(cfg, es, n - 1, user);
      CountsSolo(cfg, es, n - 1, user, lo, hi);
      if e.Request? && e.user == user {
        windows, opens := OneMoreRequest(cfg, solo, e, allowed, windows, opens, lo, k);
      } else {
        assert Solo(cfg, es[..n], user) == solo && AllowedIn(cfg, es, n, user, lo, hi) == allowed;
      }
    }
  }

  /**
   In any stretch of k windows, from any moment on, one less than k + 1 times the limit gets
   through at most, whatever the other users and the sweeps do: a first window that lets its
   whole limit through in the stretch was opened in it, and leaves no room for k more.
   */
  lemma AtMostOneExtraWindow(cfg: Config, es: seq<Event>, user: Key, from: Time, k: nat)
    requires Timed(es)
    ensures AllowedIn(cfg, es, |es|, user, from, from + k * cfg.window) <= MostWithin(cfg, k)
    ensures MostWithin(cfg, k) <= (k + 1) * Max(0, cfg.maxReqs)
  {
    var _, _ := WindowsSince(cfg, es, |es|, user, from, k);
  }

  // ---- a run that lets as many through ----

  predicate OneReading(es: seq<Event>) {
    forall i | 0 <= i < |es| && es[i].Request? :: es[i].first == es[i].second
  }

  /** Requests of user 0 alone, up to now, that leave this window and got so many through in [lo, hi]. */
  predicate Stands(cfg: Config, es: seq<Event>, w: Option<Window>, now: Time, lo: int, hi: int, allowed: nat) {
    && Timed(es) && OneReading(es) && (es != [] ==> Last(es[|es| - 1]) <= now)
    && After(cfg, es) == (if w.None? then map[] else map[0 := w.value])
    && AllowedIn(cfg, es, |es|, 0, lo, hi) == allowed
  }

  lemma {:induction false} AllowedOfPrefix(cfg: Config, es: seq<Event>, e: Event, n: nat, user: Key, lo: int, hi: int)
    requires n <= |es|
    ensures AllowedIn(cfg, es + [e], n, user, lo, hi) == AllowedIn(cfg, es, n, user, lo, hi)
  {
    if n > 0 {
      AllowedOfPrefix(cfg, es, e, n - 1, user, lo, hi);
      assert (es + [e])[..n - 1] == es[..n - 1];
    }
  }

  lemma Ask(cfg: Config, es: seq<Event>, w: Option<Window>, now: Time, t: Time, lo: int, hi: int, allowed: nat)
    requires Stands(cfg, es, w, now, lo, hi, allowed) && now <= t
    ensures var next := Next(cfg, w, t, t);
            Stands(cfg, es + [Request(0, t, t)], Some(next), t, lo, hi,
                   allowed + if lo <= t <= hi && next.count <= cfg.maxReqs then 1 else 0)
  {
    var e, next := Request(0, t, t), Next(cfg, w, t, t);
    var fs := es + [e];
    assert After(cfg, fs) == map[0 := next] by {
      Runs.Extend(Stepper(cfg), map[], es, e);
    }
    AllowedOfPrefix(cfg, es, e, |es|, 0, lo, hi);
    assert fs[..|es|] == es && fs[|es|] == e;
    assert Counts(cfg, fs, |es|, 0, lo, hi) <==> lo <= t <= hi && next.count <= cfg.maxReqs;
  }

  /** Further requests at one moment, within the window and its limit. */
  lemma {:induction false} AskAgain(cfg: Config, es: seq<Event>, w: Window, m: nat, t: Time, lo: int, hi: int,
                                    allowed: nat)
    returns (fs: seq<Event>)
    requires Stands(cfg, es, Some(w), t, lo, hi, allowed) && !IsOver(w, t) && lo <= t <= hi
    requires w.count + m <= cfg.maxReqs
    ensures Stands(cfg, fs, Some(w.(count := w.count + m)), t, lo, hi, allowed + m)
  {
    fs := es;
    if m > 0 {
      fs := AskAgain(cfg, es, w, m - 1, t, lo, hi, allowed);
      Ask(cfg, fs, Some(w.(count := w.count + m - 1)), t, t, lo, hi, allowed + m - 1);
      fs := fs + [Request(0, t, t)];
    }
  }

  /** A whole limit at one moment, in a window of its own. */
  lemma FillWindow(cfg: Config, es: seq<Event>, w: Option<Window>, now: Time, t: Time, lo: int, hi: int, allowed: nat)
    returns (fs: seq<Event>)
    requires Stands(cfg, es, w, now, lo, hi, allowed) && now <= t && lo <= t <= hi && cfg.maxReqs > 0
    requires w.Some? ==> IsOver(w.value, t)
    ensures Stands(cfg, fs, Some(Window(cfg.maxReqs, t + cfg.window)), t, lo, hi, allowed + cfg.maxReqs)
  {
    Ask(cfg, es, w, now, t, lo, hi, allowed);
    fs := AskAgain(cfg, es + [Request(0, t, t)], Window(1, t + cfg.window), cfg.maxReqs - 1, t, lo, hi, allowed + 1);
  }

  lemma InTime(j: nat, k: nat, window: nat)
    requires j <= k <= window
    ensures j * (window + 1) <= window + k * window
  {
    ScaleUp(j, k, window);
    assert j * (window + 1) == j * window + j;
  }

  /** One request at 0, the rest of the limit as its window ends, and then j whole windows. */
  lemma {:induction false} FillWindows(cfg: Config, j: nat, k: nat) returns (es: seq<Event>)
    requires cfg.maxReqs > 0 && j <= k <= cfg.window && cfg.window > 0
    ensures var t := if j == 0 then cfg.window else j * (cfg.window + 1);
            Stands(cfg, es, Some(Window(cfg.maxReqs, j * (cfg.window + 1) + cfg.window)), t,
                   cfg.window, cfg.window + k * cfg.window, (j + 1) * cfg.maxReqs - 1)
    decreases j
  {
    var lo, hi := cfg.window, cfg.window + k * cfg.window;
    if j == 0 {
      ScaleUp(0, k, cfg.window);
      Ask(cfg, [], None, 0, 0, lo, hi, 0);
      es := AskAgain(cfg, [] + [Request(0, 0, 0)], Window(1, cfg.window), cfg.maxReqs - 1, cfg.window, lo, hi, 0);
    } else {
      OneMore(j - 1, cfg.window + 1);
      OneMore(j, cfg.maxReqs);
      InTime(j, k, cfg.window);
      ScaleUp(1, j, cfg.window + 1);
      ScaleUp(1, j, cfg.maxReqs);
      es := FillWindows(cfg, j - 1, k);
      var now := if j == 1 then cfg.window else (j - 1) * (cfg.window + 1);
      es := FillWindow(cfg, es, Some(Window(cfg.maxReqs, (j - 1) * (cfg.window + 1) + cfg.window)), now,
                       j * (cfg.window + 1), lo, hi, j * cfg.maxReqs - 1);
    }
  }

  /** The bound is sharp, up to as many windows as a window has instants. */
  lemma TheBoundIsReached(cfg: Config, k: nat) returns (es: seq<Event>)
    requires k <= cfg.window
    ensures Timed(es) && OneReading(es)
    ensures AllowedIn(cfg, es, |es|, 0, cfg.window, cfg.window + k * cfg.window) == MostWithin(cfg, k)
  {
    var t := cfg.window;
    if cfg.maxReqs <= 0 {
      es := [];
    } else if k == 0 {
      es := FillWindow(cfg, [], None, 0, t, t, t, 0);
    } else {
      es := FillWindows(cfg, k, k);
    }
  }

  // ---- denials ----

  /** The stamps of a user's own window: it opened one window length before it resets. */
  predicate SoloStamped(cfg: Config, solo: Option<Window>, now: int) {
    solo.Some? ==> solo.value.count > 0 && 0 <= solo.value.resetAt - cfg.window <= now
  }

  /** No request of the user is stamped after its window resets. */
  lemma {:induction false} NothingAfterReset(cfg: Config, es: seq<Event>, n: nat, user: Key, lo: int, hi: int)
    requires n <= |es| && Timed(es)
    requires Solo(cfg, es[..n], user).None? || Solo(cfg, es[..n], user).value.resetAt < lo
    ensures AllowedIn(cfg, es, n, user, lo, hi) == 0
  {
    if n > 0 {
      SoloAt(cfg, es, n - 1, user);
      NothingAfterReset(cfg, es, n - 1, user, lo, hi);
    }
  }

  /** The window in force before n, and how many requests it has let through up to hi. */
  predicate LetsThrough(cfg: Config, es: seq<Event>, n: nat, user: Key, hi: int)
    requires n <= |es|
  {
    var solo := Solo(cfg, es[..n], user);
    solo.Some? ==>
      AllowedIn(cfg, es, n, user, solo.value.resetAt - cfg.window, hi)
      == Min(solo.value.count, Max(0, cfg.maxReqs))
  }

  /** A window opens when the request that opens it is stamped. */
  lemma {:induction false} WindowIsStamped(cfg: Config, es: seq<Event>, n: nat, user: Key)
    requires n <= |es| && Timed(es) && OneReading(es)
    ensures if n == 0 then Solo(cfg, es[..n], user).None?
            else SoloStamped(cfg, Solo(cfg, es[..n], user), Last(es[n - 1]))
  {
    if n == 0 {
      assert es[..0] == [];
    } else {
      WindowIsStamped(cfg, es, n - 1, user);
      SoloAt(cfg, es, n - 1, user);
    }
  }

  lemma RequestLetsThrough(cfg: Config, es: seq<Event>, n: nat, user: Key, hi: int)
    requires n < |es| && Timed(es) && OneReading(es) && Last(es[n]) <= hi
    requires es[n].Request? && es[n].user == user
    requires LetsThrough(cfg, es, n, user, hi)
    ensures LetsThrough(cfg, es, n + 1, user, hi)
  {
    var e, before := es[n], Solo(cfg, es[..n], user);
    SoloAt(cfg, es, n, user);
    WindowIsStamped(cfg, es, n, user);
    WindowIsStamped(cfg, es, n + 1, user);
    var after := Solo(cfg, es[..n + 1], user).value;
    CountsSolo(cfg, es, n, user, after.resetAt - cfg.window, hi);
    if before.None? || IsOver(before.value, e.first) {
      NothingAfterReset(cfg, es, n, user, e.first, hi);
    }
  }

  /** Since it opened, a window has let through its count, up to the limit. */
  lemma {:induction false} WindowLetsThrough(cfg: Config, es: seq<Event>, n: nat, user: Key, hi: int)
    requires n <= |es| && Timed(es) && OneReading(es)
    requires n > 0 ==> Last(es[n - 1]) <= hi
    ensures LetsThrough(cfg, es, n, user, hi)
  {
    WindowIsStamped(cfg, es, n, user);
    if n > 0 {
      WindowLetsThrough(cfg, es, n - 1, user, hi);
      if es[n - 1].Request? && es[n - 1].user == user {
        RequestLetsThrough(cfg, es, n - 1, user, hi);
      } else {
        SoloAt(cfg, es, n - 1, user);
      }
    }
  }

  /**
   A denied request was preceded by the full limit of let-through requests of its user, all
   within one window length: exactly the limit since the moment the window opened.
   */
  lemma DenialsAreEarned(cfg: Config, es: seq<Event>, n: nat) returns (openedAt: int)
    requires Timed(es) && OneReading(es) && n < |es| && es[n].Request?
    requires !IsAllowed(cfg, At(cfg, es, n), es[n])
    ensures es[n].first - cfg.window <= openedAt <= es[n].first
    ensures AllowedIn(cfg, es, n, es[n].user, openedAt, es[n].first) == Max(0, cfg.maxReqs)
  {
    var e := es[n];
    OnlyOwnRequestsMatter(cfg, es, n);
    WindowIsStamped(cfg, es, n, e.user);
    WindowLetsThrough(cfg, es, n, e.user, e.first);
    var solo := Solo(cfg, es[..n], e.user);
    if solo.None? || IsOver(solo.value, e.first) {
      openedAt := e.first;
      NothingAfterReset(cfg, es, n, e.user, e.first, e.first);
    } else {
      openedAt := solo.value.resetAt - cfg.window;
    }
  }

  lemma {:induction false} AllowedWidens(cfg: Config, es: seq<Event>, n: nat, user: Key, lo: int, lo': int, hi: int)
    requires n <= |es| && lo' <= lo
    ensures AllowedIn(cfg, es, n, user, lo, hi) <= AllowedIn(cfg, es, n, user, lo', hi)
  {
    if n > 0 {
      AllowedWidens(cfg, es, n - 1, user, lo, lo', hi);
    }
  }

  /** A user with fewer than the limit let through in the last window length is never denied. */
  lemma BelowTheLimitIsNeverDenied(cfg: Config, es: seq<Event>, n: nat)
    requires Timed(es) && OneReading(es) && n < |es| && es[n].Request?
    requires AllowedIn(cfg, es, n, es[n].user, es[n].first - cfg.window, es[n].first) < cfg.maxReqs
    ensures IsAllowed(cfg, At(cfg, es, n), es[n])
  {
    if !IsAllowed(cfg, At(cfg, es, n), es[n]) {
      var openedAt := DenialsAreEarned(cfg, es, n);
      AllowedWidens(cfg, es, n, es[n].user, openedAt, es[n].first - cfg.window, es[n].first);
    }
  }

  const TWO_PER_TEN := Config(2, 10)
  const BURST: seq<Event> := [Request(0, 0, 0), Request(0, 9, 9), Request(0, 11, 11), Request(0, 11, 11),
                              Request(0, 12, 12)]

  lemma BurstWindows()
    ensures At(TWO_PER_TEN, BURST, 0) == map[] && At(TWO_PER_TEN, BURST, 1) == map[0 := Window(1, 10)]
    ensures At(TWO_PER_TEN, BURST, 2) == map[0 := Window(2, 10)] && At(TWO_PER_TEN, BURST, 3) == map[0 := Window(1, 21)]
    ensures At(TWO_PER_TEN, BURST, 4) == map[0 := Window(2, 21)]
  {
    Runs.Prefix(Stepper(TWO_PER_TEN), map[], BURST, 0);
    Runs.Prefix(Stepper(TWO_PER_TEN), map[], BURST, 1);
    Runs.Prefix(Stepper(TWO_PER_TEN), map[], BURST, 2);
    Runs.Prefix(Stepper(TWO_PER_TEN), map[], BURST, 3);
  }

  /**
   The limiter is described as a sliding window and is a fixed one: with a limit of 2 per 10,
   the request denied at 12 has three let-through requests in the 10 before it.
   */
  lemma MoreThanTheLimitInASlidingWindow()
    ensures Timed(BURST) && OneReading(BURST) && BURST[4] == Request(0, 12, 12)
    ensures !IsAllowed(TWO_PER_TEN, At(TWO_PER_TEN, BURST, 4), BURST[4])
    ensures AllowedIn(TWO_PER_TEN, BURST, 4, 0, 2, 12) == 3
  {
    BurstWindows();
    assert AllowedIn(TWO_PER_TEN, BURST, 1, 0, 2, 12) == 0;
    assert AllowedIn(TWO_PER_TEN, BURST, 2, 0, 2, 12) == 1;
    assert AllowedIn(TWO_PER_TEN, BURST, 3, 0, 2, 12) == 2;
  }

  // ---- when the limit holds in every stretch of one window ----

  /** Requests of the user let through in the one window length from lo on. */
  function AllowedFrom(cfg: Config, es: seq<Event>, user: Key, lo: Time): nat {
    AllowedIn(cfg, es, |es|, user, lo, lo + cfg.window)
  }

  /** What a sliding window promises. */
  ghost predicate KeepsTheLimitAnywhere(cfg: Config) {
    forall es, user, lo: Time | Timed(es) :: AllowedFrom(cfg, es, user, lo) <= Max(0, cfg.maxReqs)
  }

  /**
   The limiter keeps its limit in every stretch of one window exactly when the limit is at most
   one or the window is empty: whichever the run, the user and the moment.
   */
  lemma SlidingLimitExactly(cfg: Config)
    ensures KeepsTheLimitAnywhere(cfg) <==> cfg.maxReqs <= 1 || cfg.window == 0
  {
    if cfg.maxReqs <= 1 || cfg.window == 0 {
      forall es, user, lo: Time | Timed(es) ensures AllowedFrom(cfg, es, user, lo) <= Max(0, cfg.maxReqs) {
        AtMostOneExtraWindow(cfg, es, user, lo, if cfg.window == 0 then 0 else 1);
      }
    } else {
      var es := TheBoundIsReached(cfg, 1);
      assert AllowedFrom(cfg, es, 0, cfg.window) == 2 * cfg.maxReqs - 1;
    }
  }

  // ---- the limiter itself ----

  class UserRateLimiter {
    var users: Users
    const maxReqs: int
    const window: Time

    constructor (maxReqs: int, window: Time)
      ensures users == map[] && Settings() == Config(maxReqs, window)
    {
      users := map[];
      this.maxReqs, this.window := maxReqs, window;
    }

    function Settings(): Config {
      Config(maxReqs, window)
    }

    /** A request without a user is not limited. */
    method Middleware(user: Option<Key>, first: Time, second: Time) returns (allowed: bool, remaining: int)
      modifies this
      ensures user.None? ==> allowed && users == old(users)
      ensures user.Some? ==>
                var e := Request(user.value, first, second);
                && users == Step(Settings(), old(users), e)
                && (allowed <==> IsAllowed(Settings(), old(users), e))
                && remaining == Max(0, maxReqs - users[user.value].count)
    {
      if user.None? {
        return true, maxReqs;
      }
      var key := user.value;
      if key !in users || first > users[key].resetAt {
        users := users[key := Window(0, second + window)];
      }
      users := users[key := users[key].(count := users[key].count + 1)];
      allowed := users[key].count <= maxReqs;
      remaining := maxReqs - users[key].count;
      if remaining < 0 {
        remaining := 0;
      }
    }

    method Cleanup(at: Time)
      modifies this
      ensures users == Step(Settings(), old(users), Sweep(at))
      ensures forall u :: u in users <==> u in old(users) && at <= old(users)[u].resetAt
      ensures forall u | u in users :: users[u] == old(users)[u]
    {
      var todo := users.Keys;
      while todo != {}
        invariant todo <= users.Keys <= old(users).Keys
        invariant forall u | u in users :: users[u] == old(users)[u]
        invariant forall u | u in old(users) && u !in todo :: u in users <==> !IsOver(old(users)[u], at)
        decreases todo
      {
        var key :| key in todo;
        todo := todo - {key};
        if at > users[key].resetAt {
          users := users - {key};
        }
      }
    }
  }
}
