/**
 The Redis lock: SETNX with a time to live, compare-and-delete release, and a bounded
 retry loop.  Any number of clients, keys and tokens; the clock never goes back.
 */
module DistLock {
  import opened Common
  import Runs

  type Key = nat
  type Token = nat

  /** A key set with a time to live of 0 has no expiry. */
  datatype Entry = Entry(token: Token, expiry: Option<Time>)

  datatype State = State(entries: map<Key, Entry>, now: Time)

  datatype Event =
    | SetNX(key: Key, token: Token, ttl: Time)
    | Release(key: Key, token: Token)
    | Tick(to: Time)

  const EMPTY := State(map[], 0)

  function ExpiryAfter(now: Time, ttl: Time): Option<Time> {
    if ttl == 0 then None else Some(now + ttl)
  }

  predicate IsPast(expiry: Option<Time>, now: Time) {
    expiry.Some? && expiry.value <= now
  }

  /** A key past its expiry is gone, whether or not it was swept. */
  predicate IsLive(s: State, key: Key) {
    key in s.entries && !IsPast(s.entries[key].expiry, s.now)
  }

  predicate IsHeldBy(s: State, key: Key, token: Token) {
    IsLive(s, key) && s.entries[key].token == token
  }

  function Step(s: State, e: Event): State {
    match e
    case SetNX(key, token, ttl) =>
      if IsLive(s, key) then s else s.(entries := s.entries[key := Entry(token, ExpiryAfter(s.now, ttl))])
    case Release(key, token) =>
      if IsHeldBy(s, key, token) then s.(entries := s.entries - {key}) else s
    case Tick(to) =>
      if s.now <= to then s.(now := to) else s
  }

  function After(s: State, es: seq<Event>): State {
    Runs.After(Step, s, es)
  }

  function At(es: seq<Event>, i: nat): State
    requires i <= |es|
  {
    After(EMPTY, es[..i])
  }

  // ---- leases ----

  /** Event i is a SETNX that answered true. */
  predicate Acquires(es: seq<Event>, i: nat, key: Key)
    requires i < |es|
  {
    es[i].SetNX? && es[i].key == key && !IsLive(At(es, i), key)
  }

  function ExpiryOf(es: seq<Event>, i: nat): Option<Time>
    requires i < |es| && es[i].SetNX?
  {
    ExpiryAfter(At(es, i).now, es[i].ttl)
  }

  /** The client that acquired at event i has not released its token before event n. */
  predicate Unreleased(es: seq<Event>, i: nat, n: nat, key: Key)
    requires i < |es| && es[i].SetNX? && n <= |es|
  {
    forall k | i < k < n :: es[k] != Release(key, es[i].token)
  }

  /** Acquired at i, neither released nor expired just before event n. */
  predicate IsLease(es: seq<Event>, i: nat, n: nat, key: Key)
    requires n <= |es|
  {
    i < n && Acquires(es, i, key) && Unreleased(es, i, n, key) && !IsPast(ExpiryOf(es, i), At(es, n).now)
  }

  lemma {:induction false} ClockAdvances(es: seq<Event>, i: nat, n: nat)
    requires i <= n <= |es|
    ensures At(es, i).now <= At(es, n).now
    decreases n
  {
    if i < n {
      ClockAdvances(es, i, n - 1);
      Runs.Prefix(Step, EMPTY, es, n - 1);
    }
  }

  /** A lease is what the store holds, until it is released or runs out: nobody else can take it away. */
  lemma {:induction false} LeaseIsStored(es: seq<Event>, i: nat, n: nat, key: Key)
    requires n <= |es| && IsLease(es, i, n, key)
    ensures key in At(es, n).entries && At(es, n).entries[key] == Entry(es[i].token, ExpiryOf(es, i))
    decreases n
  {
    Runs.Prefix(Step, EMPTY, es, n - 1);
    if i < n - 1 {
      ClockAdvances(es, n - 1, n);
      LeaseIsStored(es, i, n - 1, key);
      assert es[n - 1] != Release(key, es[i].token);
    }
  }

  /** What the store holds is a lease. */
  lemma {:induction false} StoredIsALease(es: seq<Event>, n: nat, key: Key) returns (i: nat)
    requires n <= |es| && IsLive(At(es, n), key)
    ensures IsLease(es, i, n, key)
    ensures At(es, n).entries[key] == Entry(es[i].token, ExpiryOf(es, i))
  {
    Runs.Prefix(Step, EMPTY, es, n - 1);
    if Acquires(es, n - 1, key) {
      i := n - 1;
    } else {
      ClockAdvances(es, n - 1, n);
      i := StoredIsALease(es, n - 1, key);
    }
  }

  /** SETNX succeeds exactly when no lease on the key is outstanding. */
  lemma AcquiresExactlyWhenNoLease(es: seq<Event>, n: nat, key: Key)
    requires n < |es| && es[n].SetNX? && es[n].key == key
    ensures Acquires(es, n, key) <==> forall i | 0 <= i < n :: !IsLease(es, i, n, key)
  {
    if IsLive(At(es, n), key) {
      var i := StoredIsALease(es, n, key);
    } else {
      forall i | 0 <= i < n && IsLease(es, i, n, key) ensures false {
        LeaseIsStored(es, i, n, key);
      }
    }
  }

  /**
   Mutual exclusion up to the time to live: if a client acquires while an earlier holder is
   still inside its critical section, the lock has a time to live and that section has already
   lasted all of it.
   */
  lemma OverlapMeansExpired(es: seq<Event>, i: nat, j: nat, key: Key)
    requires i < j < |es| && Acquires(es, i, key) && Acquires(es, j, key)
    requires Unreleased(es, i, j, key)
    ensures At(es, j).now - At(es, i).now >= es[i].ttl > 0
  {
    AcquiresExactlyWhenNoLease(es, j, key);
    assert !IsLease(es, i, j, key);
  }

  /** The client that acquired at i is still inside when another acquires at j. */
  predicate Overlaps(es: seq<Event>, i: nat, j: nat, key: Key) {
    i < j < |es| && Acquires(es, i, key) && Acquires(es, j, key) && Unreleased(es, i, j, key)
  }

  /**
   Somebody asks for the key at j, with or without success, while the client of i is inside past
   its time to live.
   */
  predicate AsksPastExpiry(es: seq<Event>, i: nat, j: nat, key: Key) {
    && i < j < |es| && Acquires(es, i, key) && Unreleased(es, i, j, key)
    && es[j].SetNX? && es[j].key == key && IsPast(ExpiryOf(es, i), At(es, j).now)
  }

  /** An attempt after a holder's expiry finds the key free, or taken since by yet another client. */
  lemma AskingPastExpiryOverlaps(es: seq<Event>, i: nat, j: nat, key: Key) returns (k: nat)
    requires AsksPastExpiry(es, i, j, key)
    ensures Overlaps(es, i, k, key)
  {
    k := j;
    if IsLive(At(es, j), key) {
      k := StoredIsALease(es, j, key);
      if k < i {
        ClockAdvances(es, i, j);
        assert IsLease(es, k, i, key);
        AcquiresExactlyWhenNoLease(es, i, key);
      }
    }
  }

  /**
   Mutual exclusion over a whole run: two critical sections overlap somewhere exactly when
   somewhere the key is asked for while a holder is inside past its time to live.
   */
  lemma ExclusionFailsExactly(es: seq<Event>, key: Key)
    ensures (exists i: nat, j: nat :: Overlaps(es, i, j, key))
            <==> (exists i: nat, j: nat :: AsksPastExpiry(es, i, j, key))
  {
    if i: nat, j: nat :| Overlaps(es, i, j, key) {
      AcquiresExactlyWhenNoLease(es, j, key);
      assert !IsLease(es, i, j, key);
      assert AsksPastExpiry(es, i, j, key);
    }
    if i: nat, j: nat :| AsksPastExpiry(es, i, j, key) {
      var k := AskingPastExpiryOverlaps(es, i, j, key);
    }
  }

  /** At no time are there two leases on one key. */
  lemma OneLease(es: seq<Event>, i: nat, j: nat, n: nat, key: Key)
    requires n <= |es| && IsLease(es, i, n, key) && IsLease(es, j, n, key)
    ensures i == j
  {
    if i != j {
      var a, b := if i < j then i else j, if i < j then j else i;
      ClockAdvances(es, b, n);
      assert IsLease(es, a, b, key);
      AcquiresExactlyWhenNoLease(es, b, key);
    }
  }

  /** A release, however late, leaves every lease standing that is not its own. */
  lemma LateReleaseIsHarmless(es: seq<Event>, n: nat, i: nat, key: Key)
    requires n < |es| && es[n].Release? && IsLease(es, i, n, key)
    requires es[n] != Release(key, es[i].token)
    ensures IsLease(es, i, n + 1, key)
    ensures key in At(es, n + 1).entries && At(es, n + 1).entries[key] == Entry(es[i].token, ExpiryOf(es, i))
  {
    Runs.Prefix(Step, EMPTY, es, n);
    LeaseIsStored(es, i, n + 1, key);
  }

  /** Two clients inside the match section at once: the first outlived its five seconds. */
  lemma LockIsHeldTwice() returns (es: seq<Event>)
    ensures |es| == 3 && Acquires(es, 0, 7) && Acquires(es, 2, 7) && Unreleased(es, 0, |es|, 7)
    ensures es[0].token != es[2].token
  {
    es := [SetNX(7, 1, 5), Tick(5), SetNX(7, 2, 5)];
    Runs.Prefix(Step, EMPTY, es, 0);
    Runs.Prefix(Step, EMPTY, es, 1);
  }

  // ---- the retry loop ----

  /** One turn of the loop: does the command fail, is the context done, and what others do meanwhile. */
  datatype Turn = Turn(commandFails: bool, contextDone: bool, meanwhile: seq<Event>)

  /** How a retry loop ends: its answer, the attempts it made, and the store it leaves. */
  datatype Ending = Ended(answer: Result<bool, ()>, attempts: nat, store: State)

  /** The retry loop from attempt i on. */
  function Retry(command: Event, turns: nat -> Turn, i: nat, maxRetries: int, s: State): Ending
    requires command.SetNX?
    decreases maxRetries - i
  {
    if i >= maxRetries then Ended(Ok(false), i, s)
    else if turns(i).commandFails then Ended(Err(()), i + 1, s)
    else if !IsLive(s, command.key) then Ended(Ok(true), i + 1, Step(s, command))
    else if turns(i).contextDone then Ended(Err(()), i + 1, s)
    else Retry(command, turns, i + 1, maxRetries, After(s, turns(i).meanwhile))
  }

  /** The loop gives up only after all its attempts, and gets the lock only if the key is free. */
  lemma {:induction false} RetryAnswers(command: Event, turns: nat -> Turn, i: nat, maxRetries: int, s: State)
    requires command.SetNX? && i <= Max(0, maxRetries)
    ensures var end := Retry(command, turns, i, maxRetries, s);
            && i <= end.attempts <= Max(0, maxRetries)
            && (end.answer == Ok(false) ==> end.attempts == Max(0, maxRetries))
            && (end.answer == Ok(true) ==>
                  && i < end.attempts && command.key in end.store.entries
                  && end.store.entries[command.key] == Entry(command.token, ExpiryAfter(end.store.now, command.ttl)))
            && (end.answer.Err? ==>
                  i < end.attempts
                  && (turns(end.attempts - 1).commandFails || turns(end.attempts - 1).contextDone))
            && forall k | i <= k < end.attempts - 1 :: !turns(k).commandFails && !turns(k).contextDone
    decreases maxRetries - i
  {
    if i < maxRetries && !turns(i).commandFails && IsLive(s, command.key) && !turns(i).contextDone {
      RetryAnswers(command, turns, i + 1, maxRetries, After(s, turns(i).meanwhile));
    }
  }

  /** The store after k rounds of waiting from round i on, had none of our commands taken effect. */
  function Waited(s: State, turns: nat -> Turn, i: nat, k: nat): State
    requires i <= k
    decreases k - i
  {
    if i == k then s else Waited(After(s, turns(i).meanwhile), turns, i + 1, k)
  }

  /** Each round adds what others do during it. */
  lemma {:induction false} WaitedOnce(s: State, turns: nat -> Turn, i: nat, k: nat)
    requires i <= k
    ensures Waited(s, turns, i, k + 1) == After(Waited(s, turns, i, k), turns(k).meanwhile)
    decreases k - i
  {
    if i < k {
      WaitedOnce(After(s, turns(i).meanwhile), turns, i + 1, k);
    } else {
      assert Waited(After(s, turns(i).meanwhile), turns, i + 1, i + 1) == After(s, turns(i).meanwhile);
    }
  }

  /** Attempt k works, finds the key taken, and leaves time for another. */
  predicate GoesOn(command: Event, turns: nat -> Turn, s: State, i: nat, k: nat)
    requires command.SetNX? && i <= k
  {
    !turns(k).commandFails && IsLive(Waited(s, turns, i, k), command.key) && !turns(k).contextDone
  }

  /** The loop from attempt i on ends at the first attempt that does not go on, or after the last. */
  lemma {:induction false} RetryStops(command: Event, turns: nat -> Turn, i: nat, maxRetries: int, s: State)
    returns (k: nat)
    requires command.SetNX? && i <= maxRetries
    ensures i <= k <= maxRetries && forall j: nat | i <= j < k :: GoesOn(command, turns, s, i, j)
    ensures k < maxRetries ==> !GoesOn(command, turns, s, i, k)
    ensures Retry(command, turns, i, maxRetries, s)
            == if k == maxRetries then Ended(Ok(false), k, Waited(s, turns, i, k))
               else if !turns(k).commandFails && !IsLive(Waited(s, turns, i, k), command.key) then
                 Ended(Ok(true), k + 1, Step(Waited(s, turns, i, k), command))
               else Ended(Err(()), k + 1, Waited(s, turns, i, k))
    decreases maxRetries - i
  {
    k := i;
    if i < maxRetries && GoesOn(command, turns, s, i, i) {
      var s' := After(s, turns(i).meanwhile);
      k := RetryStops(command, turns, i + 1, maxRetries, s');
      forall j: nat | i < j <= k ensures Waited(s, turns, i, j) == Waited(s', turns, i + 1, j) {
      }
      forall j: nat | i <= j < k ensures GoesOn(command, turns, s, i, j) {
        assert j > i ==> GoesOn(command, turns, s', i + 1, j);
      }
    }
  }

  /**
   The loop takes a free key at the first attempt that finds one; it answers false only when
   every attempt found the key taken.  Otherwise a command failed or the context was done.
   */
  lemma RetryExactly(command: Event, turns: nat -> Turn, maxRetries: int, s: State)
    requires command.SetNX?
    ensures var end := Retry(command, turns, 0, maxRetries, s);
            && (end.answer == Ok(true) <==>
                  exists k: nat :: k < maxRetries
                    && !turns(k).commandFails && !IsLive(Waited(s, turns, 0, k), command.key)
                    && forall j: nat | j < k ::
                         !turns(j).commandFails && IsLive(Waited(s, turns, 0, j), command.key) && !turns(j).contextDone)
            && (end.answer == Ok(false) <==>
                  forall j: nat | j < maxRetries ::
                    !turns(j).commandFails && IsLive(Waited(s, turns, 0, j), command.key) && !turns(j).contextDone)
    ensures var end := Retry(command, turns, 0, maxRetries, s);
            end.answer == Ok(true) ==>
              && 0 < end.attempts <= maxRetries && !IsLive(Waited(s, turns, 0, end.attempts - 1), command.key)
              && end.store == Step(Waited(s, turns, 0, end.attempts - 1), command)
  {
    if maxRetries >= 0 {
      var k := RetryStops(command, turns, 0, maxRetries, s);
      forall j: nat | j < k
        ensures !turns(j).commandFails && IsLive(Waited(s, turns, 0, j), command.key) && !turns(j).contextDone
      {
        assert GoesOn(command, turns, s, 0, j);
      }
    }
  }

  /**
   Whatever others do, the loop is part of a run of the store: at most one of its commands
   takes effect, and that one is the acquisition it reports.
   */
  lemma {:induction false} RetryIsARun(command: Event, turns: nat -> Turn, i: nat, maxRetries: int, s: State)
    returns (others: seq<Event>)
    requires command.SetNX?
    ensures var end := Retry(command, turns, i, maxRetries, s);
            if end.answer == Ok(true) then
              !IsLive(After(s, others), command.key) && end.store == After(s, others + [command])
            else end.store == After(s, others)
    ensures forall e | e in others :: exists k :: i <= k && e in turns(k).meanwhile
    decreases maxRetries - i
  {
    others := [];
    if i < maxRetries && !turns(i).commandFails {
      if !IsLive(s, command.key) {
        Runs.Extend(Step, s, [], command);
      } else if !turns(i).contextDone {
        var here := turns(i).meanwhile;
        var rest := RetryIsARun(command, turns, i + 1, maxRetries, After(s, here));
        others := here + rest;
        Runs.Concat(Step, s, here, rest);
        Runs.Concat(Step, s, here, rest + [command]);
        assert others + [command] == here + (rest + [command]);
      }
    }
  }

  class Store {
    var entries: map<Key, Entry>
    var now: Time

    constructor ()
      ensures Abs() == EMPTY
    {
      entries, now := map[], 0;
    }

    function Abs(): State
      reads this
    {
      State(entries, now)
    }

    method Interfere(es: seq<Event>)
      modifies this
      ensures Abs() == After(old(Abs()), es)
    {
      var s := After(Abs(), es);
      entries, now := s.entries, s.now;
    }

    method SetNX(key: Key, token: Token, ttl: Time) returns (ok: bool)
      modifies this
      ensures ok <==> !IsLive(old(Abs()), key)
      ensures Abs() == Step(old(Abs()), Event.SetNX(key, token, ttl))
    {
      ok := !(key in entries && !IsPast(entries[key].expiry, now));
      if ok {
        entries := entries[key := Entry(token, ExpiryAfter(now, ttl))];
      }
    }

    /** The script: GET the key and DEL it if it still holds our token. */
    method CompareAndDelete(key: Key, token: Token) returns (deleted: nat)
      modifies this
      ensures deleted == if IsHeldBy(old(Abs()), key, token) then 1 else 0
      ensures Abs() == Step(old(Abs()), Event.Release(key, token))
    {
      deleted := 0;
      if key in entries && !IsPast(entries[key].expiry, now) && entries[key].token == token {
        entries := entries - {key};
        deleted := 1;
      }
    }
  }

  class Lock {
    const store: Store
    const key: Key
    const token: Token
    const ttl: Time

    constructor (store: Store, key: Key, token: Token, ttl: Time)
      ensures this.store == store && this.key == key && this.token == token && this.ttl == ttl
    {
      this.store, this.key, this.token, this.ttl := store, key, token, ttl;
    }

    method Acquire(commandFails: bool) returns (r: Result<bool, ()>)
      modifies store
      ensures store.Abs() == if commandFails then old(store.Abs()) else Step(old(store.Abs()), SetNX(key, token, ttl))
      ensures r == if commandFails then Err(()) else Ok(!IsLive(old(store.Abs()), key))
    {
      if commandFails {
        return Err(());
      }
      var ok := store.SetNX(key, token, ttl);
      r := Ok(ok);
    }

    method Release(commandFails: bool) returns (r: Result<(), ()>)
      modifies store
      ensures store.Abs() == if commandFails then old(store.Abs())
                             else Step(old(store.Abs()), Event.Release(key, token))
      ensures r == if commandFails then Err(()) else Ok(())
    {
      if commandFails {
        return Err(());
      }
      var _ := store.CompareAndDelete(key, token);
      r := Ok(());
    }

    /** Up to maxRetries attempts, with whatever others do in between. */
    method AcquireWithRetry(maxRetries: int, turns: nat -> Turn) returns (r: Result<bool, ()>, attempts: nat)
      modifies store
      ensures Ended(r, attempts, store.Abs()) == Retry(SetNX(key, token, ttl), turns, 0, maxRetries, old(store.Abs()))
      ensures r == Ok(true) <==>
                exists k: nat :: k < maxRetries
                  && !turns(k).commandFails && !IsLive(Waited(old(store.Abs()), turns, 0, k), key)
                  && forall j: nat | j < k ::
                       !turns(j).commandFails && IsLive(Waited(old(store.Abs()), turns, 0, j), key)
                       && !turns(j).contextDone
      ensures r == Ok(false) <==>
                forall j: nat | j < maxRetries ::
                  !turns(j).commandFails && IsLive(Waited(old(store.Abs()), turns, 0, j), key) && !turns(j).contextDone
      ensures r == Ok(true) ==>
                key in store.entries && store.entries[key] == Entry(token, ExpiryAfter(store.now, ttl))
    {
      ghost var s0 := store.Abs();
      RetryExactly(SetNX(key, token, ttl), turns, maxRetries, s0);
      attempts := 0;
      while attempts < maxRetries
        invariant Retry(SetNX(key, token, ttl), turns, attempts, maxRetries, store.Abs())
               == Retry(SetNX(key, token, ttl), turns, 0, maxRetries, s0)
        decreases maxRetries - attempts
      {
        var turn := turns(attempts);
        attempts := attempts + 1;
        var acquired := Acquire(turn.commandFails);
        if acquired.Err? {
          return Err(()), attempts;
        }
        if acquired.value {
          return Ok(true), attempts;
        }
        if turn.contextDone {
          return Err(()), attempts;
        }
        store.Interfere(turn.meanwhile);
      }
      r := Ok(false);
    }
  }
}
