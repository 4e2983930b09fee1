/**
 The notification hub: one event loop over registrations, unregistrations and broadcasts,
 with a bounded queue per client that is closed when the client is replaced or leaves.
 */
module Hub {
  import opened Common
  import Runs

  type Payload = nat

  /** Slots in a client's send channel. */
  const CAPACITY: nat := 256

  /** consumed is what the write pump has taken off the queue, oldest first. */
  datatype Channel = Channel(user: UserId, queue: seq<Payload>, isOpen: bool, consumed: seq<Payload>)

  /** C identifies a connection; a user may have many, one after the other. */
  datatype State<C(==)> = State(mapped: map<UserId, C>, channels: map<C, Channel>, stuck: bool, panicked: bool)

  datatype Event<C> =
    | Register(client: C, user: UserId)
    | Unregister(client: C)
    | Broadcast(user: UserId, payload: Payload)
    | Consume(client: C)

  function Empty<C(==)>(): State<C> {
    State(map[], map[], false, false)
  }

  // ---- what the loop does with one event ----

  /** Closing a closed channel panics. */
  function Close<C(==)>(s: State<C>, c: C): State<C> {
    if c !in s.channels then s
    else if !s.channels[c].isOpen then s.(panicked := true)
    else s.(channels := s.channels[c := s.channels[c].(isOpen := false)])
  }

  function DoRegister<C(==)>(s: State<C>, c: C, user: UserId): State<C> {
    var s1 := if c in s.channels then s else s.(channels := s.channels[c := Channel(user, [], true, [])]);
    var key := s1.channels[c].user;
    var s2 := if key in s1.mapped then Close(s1, s1.mapped[key]) else s1;
    if s2.panicked then s2 else s2.(mapped := s2.mapped[key := c])
  }

  function DoUnregister<C(==)>(s: State<C>, c: C): State<C> {
    if !(c in s.channels && s.channels[c].user in s.mapped && s.mapped[s.channels[c].user] == c) then s
    else
      var s1 := Close(s, c);
      if s1.panicked then s1 else s1.(mapped := s1.mapped - {s1.channels[c].user})
  }

  /** Sending on a closed channel panics; a full one makes the loop wait for itself. */
  function DoBroadcast<C(==)>(s: State<C>, user: UserId, payload: Payload): State<C> {
    if !(user in s.mapped && s.mapped[user] in s.channels) then s
    else
      var c := s.mapped[user];
      var ch := s.channels[c];
      if !ch.isOpen then s.(panicked := true)
      else if |ch.queue| < CAPACITY then s.(channels := s.channels[c := ch.(queue := ch.queue + [payload])])
      else s.(stuck := true)
  }

  function DoConsume<C(==)>(s: State<C>, c: C): State<C> {
    if c in s.channels && s.channels[c].queue != [] then
      var ch := s.channels[c];
      s.(channels := s.channels[c := ch.(queue := ch.queue[1..], consumed := ch.consumed + [ch.queue[0]])])
    else s
  }

  function Step<C(==)>(s: State<C>, e: Event<C>): State<C> {
    if s.panicked then s
    else match e
         case Register(c, user) => if s.stuck then s else DoRegister(s, c, user)
         case Unregister(c) => if s.stuck then s else DoUnregister(s, c)
         case Broadcast(user, payload) => if s.stuck then s else DoBroadcast(s, user, payload)
         case Consume(c) => DoConsume(s, c)
  }

  function After<C(==)>(s: State<C>, es: seq<Event<C>>): State<C> {
    Runs.After(Step, s, es)
  }

  function Reached<C(==)>(es: seq<Event<C>>): State<C> {
    After(Empty(), es)
  }

  // ---- the history ----

  /** Every connection gets a client of its own, which registers once. */
  ghost predicate RegistersOnce<C>(es: seq<Event<C>>) {
    forall i, j | 0 <= i < j < |es| && es[i].Register? && es[j].Register? :: es[i].client != es[j].client
  }

  ghost predicate IsRegistration<C>(es: seq<Event<C>>, i: nat, c: C, user: UserId) {
    i < |es| && es[i] == Register(c, user)
  }

  /** Since event i nobody registered for the user and the client did not leave. */
  ghost predicate Undisturbed<C>(es: seq<Event<C>>, i: nat, c: C, user: UserId) {
    forall k | i < k < |es| :: es[k] != Unregister(c) && !(es[k].Register? && es[k].user == user)
  }

  /** c is the user's current connection, by the history alone. */
  ghost predicate IsCurrent<C>(es: seq<Event<C>>, c: C, user: UserId) {
    exists i: nat :: IsRegistration(es, i, c, user) && Undisturbed(es, i, c, user)
  }

  /** The payloads broadcast to a user while c was that user's current connection. */
  ghost function Addressed<C>(es: seq<Event<C>>, c: C): seq<Payload> {
    if es == [] then []
    else
      var before, last := es[..|es| - 1], es[|es| - 1];
      Addressed(before, c) + if last.Broadcast? && IsCurrent(before, c, last.user) then [last.payload] else []
  }

  // ---- the invariant ----

  ghost predicate ChannelsMatchMap<C>(s: State<C>) {
    && !s.panicked
    && (forall u | u in s.mapped :: s.mapped[u] in s.channels && s.channels[s.mapped[u]].user == u)
    && (forall c | c in s.channels ::
          s.channels[c].isOpen <==> s.channels[c].user in s.mapped && s.mapped[s.channels[c].user] == c)
  }

  ghost predicate HasRegistered<C>(es: seq<Event<C>>, c: C) {
    exists i :: 0 <= i < |es| && es[i].Register? && es[i].client == c
  }

  lemma StepKeepsMatch<C>(s: State<C>, e: Event<C>)
    requires ChannelsMatchMap(s)
    requires e.Register? ==> e.client !in s.channels
    ensures ChannelsMatchMap(Step(s, e))
  {
  }

  lemma {:induction false} ChannelsAreRegistered<C>(es: seq<Event<C>>)
    ensures forall c | c in Reached(es).channels :: HasRegistered(es, c)
  {
    if es != [] {
      var before, last := es[..|es| - 1], es[|es| - 1];
      ChannelsAreRegistered(before);
      forall c | c in Reached(es).channels ensures HasRegistered(es, c) {
        if c in Reached(before).channels {
          var i :| 0 <= i < |before| && before[i].Register? && before[i].client == c;
          assert es[i] == before[i];
        } else {
          assert last.Register? && last.client == c;
        }
      }
    }
  }

  lemma NewClient<C>(es: seq<Event<C>>)
    requires es != [] && RegistersOnce(es) && es[|es| - 1].Register?
    ensures es[|es| - 1].client !in Reached(es[..|es| - 1]).channels
  {
    ChannelsAreRegistered(es[..|es| - 1]);
  }

  /**
   No run closes a channel twice or sends on a closed one, and a client's channel is open
   exactly when the hub maps its user to it: a late unregister never removes a successor.
   */
  lemma {:induction false} NeverPanics<C>(es: seq<Event<C>>)
    requires RegistersOnce(es)
    ensures ChannelsMatchMap(Reached(es))
  {
    if es != [] {
      var before, last := es[..|es| - 1], es[|es| - 1];
      NeverPanics(before);
      if last.Register? {
        NewClient(es);
      }
      StepKeepsMatch(Reached(before), last);
    }
  }

  /**
   Why registering once is assumed: a client that registered again, which the handler never does,
   would close its own channel, and the next broadcast would panic.
   */
  lemma RegisteringTwicePanics()
    ensures Reached([Register(1, 5), Register(1, 5), Broadcast(5, 0)]).panicked
  {
    var e1, e3: Event<int> := Register(1, 5), Broadcast(5, 0);
    Runs.Extend(Step, Empty<int>(), [], e1);
    assert [] + [e1] == [e1];
    assert Reached([e1]) == State(map[5 := 1], map[1 := Channel(5, [], true, [])], false, false);
    Runs.Extend(Step, Empty<int>(), [e1], e1);
    assert [e1] + [e1] == [e1, e1];
    assert Reached([e1, e1]) == State(map[5 := 1], map[1 := Channel(5, [], false, [])], false, false);
    Runs.Extend(Step, Empty<int>(), [e1, e1], e3);
    assert [e1, e1] + [e3] == [Register(1, 5), Register(1, 5), Broadcast(5, 0)];
  }

  // ---- who is current ----

  /** Everything a client was ever sent. */
  function Received<C(==)>(s: State<C>, c: C): seq<Payload> {
    if c in s.channels then s.channels[c].consumed + s.channels[c].queue else []
  }

  lemma StuckStep<C>(s: State<C>, e: Event<C>)
    requires s.stuck
    ensures Step(s, e).stuck && Step(s, e).mapped == s.mapped && Step(s, e).channels.Keys == s.channels.Keys
    ensures forall c :: Received(Step(s, e), c) == Received(s, c)
  {
    match e
    case Consume(d) =>
      if d in s.channels && s.channels[d].queue != [] {
        var ch := s.channels[d];
        assert ch.queue == [ch.queue[0]] + ch.queue[1..];
      }
    case _ =>
  }

  /** Once the loop waits for itself nothing reaches anybody any more: queues only drain. */
  lemma {:induction false} StuckStays<C>(s: State<C>, es: seq<Event<C>>)
    requires s.stuck
    ensures After(s, es).stuck && After(s, es).mapped == s.mapped && After(s, es).channels.Keys == s.channels.Keys
    ensures forall c :: Received(After(s, es), c) == Received(s, c)
  {
    if es != [] {
      StuckStays(s, es[..|es| - 1]);
      StuckStep(After(s, es[..|es| - 1]), es[|es| - 1]);
    }
  }

  lemma CurrentSnoc<C>(es: seq<Event<C>>, c: C, user: UserId)
    requires es != []
    ensures var before, last := es[..|es| - 1], es[|es| - 1];
            IsCurrent(es, c, user) <==>
              last == Register(c, user)
              || (IsCurrent(before, c, user) && last != Unregister(c) && !(last.Register? && last.user == user))
  {
    var before, last := es[..|es| - 1], es[|es| - 1];
    if IsCurrent(es, c, user) {
      var i: nat :| IsRegistration(es, i, c, user) && Undisturbed(es, i, c, user);
      if i < |before| {
        assert IsRegistration(before, i, c, user) && Undisturbed(before, i, c, user);
      }
    }
    if last == Register(c, user) {
      assert IsRegistration(es, |es| - 1, c, user) && Undisturbed(es, |es| - 1, c, user);
    } else if IsCurrent(before, c, user) && last != Unregister(c) && !(last.Register? && last.user == user) {
      var i: nat :| IsRegistration(before, i, c, user) && Undisturbed(before, i, c, user);
      assert IsRegistration(es, i, c, user) && Undisturbed(es, i, c, user);
    }
  }

  /** The map is the history's current connections, as long as the loop is not stuck. */
  lemma {:induction false} MappedIsCurrent<C>(es: seq<Event<C>>, c: C, user: UserId)
    requires RegistersOnce(es) && !Reached(es).stuck
    ensures IsCurrent(es, c, user) <==> user in Reached(es).mapped && Reached(es).mapped[user] == c
  {
    if es != [] {
      var before, last := es[..|es| - 1], es[|es| - 1];
      MappedIsCurrent(before, c, user);
      NeverPanics(before);
      CurrentSnoc(es, c, user);
      if last.Register? {
        NewClient(es);
      }
    }
  }

  lemma StepReceived<C>(s: State<C>, e: Event<C>, c: C)
    requires ChannelsMatchMap(s) && !Step(s, e).stuck
    requires e.Register? ==> e.client !in s.channels
    ensures Received(Step(s, e), c) == Received(s, c) +
              if e.Broadcast? && e.user in s.mapped && s.mapped[e.user] == c then [e.payload] else []
  {
    match e
    case Consume(d) =>
      if d == c && c in s.channels && s.channels[c].queue != [] {
        var ch := s.channels[c];
        assert ch.queue == [ch.queue[0]] + ch.queue[1..];
      }
    case _ =>
  }

  /**
   Exactly-once, in-order delivery: what a client has consumed, followed by what is queued for
   it, is what was addressed to its user while it was the current connection.
   */
  lemma {:induction false} DeliveryIsExact<C>(es: seq<Event<C>>, c: C)
    requires RegistersOnce(es) && !Reached(es).stuck
    ensures Received(Reached(es), c) == Addressed(es, c)
  {
    if es != [] {
      var before, last := es[..|es| - 1], es[|es| - 1];
      DeliveryIsExact(before, c);
      NeverPanics(before);
      if last.Register? {
        NewClient(es);
      }
      if last.Broadcast? {
        MappedIsCurrent(before, c, last.user);
      }
      StepReceived(Reached(before), last, c);
    }
  }

  // ---- getting stuck ----

  /** Broadcast i finds its user's current connection with every slot of the queue taken. */
  ghost predicate FindsFullQueue<C>(es: seq<Event<C>>, i: nat) {
    i < |es| && es[i].Broadcast? && exists c :: c in Reached(es[..i]).channels && IsFullFor(es[..i], c, es[i].user)
  }

  ghost predicate IsFullFor<C>(es: seq<Event<C>>, c: C, user: UserId) {
    IsCurrent(es, c, user) && c in Reached(es).channels
    && |Addressed(es, c)| == |Reached(es).channels[c].consumed| + CAPACITY
  }

  lemma {:induction false} QueuesAreBounded<C>(es: seq<Event<C>>, c: C)
    requires c in Reached(es).channels
    ensures |Reached(es).channels[c].queue| <= CAPACITY
  {
    if es != [] {
      var before := es[..|es| - 1];
      if c in Reached(before).channels {
        QueuesAreBounded(before, c);
      }
    }
  }

  lemma StuckStepExactly<C>(es: seq<Event<C>>, e: Event<C>)
    requires RegistersOnce(es) && !Reached(es).stuck
    ensures Step(Reached(es), e).stuck
            <==> e.Broadcast? && exists c :: c in Reached(es).channels && IsFullFor(es, c, e.user)
  {
    NeverPanics(es);
    if e.Broadcast? {
      if e.user in Reached(es).mapped {
        var c := Reached(es).mapped[e.user];
        MappedIsCurrent(es, c, e.user);
        DeliveryIsExact(es, c);
        QueuesAreBounded(es, c);
        assert Step(Reached(es), e).stuck <==> IsFullFor(es, c, e.user);
      }
      forall c | IsFullFor(es, c, e.user) ensures e.user in Reached(es).mapped && Reached(es).mapped[e.user] == c {
        MappedIsCurrent(es, c, e.user);
      }
    }
  }

  /**
   The loop gets stuck exactly when some broadcast finds a full queue.  So in a run where no
   current connection's queue is full at a broadcast, every event is processed.
   */
  lemma {:induction false} StuckExactly<C>(es: seq<Event<C>>)
    requires RegistersOnce(es)
    ensures Reached(es).stuck <==> exists i: nat :: FindsFullQueue(es, i)
  {
    if es != [] {
      var before, last := es[..|es| - 1], es[|es| - 1];
      StuckExactly(before);
      if Reached(before).stuck {
        var i: nat :| FindsFullQueue(before, i);
        assert before[..i] == es[..i];
        assert FindsFullQueue(es, i);
        StuckStays(Reached(before), [last]);
      } else {
        StuckStepExactly(before, last);
        if Reached(es).stuck {
          assert FindsFullQueue(es, |before|);
        } else {
          forall i: nat | FindsFullQueue(es, i) ensures false {
            if i < |before| {
              assert before[..i] == es[..i];
              assert FindsFullQueue(before, i);
            }
          }
        }
      }
    }
  }

  // ---- what is consumed ----

  /** A turn of the write pump takes the oldest message not yet taken, if there is one, and nothing else changes. */
  lemma ConsumeExactly<C>(s: State<C>, c: C)
    requires !s.panicked
    ensures var s' := Step(s, Consume(c));
            if c in s.channels && |s.channels[c].consumed| < |Received(s, c)| then
              && s'.mapped == s.mapped && s'.stuck == s.stuck && s'.panicked == s.panicked
              && s'.channels.Keys == s.channels.Keys
              && (forall d | d in s.channels && d != c :: s'.channels[d] == s.channels[d])
              && s'.channels[c].user == s.channels[c].user && s'.channels[c].isOpen == s.channels[c].isOpen
              && s'.channels[c].consumed == s.channels[c].consumed + [Received(s, c)[|s.channels[c].consumed|]]
              && Received(s', c) == Received(s, c)
            else s' == s
  {
    if c in s.channels && s.channels[c].queue != [] {
      var ch := s.channels[c];
      assert ch.queue == [ch.queue[0]] + ch.queue[1..];
    }
  }

  /** By the history alone: how many of the messages addressed to it a client has taken. */
  ghost function Taken<C>(es: seq<Event<C>>, c: C): nat {
    if es == [] then 0
    else
      var before, last := es[..|es| - 1], es[|es| - 1];
      Taken(before, c) + if last == Consume(c) && Taken(before, c) < |Addressed(before, c)| then 1 else 0
  }

  /** Until the loop is stuck, a client has taken its first messages, one for each turn that had one to take. */
  lemma {:induction false} ConsumedIsTaken<C>(es: seq<Event<C>>, c: C)
    requires RegistersOnce(es) && !Reached(es).stuck
    ensures Taken(es, c) <= |Addressed(es, c)|
    ensures if c in Reached(es).channels then Reached(es).channels[c].consumed == Addressed(es, c)[..Taken(es, c)]
            else Taken(es, c) == 0
  {
    DeliveryIsExact(es, c);
    if es != [] {
      var before, last := es[..|es| - 1], es[|es| - 1];
      ConsumedIsTaken(before, c);
      DeliveryIsExact(before, c);
      NeverPanics(before);
      if last.Consume? {
        ConsumeExactly(Reached(before), last.client);
      } else if last.Register? {
        NewClient(es);
      }
      assert c in Reached(before).channels ==>
        Addressed(es, c)[..Taken(before, c)] == Addressed(before, c)[..Taken(before, c)];
    }
  }

  /** Broadcast i meets a current connection with as many untaken messages as its queue has slots. */
  ghost predicate Overflows<C>(es: seq<Event<C>>, i: nat) {
    i < |es| && es[i].Broadcast? && exists k: nat :: ClientOverflows(es[..i], k, es[i].user)
  }

  /** The client that registered at event k. */
  ghost predicate ClientOverflows<C>(es: seq<Event<C>>, k: nat, user: UserId) {
    k < |es| && es[k].Register? && OverflowsFor(es, es[k].client, user)
  }

  ghost predicate OverflowsFor<C>(es: seq<Event<C>>, c: C, user: UserId) {
    IsCurrent(es, c, user) && |Addressed(es, c)| == Taken(es, c) + CAPACITY
  }

  lemma StuckStepByHistory<C>(es: seq<Event<C>>, e: Event<C>)
    requires RegistersOnce(es) && !Reached(es).stuck
    ensures Step(Reached(es), e).stuck <==> e.Broadcast? && exists k: nat :: ClientOverflows(es, k, e.user)
  {
    StuckStepExactly(es, e);
    if e.Broadcast? {
      if c :| c in Reached(es).channels && IsFullFor(es, c, e.user) {
        ConsumedIsTaken(es, c);
        var k: nat :| IsRegistration(es, k, c, e.user) && Undisturbed(es, k, c, e.user);
        assert ClientOverflows(es, k, e.user);
      }
      if k: nat :| ClientOverflows(es, k, e.user) {
        var c := es[k].client;
        MappedIsCurrent(es, c, e.user);
        NeverPanics(es);
        ConsumedIsTaken(es, c);
        DeliveryIsExact(es, c);
        assert IsFullFor(es, c, e.user);
      }
    }
  }

  /** What stops the loop, by the history alone: what was registered, left, broadcast and read. */
  lemma {:induction false} StuckByHistory<C>(es: seq<Event<C>>)
    requires RegistersOnce(es)
    ensures Reached(es).stuck <==> exists i: nat :: Overflows(es, i)
  {
    if es != [] {
      var before, last := es[..|es| - 1], es[|es| - 1];
      StuckByHistory(before);
      forall i: nat | i < |before| ensures Overflows(es, i) <==> Overflows(before, i) {
        assert before[..i] == es[..i];
      }
      if Reached(before).stuck {
        var i: nat :| Overflows(before, i);
        assert Overflows(es, i);
        StuckStays(Reached(before), [last]);
        Runs.One(Step, Reached(before), last);
      } else {
        StuckStepByHistory(before, last);
        assert Overflows(es, |before|) <==> Reached(es).stuck;
      }
    }
  }

  // ---- clients that keep up ----

  /** A message was addressed to the client and its pump has not had a turn since. */
  ghost predicate IsWaiting<C>(es: seq<Event<C>>, c: C) {
    es != []
    && var before, last := es[..|es| - 1], es[|es| - 1];
       if last == Consume(c) then false
       else (last.Broadcast? && IsCurrent(before, c, last.user)) || IsWaiting(before, c)
  }

  /** The client's pump has a turn after each message addressed to it and before the next. */
  ghost predicate KeepsUp<C>(es: seq<Event<C>>, c: C) {
    es == []
    || (var before, last := es[..|es| - 1], es[|es| - 1];
        KeepsUp(before, c) && (last.Broadcast? && IsCurrent(before, c, last.user) ==> !IsWaiting(before, c)))
  }

  lemma {:induction false} KeepingUpLeavesOne<C>(es: seq<Event<C>>, c: C)
    requires KeepsUp(es, c)
    ensures |Addressed(es, c)| == Taken(es, c) + if IsWaiting(es, c) then 1 else 0
  {
    if es != [] {
      KeepingUpLeavesOne(es[..|es| - 1], c);
    }
  }

  lemma {:induction false} KeptUpBefore<C>(es: seq<Event<C>>, i: nat, c: C)
    requires KeepsUp(es, c) && i <= |es|
    ensures KeepsUp(es[..i], c)
  {
    if i == |es| {
      assert es[..i] == es;
    } else {
      assert es[..|es| - 1][..i] == es[..i];
      KeptUpBefore(es[..|es| - 1], i, c);
    }
  }

  /** A client that keeps up never has more than one message waiting, and is never the one that stops the loop. */
  lemma KeepingUpNeverOverflows<C>(es: seq<Event<C>>, i: nat, c: C, user: UserId)
    requires KeepsUp(es, c) && i <= |es|
    ensures !OverflowsFor(es[..i], c, user)
  {
    KeptUpBefore(es, i, c);
    KeepingUpLeavesOne(es[..i], c);
  }

  /** If every client keeps up the loop is never stuck, and each has taken all but at most one of its messages. */
  lemma KeepingUpKeepsTheHubGoing<C>(es: seq<Event<C>>)
    requires RegistersOnce(es)
    requires forall i | 0 <= i < |es| && es[i].Register? :: KeepsUp(es, es[i].client)
    ensures !Reached(es).stuck && !Reached(es).panicked
    ensures forall c | c in Reached(es).channels ::
              Addressed(es, c) == Reached(es).channels[c].consumed + Reached(es).channels[c].queue
              && |Reached(es).channels[c].queue| <= 1
  {
    StuckByHistory(es);
    if i: nat :| Overflows(es, i) {
      var k: nat :| ClientOverflows(es[..i], k, es[i].user);
      assert es[k] == es[..i][k];
      KeepingUpNeverOverflows(es, i, es[k].client, es[i].user);
    }
    NeverPanics(es);
    ChannelsAreRegistered(es);
    forall c | c in Reached(es).channels
      ensures Addressed(es, c) == Reached(es).channels[c].consumed + Reached(es).channels[c].queue
      ensures |Reached(es).channels[c].queue| <= 1
    {
      assert HasRegistered(es, c);
      DeliveryIsExact(es, c);
      ConsumedIsTaken(es, c);
      KeepingUpLeavesOne(es, c);
    }
  }

  /** Broadcasts to one user, with nothing in between. */
  function Burst<C>(user: UserId, payloads: seq<Payload>): seq<Event<C>> {
    seq(|payloads|, i requires 0 <= i < |payloads| => Broadcast(user, payloads[i]))
  }

  /** A burst to a client that takes nothing stops the hub exactly when its queue cannot hold it. */
  lemma {:induction false} BurstSticksExactly<C>(s: State<C>, user: UserId, payloads: seq<Payload>)
    requires ChannelsMatchMap(s) && !s.stuck && user in s.mapped && |s.channels[s.mapped[user]].queue| <= CAPACITY
    ensures var s', ch := After(s, Burst(user, payloads)), s.channels[s.mapped[user]];
            if |ch.queue| + |payloads| > CAPACITY then s'.stuck
            else s' == s.(channels := s.channels[s.mapped[user] := ch.(queue := ch.queue + payloads)])
    decreases |payloads|
  {
    if payloads == [] {
      assert s.channels[s.mapped[user]].queue + [] == s.channels[s.mapped[user]].queue;
    } else {
      var n := |payloads| - 1;
      var before := payloads[..n];
      BurstSticksExactly(s, user, before);
      assert Burst<C>(user, payloads) == Burst(user, before) + [Broadcast(user, payloads[n])];
      Runs.Extend(Step, s, Burst(user, before), Broadcast(user, payloads[n]));
      assert payloads == before + [payloads[n]];
      assert s.channels[s.mapped[user]].queue + payloads == s.channels[s.mapped[user]].queue + before + [payloads[n]];
    }
  }

  /** One connection that reads nothing, and one message more than its queue holds. */
  lemma SlowClientStopsTheHub()
    ensures var es: seq<Event<nat>> := [Register(1, 5)] + Burst(5, seq(CAPACITY + 1, _ => 0));
            RegistersOnce(es) && |es| == 258 && Reached(es).stuck
  {
    var payloads: seq<Payload> := seq(CAPACITY + 1, _ => 0);
    var first: Event<nat> := Register(1, 5);
    Runs.One(Step, Empty<nat>(), first);
    Runs.Concat(Step, Empty<nat>(), [first], Burst(5, payloads));
    BurstSticksExactly(Reached([first]), 5, payloads);
  }

  // ---- the hub itself ----

  class Client {
    const user: UserId
    var queue: seq<Payload>
    var isOpen: bool
    ghost var consumed: seq<Payload>

    constructor (user: UserId)
      ensures this.user == user && IsNew()
    {
      this.user := user;
      queue, isOpen, consumed := [], true, [];
    }

    ghost predicate IsNew()
      reads this
    {
      queue == [] && isOpen && consumed == []
    }

    ghost function Abs(): Channel
      reads this
    {
      Channel(user, queue, isOpen, consumed)
    }

    /** The write pump takes the oldest message, open or not. */
    method Take() returns (message: Option<Payload>)
      modifies this
      ensures old(queue) == [] ==> message.None? && Abs() == old(Abs())
      ensures old(queue) != [] ==>
                && message == Some(old(queue)[0])
                && Abs() == old(Abs()).(queue := old(queue)[1..], consumed := old(consumed) + [old(queue)[0]])
    {
      if queue == [] {
        return None;
      }
      message := Some(queue[0]);
      consumed := consumed + [queue[0]];
      queue := queue[1..];
    }
  }

  class NotificationHub {
    var clients: map<UserId, Client>
    var stuck: bool
    var panicked: bool
    ghost var known: set<Client>   // every client that ever registered

    constructor ()
      ensures Valid() && Abs() == Empty() && known == {}
    {
      clients, stuck, panicked, known := map[], false, false, {};
    }

    ghost predicate Valid()
      reads this
    {
      forall u | u in clients :: clients[u] in known
    }

    ghost function Abs(): State<Client>
      reads this, known
    {
      State(clients, map c | c in known :: c.Abs(), stuck, panicked)
    }

    method OnRegister(client: Client)
      requires Valid() && !stuck && !panicked
      requires client in known || client.IsNew()
      modifies this, known, client
      ensures Valid() && known == old(known) + {client}
      ensures Abs() == Step(old(Abs()), Register(client, client.user))
    {
      known := known + {client};
      if client.user in clients {
        var previous := clients[client.user];
        if !previous.isOpen {
          panicked := true;
          return;
        }
        previous.isOpen := false;
      }
      clients := clients[client.user := client];
    }

    method OnUnregister(client: Client)
      requires Valid() && !stuck && !panicked
      modifies this, client
      ensures Valid() && known == old(known)
      ensures Abs() == Step(old(Abs()), Unregister(client))
      ensures client !in known ==> client.Abs() == old(client.Abs())
    {
      if client.user in clients && clients[client.user] == client {
        if !client.isOpen {
          panicked := true;
          return;
        }
        client.isOpen := false;
        clients := clients - {client.user};
      }
    }

    method OnBroadcast(user: UserId, payload: Payload)
      requires Valid() && !stuck && !panicked
      modifies this, known
      ensures Valid() && known == old(known)
      ensures Abs() == Step(old(Abs()), Broadcast(user, payload))
    {
      if user in clients {
        var client := clients[user];
        if !client.isOpen {
          panicked := true;
        } else if |client.queue| < CAPACITY {
          client.queue := client.queue + [payload];
        } else {
          stuck := true;
        }
      }
    }

    /** One turn of a write pump; a client that never registered has nothing queued. */
    method Pump(client: Client) returns (message: Option<Payload>)
      requires Valid() && !panicked
      requires client in known || client.IsNew()
      modifies client
      ensures Valid() && Abs() == Step(old(Abs()), Consume(client))
      ensures message.Some? <==> old(client.queue) != []
      ensures message.Some? ==>
                && message.value == old(client.queue)[0] && client.queue == old(client.queue)[1..]
                && client.consumed == old(client.consumed) + [message.value]
      ensures client !in known ==> client.Abs() == old(client.Abs())
    {
      message := client.Take();
    }

    ghost predicate Registrable(e: Event<Client>)
      reads this, if e.Broadcast? then {} else {e.client}
    {
      && (e.Register? ==> e.user == e.client.user)
      && (e.Register? || e.Consume? ==> e.client in known || e.client.IsNew())
    }

    /** One turn of the event loop, or of a write pump; a stuck loop takes nothing more. */
    method Handle(e: Event<Client>)
      requires Valid() && Registrable(e)
      modifies this, known, if e.Broadcast? then {} else {e.client}
      ensures Valid() && Abs() == Step(old(Abs()), e)
      ensures old(known) <= known <= old(known) + if e.Broadcast? then {} else {e.client}
      ensures !e.Broadcast? && e.client !in known ==> e.client.Abs() == old(e.client.Abs())
    {
      if panicked {
        return;
      }
      match e {
        case Register(client, _) =>
          if !stuck { OnRegister(client); }
        case Unregister(client) =>
          if !stuck { OnUnregister(client); }
        case Broadcast(user, payload) =>
          if !stuck { OnBroadcast(user, payload); }
        case Consume(client) =>
          var _ := Pump(client);
      }
    }

    /** The event loop over what arrives on its channels, with the write pumps taking messages in between. */
    method Run(inbox: seq<Event<Client>>)
      requires Valid()
      requires forall e | e in inbox :: Registrable(e)
      modifies this, known, set e | e in inbox && !e.Broadcast? :: e.client
      ensures Valid() && Abs() == After(old(Abs()), inbox)
    {
      var i := 0;
      while i < |inbox|
        invariant 0 <= i <= |inbox|
        invariant Valid() && known <= old(known) + (set e | e in inbox && !e.Broadcast? :: e.client)
        invariant forall e | e in inbox :: Registrable(e)
        invariant Abs() == After(old(Abs()), inbox[..i])
      {
        Runs.Prefix(Step, old(Abs()), inbox, i);
        assert Registrable(inbox[i]);
        Handle(inbox[i]);
        i := i + 1;
      }
      assert inbox[..i] == inbox;
    }
  }
}
