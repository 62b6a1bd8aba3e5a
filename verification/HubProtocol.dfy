/** The event hub of the development server: a publisher that holds the hub's lock offers each event to every
    subscriber's bounded channel, while subscribers, which need no lock, receive from theirs at any moment. */
module HubProtocol {
  import opened Text
  import opened Sequences

  datatype Kind = Ready | Reload | Diagnostic

  datatype Event = Event(kind: Kind, message: string)

  const CAPACITY := 8

  /** A channel and what has become of it. `replay` is what it held from the start, and the events that the hub has
      meant for it since are the log from `since` up to `until`. */
  datatype Subscriber = Subscriber(
    registered: bool, open: bool, queue: seq<Event>, received: seq<Event>, replay: seq<Event>, since: nat, until: nat)

  /** Where the publisher stands with the subscriber it is serving. */
  datatype Stage = Between | Dropping(to: nat) | Retrying(to: nat)

  datatype Lock = Free | Publishing(event: Event, pending: set<nat>, stage: Stage)

  /** `log` holds every event published before the hub closed, and `panicked` says that some step sent on a closed
      channel or closed one twice. */
  datatype Hub = Hub(
    subscribers: seq<Subscriber>, latest: Option<Event>, closed: bool, lock: Lock, log: seq<Event>, panicked: bool)

  const EMPTY := Hub([], None, false, Free, [], false)

  datatype Action =
    | Publish(event: Event)   // publish takes the lock
    | Offer(to: nat)          // the range loop reaches a subscriber: its first send
    | Drop                    // the receive that makes room
    | Retry                   // the second send
    | Unlock                  // the range loop ends
    | Subscribe
    | Unsubscribe(from: nat)
    | Close
    | Receive(at: nat)        // a subscriber takes an event

  // ---- Steps. An action that cannot be taken leaves the hub as it is.

  function Put(h: Hub, i: nat, s: Subscriber): Hub
    requires i < |h.subscribers|
  {
    h.(subscribers := h.subscribers[i := s])
  }

  function Send(h: Hub, i: nat, e: Event): Hub
    requires i < |h.subscribers|
  {
    var s := h.subscribers[i];
    Put(h, i, s.(queue := s.queue + [e], until := |h.log|)).(panicked := h.panicked || !s.open)
  }

  function Registered(h: Hub): set<nat> { set i: nat | i < |h.subscribers| && h.subscribers[i].registered }

  function StepPublish(h: Hub, e: Event): Hub {
    if h.closed then h
    else
      h.(latest := if e.kind == Diagnostic then Some(e) else if e.kind == Reload then None else h.latest,
         log := h.log + [e], lock := Publishing(e, Registered(h), Between))
  }

  function StepOffer(h: Hub, i: nat): Hub
    requires h.lock.Publishing? && i < |h.subscribers|
  {
    var rest := h.lock.pending - {i};
    if |h.subscribers[i].queue| < CAPACITY then
      Send(h, i, h.lock.event).(lock := h.lock.(pending := rest))
    else
      h.(lock := h.lock.(pending := rest, stage := Dropping(i)))
  }

  function StepDrop(h: Hub, i: nat): Hub
    requires h.lock.Publishing? && i < |h.subscribers|
  {
    var s := h.subscribers[i];
    Put(h, i, if s.queue == [] then s else s.(queue := s.queue[1..])).(lock := h.lock.(stage := Retrying(i)))
  }

  function StepRetry(h: Hub, i: nat): Hub
    requires h.lock.Publishing? && i < |h.subscribers|
  {
    (if |h.subscribers[i].queue| < CAPACITY then Send(h, i, h.lock.event) else h).(lock := h.lock.(stage := Between))
  }

  function StepSubscribe(h: Hub): Hub {
    var n := |h.log|;
    var held := if h.closed || h.latest.None? then [] else [h.latest.value];
    h.(subscribers := h.subscribers + [Subscriber(!h.closed, !h.closed, held, [], held, n, n)])
  }

  function Shut(s: Subscriber): Subscriber { if s.registered then s.(registered := false, open := false) else s }

  function StepUnsubscribe(h: Hub, i: nat): Hub
    requires i < |h.subscribers|
  {
    var s := h.subscribers[i];
    Put(h, i, Shut(s)).(panicked := h.panicked || (s.registered && !s.open))
  }

  function ShutAll(subscribers: seq<Subscriber>): (r: seq<Subscriber>)
    ensures |r| == |subscribers| && forall i | 0 <= i < |r| :: r[i] == Shut(subscribers[i])
  {
    if subscribers == [] then []
    else ShutAll(subscribers[..|subscribers| - 1]) + [Shut(subscribers[|subscribers| - 1])]
  }

  function StepClose(h: Hub): Hub {
    if h.closed then h
    else
      h.(closed := true, subscribers := ShutAll(h.subscribers),
         panicked := h.panicked || exists i | 0 <= i < |h.subscribers| :: h.subscribers[i].registered && !h.subscribers[i].open)
  }

  function StepReceive(h: Hub, i: nat): Hub
    requires i < |h.subscribers| && h.subscribers[i].queue != []
  {
    var s := h.subscribers[i];
    Put(h, i, s.(queue := s.queue[1..], received := s.received + [s.queue[0]]))
  }

  /** What may happen: everything but a receive is done by whoever holds the lock. */
  predicate Enabled(h: Hub, a: Action) {
    match a
    case Publish(_) | Subscribe | Close => h.lock.Free?
    case Unsubscribe(i) => h.lock.Free? && i < |h.subscribers|
    case Offer(i) => h.lock.Publishing? && h.lock.stage.Between? && i in h.lock.pending && i < |h.subscribers|
    case Drop => h.lock.Publishing? && h.lock.stage.Dropping? && h.lock.stage.to < |h.subscribers|
    case Retry => h.lock.Publishing? && h.lock.stage.Retrying? && h.lock.stage.to < |h.subscribers|
    case Unlock => h.lock.Publishing? && h.lock.stage.Between? && h.lock.pending == {}
    case Receive(i) => i < |h.subscribers| && h.subscribers[i].queue != []
  }

  function Step(h: Hub, a: Action): Hub {
    if !Enabled(h, a) then h
    else match a
      case Publish(e) => StepPublish(h, e)
      case Offer(i) => StepOffer(h, i)
      case Drop => StepDrop(h, h.lock.stage.to)
      case Retry => StepRetry(h, h.lock.stage.to)
      case Unlock => h.(lock := Free)
      case Subscribe => StepSubscribe(h)
      case Unsubscribe(i) => StepUnsubscribe(h, i)
      case Close => StepClose(h)
      case Receive(i) => StepReceive(h, i)
  }

  function Run(actions: seq<Action>): Hub {
    if actions == [] then EMPTY else Step(Run(actions[..|actions| - 1]), actions[|actions| - 1])
  }

  // ---- What every run keeps

  /** `a` is `b` with some events left out. */
  ghost predicate IsSubsequence(a: seq<Event>, b: seq<Event>)
    decreases |b|
  {
    if a == [] then true
    else if b == [] then false
    else
      var m, n := |a| - 1, |b| - 1;
      (a[m] == b[n] && IsSubsequence(a[..m], b[..n])) || IsSubsequence(a, b[..n])
  }

  lemma {:induction false} SubsequenceGrows(a: seq<Event>, b: seq<Event>, e: Event)
    requires IsSubsequence(a, b)
    ensures IsSubsequence(a, b + [e]) && IsSubsequence(a + [e], b + [e])
  {
    assert (b + [e])[..|b|] == b && (a + [e])[..|a|] == a;
  }

  /** The last diagnostic of the log, when no reload comes after it. */
  ghost predicate IsLatest(log: seq<Event>, latest: Option<Event>) {
    match latest
    case Some(e) => exists k: nat :: IsCurrent(log, k) && log[k] == e
    case None => forall k | 0 <= k < |log| :: !IsCurrent(log, k)
  }

  ghost predicate IsCurrent(log: seq<Event>, k: nat) {
    k < |log| && log[k].kind == Diagnostic && forall j | k < j < |log| :: log[j].kind == Ready
  }

  /** The events meant for a subscriber: what it was given on arrival, and what was published since. */
  function Stream(log: seq<Event>, s: Subscriber): seq<Event>
    requires s.since <= s.until <= |log|
  {
    s.replay + log[s.since..s.until]
  }

  /** What is queued is the end of the stream, and what has been received is in order and came before. */
  ghost predicate Follows(stream: seq<Event>, queue: seq<Event>, received: seq<Event>) {
    && |queue| <= |stream| && queue == stream[|stream| - |queue|..]
    && IsSubsequence(received, stream[..|stream| - |queue|])
  }

  /** The newest event of the stream is queued, or was the last to be received. */
  ghost predicate HasNewest(stream: seq<Event>, queue: seq<Event>, received: seq<Event>) {
    stream != [] && queue == [] ==> received != [] && received[|received| - 1] == stream[|stream| - 1]
  }

  ghost predicate IsFaithful(log: seq<Event>, s: Subscriber) {
    && s.since <= s.until <= |log| && |s.queue| <= CAPACITY
    && Follows(Stream(log, s), s.queue, s.received)
  }

  /** A subscriber starts with the latest diagnostic of the log it arrived at, and with nothing else. */
  ghost predicate IsWelcomed(log: seq<Event>, s: Subscriber) {
    && s.since <= |log| && |s.replay| <= 1
    && (s.replay != [] ==> IsLatest(log[..s.since], Some(s.replay[0])))
    && (s.registered && s.replay == [] ==> IsLatest(log[..s.since], None))
  }

  ghost predicate InFlight(lock: Lock, i: nat) {
    lock.Publishing? && (i in lock.pending || lock.stage == Dropping(i) || lock.stage == Retrying(i))
  }

  ghost predicate IsRetried(lock: Lock, i: nat) { lock.Publishing? && lock.stage == Retrying(i) }

  /** One subscriber of a hub with this log and lock. */
  ghost predicate IsServed(log: seq<Event>, lock: Lock, i: nat, s: Subscriber) {
    && IsFaithful(log, s) && IsWelcomed(log, s)
    && (s.registered ==> s.open && s.until == if InFlight(lock, i) then |log| - 1 else |log|)
    && (InFlight(lock, i) ==> s.registered)
    && (if IsRetried(lock, i) then |s.queue| < CAPACITY else HasNewest(Stream(log, s), s.queue, s.received))
  }

  ghost predicate IsHeld(h: Hub) {
    h.lock.Publishing? ==>
      && !h.closed && h.log != [] && h.log[|h.log| - 1] == h.lock.event
      && (forall i | i in h.lock.pending :: i < |h.subscribers|)
      && (h.lock.stage.Between? || (h.lock.stage.to < |h.subscribers| && h.lock.stage.to !in h.lock.pending))
  }

  ghost predicate IsSound(h: Hub) {
    && !h.panicked && IsHeld(h) && IsLatest(h.log, h.latest)
    && (forall i | 0 <= i < |h.subscribers| :: IsServed(h.log, h.lock, i, h.subscribers[i]))
    && (h.closed ==> forall i | 0 <= i < |h.subscribers| :: !h.subscribers[i].registered)
  }

  lemma LogGrows(log: seq<Event>, e: Event, s: Subscriber)
    requires IsFaithful(log, s) && IsWelcomed(log, s)
    ensures IsFaithful(log + [e], s) && IsWelcomed(log + [e], s) && Stream(log + [e], s) == Stream(log, s)
  {
    assert (log + [e])[s.since..s.until] == log[s.since..s.until];
    assert (log + [e])[..s.since] == log[..s.since];
  }

  lemma LatestFollows(log: seq<Event>, latest: Option<Event>, e: Event)
    requires IsLatest(log, latest)
    ensures IsLatest(log + [e], if e.kind == Diagnostic then Some(e) else if e.kind == Reload then None else latest)
  {
    var grown := log + [e];
    assert grown[|log|] == e;
    if e.kind == Diagnostic {
      assert IsCurrent(grown, |log|);
    } else if e.kind == Ready && latest.Some? {
      var k: nat :| IsCurrent(log, k) && log[k] == latest.value;
      assert IsCurrent(grown, k) && grown[k] == latest.value;
    } else if e.kind == Ready {
      forall k: nat | k < |grown| ensures !IsCurrent(grown, k) {
        assert k < |log| ==> !IsCurrent(log, k);
        if k < |log| && log[k].kind == Diagnostic {
          var j :| k < j < |log| && log[j].kind != Ready;
          assert grown[j] == log[j];
        }
      }
    }
  }

  lemma PublishKeeps(h: Hub, e: Event)
    requires IsSound(h) && h.lock.Free?
    ensures IsSound(StepPublish(h, e))
  {
    if !h.closed {
      var g := StepPublish(h, e);
      LatestFollows(h.log, h.latest, e);
      forall i | 0 <= i < |g.subscribers| ensures IsServed(g.log, g.lock, i, g.subscribers[i]) {
        assert IsServed(h.log, h.lock, i, h.subscribers[i]);
        LogGrows(h.log, e, h.subscribers[i]);
        assert InFlight(g.lock, i) <==> h.subscribers[i].registered;
      }
    }
  }

  /** A send to a subscriber that has room brings it up to the log. */
  lemma SendServes(log: seq<Event>, lock: Lock, done: Lock, i: nat, s: Subscriber)
    requires IsServed(log, lock, i, s) && InFlight(lock, i) && |s.queue| < CAPACITY
    requires log != [] && log[|log| - 1] == lock.event && !InFlight(done, i)
    ensures s.open && IsServed(log, done, i, s.(queue := s.queue + [lock.event], until := |log|))
  {
    var t := s.(queue := s.queue + [lock.event], until := |log|);
    var stream := Stream(log, s);
    assert log[s.since..|log|] == log[s.since..s.until] + [lock.event];
    assert Stream(log, t) == stream + [lock.event];
    var n := |stream| - |s.queue|;
    assert (stream + [lock.event])[n..] == stream[n..] + [lock.event];
    assert (stream + [lock.event])[..n] == stream[..n];
  }

  lemma Served(h: Hub, i: nat)
    requires IsSound(h) && i < |h.subscribers|
    ensures IsServed(h.log, h.lock, i, h.subscribers[i])
  {
  }

  /** A step of the publisher that concerns subscriber `i` alone. */
  lemma OneStep(h: Hub, g: Hub, i: nat)
    requires IsSound(h) && i < |h.subscribers| == |g.subscribers|
    requires g.log == h.log && g.latest == h.latest && g.closed == h.closed && !g.panicked
    requires h.lock.Publishing? && g.lock.Publishing? && IsHeld(g)
    requires g.lock.stage.Between? || g.lock.stage.to == i
    requires h.lock.stage.Between? || h.lock.stage.to == i
    requires forall j: nat | j < |g.subscribers| && j != i ::
               g.subscribers[j] == h.subscribers[j] && (InFlight(g.lock, j) <==> InFlight(h.lock, j))
    requires IsServed(g.log, g.lock, i, g.subscribers[i])
    ensures IsSound(g)
  {
    forall j: nat | j < |g.subscribers| ensures IsServed(g.log, g.lock, j, g.subscribers[j]) {
      Served(h, j);
    }
  }

  lemma OfferKeeps(h: Hub, i: nat)
    requires IsSound(h) && Enabled(h, Offer(i))
    ensures IsSound(StepOffer(h, i))
  {
    var g := StepOffer(h, i);
    Served(h, i);
    if |h.subscribers[i].queue| < CAPACITY {
      SendServes(h.log, h.lock, g.lock, i, h.subscribers[i]);
    }
    OneStep(h, g, i);
  }

  lemma TailOfStream(stream: seq<Event>, n: nat)
    requires n < |stream|
    ensures stream[n..][1..] == stream[n + 1..] && stream[n..][0] == stream[n]
    ensures stream[..n + 1] == stream[..n] + [stream[n]]
  {
  }

  /** Taking the oldest queued event leaves the rest of the stream queued, whether it is received or dropped. */
  lemma TakingFollows(stream: seq<Event>, queue: seq<Event>, received: seq<Event>)
    requires Follows(stream, queue, received) && queue != []
    ensures Follows(stream, queue[1..], received) && Follows(stream, queue[1..], received + [queue[0]])
  {
    var n := |stream| - |queue|;
    TailOfStream(stream, n);
    SubsequenceGrows(received, stream[..n], queue[0]);
  }

  lemma TakingIsFaithful(log: seq<Event>, s: Subscriber, t: Subscriber)
    requires IsFaithful(log, s) && s.queue != []
    requires t == s.(queue := s.queue[1..]) || t == s.(queue := s.queue[1..], received := s.received + [s.queue[0]])
    ensures IsFaithful(log, t)
  {
    TakingFollows(Stream(log, s), s.queue, s.received);
  }

  lemma TakingServes(log: seq<Event>, lock: Lock, i: nat, s: Subscriber, t: Subscriber)
    requires IsServed(log, lock, i, s) && s.queue != []
    requires t == s.(queue := s.queue[1..], received := s.received + [s.queue[0]])
    ensures IsServed(log, lock, i, t)
  {
    TakingIsFaithful(log, s, t);
  }

  lemma DropServes(log: seq<Event>, lock: Lock, done: Lock, i: nat, s: Subscriber)
    requires IsServed(log, lock, i, s) && lock.Publishing? && lock.stage == Dropping(i)
    requires done == lock.(stage := Retrying(i))
    ensures IsServed(log, done, i, if s.queue == [] then s else s.(queue := s.queue[1..]))
  {
    if s.queue != [] { TakingIsFaithful(log, s, s.(queue := s.queue[1..])); }
  }

  lemma DropKeeps(h: Hub, i: nat)
    requires IsSound(h) && Enabled(h, Drop) && i == h.lock.stage.to
    ensures IsSound(StepDrop(h, i))
  {
    Served(h, i);
    DropServes(h.log, h.lock, StepDrop(h, i).lock, i, h.subscribers[i]);
    OneStep(h, StepDrop(h, i), i);
  }

  lemma RetryKeeps(h: Hub, i: nat)
    requires IsSound(h) && Enabled(h, Retry) && i == h.lock.stage.to
    ensures IsSound(StepRetry(h, i))
  {
    Served(h, i);
    SendServes(h.log, h.lock, StepRetry(h, i).lock, i, h.subscribers[i]);
    OneStep(h, StepRetry(h, i), i);
  }

  lemma ReceiveKeeps(h: Hub, i: nat)
    requires IsSound(h) && Enabled(h, Receive(i))
    ensures IsSound(StepReceive(h, i))
  {
    Served(h, i);
    TakingServes(h.log, h.lock, i, h.subscribers[i], StepReceive(h, i).subscribers[i]);
    OneServed(h, i, StepReceive(h, i).subscribers[i]);
  }

  /** Changing one subscriber that stays served, and stays unregistered if it was. */
  lemma OneServed(h: Hub, i: nat, s: Subscriber)
    requires IsSound(h) && i < |h.subscribers| && IsServed(h.log, h.lock, i, s)
    requires s.registered ==> h.subscribers[i].registered
    ensures IsSound(Put(h, i, s))
  {
    var g := Put(h, i, s);
    forall j: nat | j < |g.subscribers| ensures IsServed(g.log, g.lock, j, g.subscribers[j]) {
      Served(h, j);
    }
  }

  lemma UnlockKeeps(h: Hub)
    requires IsSound(h) && Enabled(h, Unlock)
    ensures IsSound(Step(h, Unlock))
  {
    var g := Step(h, Unlock);
    forall j: nat | j < |g.subscribers| ensures IsServed(g.log, g.lock, j, g.subscribers[j]) {
      Served(h, j);
    }
  }

  lemma NewcomerIsServed(log: seq<Event>, lock: Lock, i: nat, s: Subscriber)
    requires lock.Free? && s.queue == s.replay && s.received == [] && s.since == s.until == |log| && |s.replay| <= 1
    requires s.registered ==> s.open
    requires s.replay != [] ==> IsLatest(log, Some(s.replay[0]))
    requires s.registered && s.replay == [] ==> IsLatest(log, None)
    ensures IsServed(log, lock, i, s)
  {
    assert log[..|log|] == log;
    NewcomerIsFaithful(log, s);
  }

  lemma NewcomerIsFaithful(log: seq<Event>, s: Subscriber)
    requires s.queue == s.replay && s.received == [] && s.since == s.until == |log| && |s.replay| <= 1
    ensures IsFaithful(log, s)
  {
    assert Stream(log, s) == s.replay;
    assert s.replay[0..] == s.replay;
  }

  lemma SubscribeKeeps(h: Hub)
    requires IsSound(h) && h.lock.Free?
    ensures IsSound(StepSubscribe(h))
  {
    var g, n := StepSubscribe(h), |h.subscribers|;
    NewcomerIsServed(h.log, h.lock, n, g.subscribers[n]);
    forall j: nat | j < |g.subscribers| ensures IsServed(g.log, g.lock, j, g.subscribers[j]) {
      if j < n { Served(h, j); }
    }
  }

  lemma ShutIsServed(log: seq<Event>, lock: Lock, i: nat, s: Subscriber)
    requires IsServed(log, lock, i, s) && lock.Free?
    ensures IsServed(log, lock, i, Shut(s))
  {
    var t := Shut(s);
    assert t.since == s.since && t.until == s.until && t.queue == s.queue && t.received == s.received && t.replay == s.replay;
    assert Stream(log, t) == Stream(log, s);
  }

  lemma UnsubscribeKeeps(h: Hub, i: nat)
    requires IsSound(h) && Enabled(h, Unsubscribe(i))
    ensures IsSound(StepUnsubscribe(h, i))
  {
    Served(h, i);
    ShutIsServed(h.log, h.lock, i, h.subscribers[i]);
    OneServed(h, i, Shut(h.subscribers[i]));
    assert StepUnsubscribe(h, i) == Put(h, i, Shut(h.subscribers[i]));
  }

  lemma CloseKeeps(h: Hub)
    requires IsSound(h) && h.lock.Free?
    ensures IsSound(StepClose(h))
  {
    var g := StepClose(h);
    forall j: nat | j < |g.subscribers| ensures IsServed(g.log, g.lock, j, g.subscribers[j]) {
      Served(h, j);
      ShutIsServed(h.log, h.lock, j, h.subscribers[j]);
    }
  }

  lemma StepKeeps(h: Hub, a: Action)
    requires IsSound(h)
    ensures IsSound(Step(h, a))
  {
    if Enabled(h, a) {
      match a
      case Publish(e) => PublishKeeps(h, e);
      case Offer(i) => OfferKeeps(h, i);
      case Drop => DropKeeps(h, h.lock.stage.to);
      case Retry => RetryKeeps(h, h.lock.stage.to);
      case Unlock => UnlockKeeps(h);
      case Subscribe => SubscribeKeeps(h);
      case Unsubscribe(i) => UnsubscribeKeeps(h, i);
      case Close => CloseKeeps(h);
      case Receive(i) => ReceiveKeeps(h, i);
    }
  }

  /** Whatever is published, subscribed, closed and received, in whatever order, the hub stays sound: no queue holds more
      than eight events, every subscriber has in order a part of what was meant for it, and nothing panics. */
  lemma {:induction false} EveryRunIsSound(actions: seq<Action>)
    ensures IsSound(Run(actions))
  {
    if actions != [] {
      EveryRunIsSound(actions[..|actions| - 1]);
      StepKeeps(Run(actions[..|actions| - 1]), actions[|actions| - 1]);
    }
  }

  lemma {:induction false} SubsequenceOfPrefix(a: seq<Event>, b: seq<Event>, c: seq<Event>)
    requires IsSubsequence(a, b)
    ensures IsSubsequence(a + c, b + c)
  {
    if c == [] {
      assert a + c == a && b + c == b;
    } else {
      var n := |c| - 1;
      SubsequenceOfPrefix(a, b, c[..n]);
      SubsequenceGrows(a + c[..n], b + c[..n], c[n]);
      LastApart(c);
      Associate(a, c[..n], [c[n]]);
      Associate(b, c[..n], [c[n]]);
    }
  }

  /** What a subscriber has: the events it has received, and then those in its queue. */
  function Delivered(s: Subscriber): seq<Event> { s.received + s.queue }

  /** Between publications a subscriber has, in order, a part of what it was welcomed with and of all that was published
      since, and it ends with the newest event. */
  lemma NewestIsDelivered(actions: seq<Action>, i: nat)
    requires var h := Run(actions); i < |h.subscribers| && h.subscribers[i].registered && !InFlight(h.lock, i)
    ensures var h := Run(actions); var s := h.subscribers[i];
            s.since <= |h.log| && |s.queue| <= CAPACITY && IsCaughtUp(s, s.replay + h.log[s.since..])
  {
    var h := Run(actions);
    var s := h.subscribers[i];
    EveryRunIsSound(actions);
    Served(h, i);
    assert h.log[s.since..s.until] == h.log[s.since..];
    CatchesUp(Stream(h.log, s), s);
  }

  ghost predicate IsCaughtUp(s: Subscriber, stream: seq<Event>) {
    && IsSubsequence(Delivered(s), stream)
    && (stream != [] ==> Delivered(s) != [] && Delivered(s)[|Delivered(s)| - 1] == stream[|stream| - 1])
  }

  lemma CatchesUp(stream: seq<Event>, s: Subscriber)
    requires Follows(stream, s.queue, s.received) && HasNewest(stream, s.queue, s.received)
    ensures IsCaughtUp(s, stream)
  {
    var n := |stream| - |s.queue|;
    SubsequenceOfPrefix(s.received, stream[..n], s.queue);
    assert stream[..n] + s.queue == stream;
  }

  /** A new subscriber finds in its channel the last diagnostic that no reload has followed, and nothing else. */
  lemma NewcomerFindsTheLatest(actions: seq<Action>)
    requires var h := Run(actions); h.lock.Free? && !h.closed
    ensures var h := Run(actions);
            var s := Step(h, Subscribe).subscribers[|h.subscribers|];
            s.registered && s.open && s.received == []
            && if s.queue == [] then IsLatest(h.log, None) else |s.queue| == 1 && IsLatest(h.log, Some(s.queue[0]))
  {
    EveryRunIsSound(actions);
  }

  // ---- The publisher is never held up

  /** How many steps the publisher still has to take at most. */
  function Work(lock: Lock): nat {
    match lock
    case Free => 0
    case Publishing(_, pending, stage) =>
      1 + 3 * |pending| + match stage case Between => 0 case Dropping(_) => 2 case Retrying(_) => 1
  }

  /** Whoever reads or does not read, the publisher has a step to take, and each of its steps brings it closer to the
      end; no step of a reader does it any harm. */
  lemma PublisherIsNeverHeldUp(h: Hub, a: Action)
    requires IsSound(h) && h.lock.Publishing?
    ensures exists b :: IsNext(h.lock, b) && Enabled(h, b)
    ensures Enabled(h, a) && !a.Receive? ==> Work(Step(h, a).lock) < Work(h.lock)
    ensures a.Receive? ==> Step(h, a).lock == h.lock
  {
    if h.lock.stage.Between? && h.lock.pending != {} {
      var i :| i in h.lock.pending;
      assert IsNext(h.lock, Offer(i)) && Enabled(h, Offer(i));
    } else {
      var b := if h.lock.stage.Between? then Unlock else if h.lock.stage.Dropping? then Drop else Retry;
      assert IsNext(h.lock, b) && Enabled(h, b);
    }
  }

  /** What the publisher does next: only the subscriber it turns to is left open. */
  predicate IsNext(lock: Lock, a: Action) {
    lock.Publishing? && match lock.stage
      case Dropping(_) => a == Drop
      case Retrying(_) => a == Retry
      case Between => if lock.pending == {} then a == Unlock else a.Offer? && a.to in lock.pending
  }
}
