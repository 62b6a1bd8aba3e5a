/** The hub's methods, whose sends and receives are the steps of the protocol, with the subscribers' own receives
    falling between them. */
module Events {
  import opened Text
  import opened HubProtocol

  /** The same subscribers, whatever they have received. */
  ghost predicate Alike(a: seq<Subscriber>, b: seq<Subscriber>) {
    |a| == |b| && forall i | 0 <= i < |a| :: IsSame(a[i], b[i])
  }

  predicate IsSame(s: Subscriber, t: Subscriber) {
    s.registered == t.registered && s.since == t.since && s.replay == t.replay
  }

  lemma AlikeIsTransitive(a: seq<Subscriber>, b: seq<Subscriber>, c: seq<Subscriber>)
    requires Alike(a, b) && Alike(b, c)
    ensures Alike(a, c)
  {
  }

  lemma OneIsAlike(a: seq<Subscriber>, i: nat, s: Subscriber)
    requires i < |a| && IsSame(a[i], s)
    ensures Alike(a, a[i := s])
  {
  }

  ghost predicate EndsWith(s: Subscriber, event: Event) {
    Delivered(s) != [] && Delivered(s)[|Delivered(s)| - 1] == event
  }

  lemma HasIt(log: seq<Event>, lock: Lock, i: nat, s: Subscriber, event: Event)
    requires IsServed(log, lock, i, s) && lock.Free? && s.registered && s.since < |log| && log[|log| - 1] == event
    ensures EndsWith(s, event)
  {
    CatchesUp(Stream(log, s), s);
  }

  /** Once the publisher is done, every subscriber has the newest event last. */
  lemma EveryoneHasIt(before: Hub, h: Hub, event: Event)
    requires IsSound(before) && IsSound(h) && h.lock.Free? && h.log == before.log + [event]
    requires Alike(before.subscribers, h.subscribers)
    ensures forall i | 0 <= i < |h.subscribers| :: h.subscribers[i].registered ==> EndsWith(h.subscribers[i], event)
  {
    forall i: nat | i < |h.subscribers| && h.subscribers[i].registered ensures EndsWith(h.subscribers[i], event) {
      Served(before, i);
      Served(h, i);
      assert IsSame(before.subscribers[i], h.subscribers[i]);
      HasIt(h.log, h.lock, i, h.subscribers[i], event);
    }
  }

  lemma RegisteredAreOpen(h: Hub)
    requires IsSound(h)
    ensures forall i | 0 <= i < |h.subscribers| :: h.subscribers[i].registered ==> h.subscribers[i].open
  {
    forall i | 0 <= i < |h.subscribers| ensures h.subscribers[i].registered ==> h.subscribers[i].open {
      Served(h, i);
    }
  }

  lemma IsClosed(h: Hub, g: Hub)
    requires IsSound(h) && h.lock.Free? && !h.closed && g == h.(closed := true, subscribers := ShutAll(h.subscribers))
    ensures g == StepClose(h) && IsSound(g)
  {
    RegisteredAreOpen(h);
    CloseKeeps(h);
  }

  class EventHub {
    var subscribers: seq<Subscriber>
    var latest: Option<Event>
    var closed: bool
    var lock: Lock
    var log: seq<Event>
    var panicked: bool

    function State(): Hub
      reads this
    {
      Hub(subscribers, latest, closed, lock, log, panicked)
    }

    /** No method is under way, and the hub is sound. */
    ghost predicate Valid()
      reads this
    {
      lock.Free? && IsSound(State())
    }

    constructor ()
      ensures Valid() && State() == EMPTY
    {
      subscribers, latest, closed := [], None, false;
      lock, log, panicked := Free, [], false;
    }

    /** A subscriber takes an event from its channel, which needs no lock. */
    method Receive(i: nat) returns (event: Option<Event>)
      requires IsSound(State()) && i < |subscribers|
      modifies `subscribers
      ensures IsSound(State()) && Alike(old(subscribers), subscribers)
      ensures event == if old(subscribers[i].queue) == [] then None else Some(old(subscribers[i].queue[0]))
      ensures event.Some? ==> State() == StepReceive(old(State()), i)
    {
      if subscribers[i].queue == [] {
        return None;
      }
      ReceiveKeeps(State(), i);
      var s := subscribers[i];
      var taken := s.(queue := s.queue[1..], received := s.received + [s.queue[0]]);
      OneIsAlike(subscribers, i, taken);
      event, subscribers := Some(s.queue[0]), subscribers[i := taken];
    }

    /** The receives that happen to fall between two steps of the publisher. */
    method Meanwhile(readers: seq<nat>)
      requires IsSound(State())
      modifies `subscribers
      ensures IsSound(State()) && Alike(old(subscribers), subscribers)
    {
      for k := 0 to |readers|
        invariant IsSound(State()) && Alike(old(subscribers), subscribers)
      {
        if readers[k] < |subscribers| {
          ghost var before := subscribers;
          var _ := Receive(readers[k]);
          AlikeIsTransitive(old(subscribers), before, subscribers);
        }
      }
    }

    /** Taking the lock and recording the event. */
    method Announce(event: Event) returns (pending: set<nat>)
      requires Valid()
      modifies this
      ensures IsSound(State()) && State() == StepPublish(old(State()), event) && subscribers == old(subscribers)
      ensures !closed ==> lock == Publishing(event, pending, Between)
    {
      PublishKeeps(State(), event);
      pending := Registered(State());
      if !closed {
        if event.kind == Diagnostic {
          latest := Some(event);
        } else if event.kind == Reload {
          latest := None;
        }
        log := log + [event];
        lock := Publishing(event, pending, Between);
      }
    }

    /** publish: `readers` says who receives before each of its channel operations. */
    method Publish(event: Event, readers: seq<seq<nat>>)
      requires Valid()
      modifies this
      ensures Valid() && closed == old(closed) && Alike(old(subscribers), subscribers)
      ensures closed ==> State() == old(State())
      ensures !closed ==> log == old(log) + [event] && IsLatest(log, latest)
      ensures !closed ==> forall i | 0 <= i < |subscribers| :: subscribers[i].registered ==> EndsWith(subscribers[i], event)
    {
      var pending := Announce(event);
      if closed {
        return;
      }
      ServeAll(event, readers, pending);
      UnlockKeeps(State());
      lock := Free;
      EveryoneHasIt(old(State()), State(), event);
    }

    /** The range loop, in whatever order the subscribers come. */
    method ServeAll(event: Event, readers: seq<seq<nat>>, everyone: set<nat>)
      requires lock == Publishing(event, everyone, Between) && IsSound(State())
      modifies `subscribers, `panicked, `lock
      ensures lock == Publishing(event, {}, Between) && IsSound(State()) && Alike(old(subscribers), subscribers)
    {
      var pending, operations := everyone, 0;
      while pending != {}
        invariant lock == Publishing(event, pending, Between) && IsSound(State())
        invariant Alike(old(subscribers), subscribers)
        decreases pending
      {
        var i :| i in pending;
        ghost var before := subscribers;
        Serve(i, event, readers, operations, pending);
        AlikeIsTransitive(old(subscribers), before, subscribers);
        pending, operations := pending - {i}, operations + 3;
      }
    }

    /** The body of the range loop. */
    method Serve(i: nat, event: Event, readers: seq<seq<nat>>, operations: nat, pending: set<nat>)
      requires lock == Publishing(event, pending, Between) && i in pending && IsSound(State())
      modifies `subscribers, `panicked, `lock
      ensures lock == Publishing(event, pending - {i}, Between) && IsSound(State())
      ensures Alike(old(subscribers), subscribers)
    {
      Meanwhile(if operations < |readers| then readers[operations] else []);
      ghost var before := subscribers;
      var sent := TrySend(i);
      AlikeIsTransitive(old(subscribers), before, subscribers);
      if !sent {
        before := subscribers;
        Replace(i, event, readers, operations + 1, pending - {i});
        AlikeIsTransitive(old(subscribers), before, subscribers);
      }
    }

    /** Replacing the oldest queued event, since the queue was full. */
    method Replace(i: nat, event: Event, readers: seq<seq<nat>>, operations: nat, pending: set<nat>)
      requires lock == Publishing(event, pending, Dropping(i)) && IsSound(State())
      modifies `subscribers, `panicked, `lock
      ensures lock == Publishing(event, pending, Between) && IsSound(State())
      ensures Alike(old(subscribers), subscribers)
    {
      Meanwhile(if operations < |readers| then readers[operations] else []);
      ghost var first := subscribers;
      MakeRoom(i);
      AlikeIsTransitive(old(subscribers), first, subscribers);
      ghost var second := subscribers;
      Meanwhile(if operations + 1 < |readers| then readers[operations + 1] else []);
      AlikeIsTransitive(old(subscribers), second, subscribers);
      ghost var third := subscribers;
      SendAgain(i);
      AlikeIsTransitive(old(subscribers), third, subscribers);
    }

    /** The first send, when the channel has room for it. */
    method TrySend(i: nat) returns (sent: bool)
      requires IsSound(State()) && lock.Publishing? && lock.stage.Between? && i in lock.pending
      modifies `subscribers, `panicked, `lock
      ensures IsSound(State()) && Alike(old(subscribers), subscribers)
      ensures lock == old(lock).(pending := old(lock).pending - {i}, stage := if sent then Between else Dropping(i))
      ensures sent <==> |old(subscribers)[i].queue| < CAPACITY
    {
      OfferKeeps(State(), i);
      sent := |subscribers[i].queue| < CAPACITY;
      if sent {
        Send(i, lock.event);
      }
      lock := lock.(pending := lock.pending - {i}, stage := if sent then Between else Dropping(i));
      assert State() == StepOffer(old(State()), i);
    }

    /** The receive that makes room. */
    method MakeRoom(i: nat)
      requires IsSound(State()) && lock.Publishing? && lock.stage == Dropping(i)
      modifies `subscribers, `lock
      ensures IsSound(State()) && Alike(old(subscribers), subscribers)
      ensures lock == old(lock).(stage := Retrying(i))
    {
      DropKeeps(State(), i);
      var s := subscribers[i];
      var rest := if s.queue == [] then s else s.(queue := s.queue[1..]);
      OneIsAlike(subscribers, i, rest);
      subscribers, lock := subscribers[i := rest], lock.(stage := Retrying(i));
      assert State() == StepDrop(old(State()), i);
    }

    /** The second send, which finds the room that was made. */
    method SendAgain(i: nat)
      requires IsSound(State()) && lock.Publishing? && lock.stage == Retrying(i)
      modifies `subscribers, `panicked, `lock
      ensures IsSound(State()) && Alike(old(subscribers), subscribers)
      ensures lock == old(lock).(stage := Between)
    {
      RetryKeeps(State(), i);
      if |subscribers[i].queue| < CAPACITY {
        Send(i, lock.event);
      }
      lock := lock.(stage := Between);
      assert State() == StepRetry(old(State()), i);
    }

    method Send(i: nat, event: Event)
      requires i < |subscribers|
      modifies `subscribers, `panicked
      ensures Alike(old(subscribers), subscribers) && State() == HubProtocol.Send(old(State()), i, event)
    {
      panicked := panicked || !subscribers[i].open;
      var s := subscribers[i].(queue := subscribers[i].queue + [event], until := |log|);
      OneIsAlike(subscribers, i, s);
      subscribers := subscribers[i := s];
    }

    method Subscribe() returns (i: nat)
      requires Valid()
      modifies this
      ensures Valid() && State() == StepSubscribe(old(State())) && i == |old(subscribers)|
    {
      SubscribeKeeps(State());
      i := |subscribers|;
      var held := if closed || latest.None? then [] else [latest.value];
      subscribers := subscribers + [Subscriber(!closed, !closed, held, [], held, |log|, |log|)];
    }

    /** The function that subscribe returns: it closes the channel once. */
    method Unsubscribe(i: nat)
      requires Valid() && i < |subscribers|
      modifies this
      ensures Valid() && State() == StepUnsubscribe(old(State()), i)
    {
      UnsubscribeKeeps(State(), i);
      CloseChannel(i);
    }

    /** close */
    method Close()
      requires Valid()
      modifies `subscribers, `closed, `panicked
      ensures Valid() && State() == StepClose(old(State()))
    {
      RegisteredAreOpen(State());
      if closed {
        return;
      }
      closed := true;
      CloseAll();
      IsClosed(old(State()), State());
    }

    method CloseAll()
      requires !panicked && forall i | 0 <= i < |subscribers| :: subscribers[i].registered ==> subscribers[i].open
      modifies `subscribers, `panicked
      ensures !panicked && subscribers == ShutAll(old(subscribers))
    {
      ghost var before := subscribers;
      for i := 0 to |subscribers|
        invariant |subscribers| == |before| && !panicked
        invariant forall j | 0 <= j < |before| :: before[j].registered ==> before[j].open
        invariant forall j | 0 <= j < |before| :: subscribers[j] == if j < i then Shut(before[j]) else before[j]
      {
        CloseChannel(i);
      }
      assert subscribers == ShutAll(before);
    }

    /** close(subscriber) for one that is registered. */
    method CloseChannel(i: nat)
      requires i < |subscribers|
      modifies `subscribers, `panicked
      ensures subscribers == old(subscribers)[i := Shut(old(subscribers)[i])]
      ensures panicked == (old(panicked) || (old(subscribers)[i].registered && !old(subscribers)[i].open))
    {
      if subscribers[i].registered {
        panicked := panicked || !subscribers[i].open;
        subscribers := subscribers[i := subscribers[i].(registered := false, open := false)];
      }
    }
  }
}
