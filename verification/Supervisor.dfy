/** The development supervisor: it keeps the last healthy application serving while it builds the next one. What the
    outside world does (whether a build succeeds, whether a process comes up healthy, when one exits) is input. */
module Supervision {
  import opened Text
  import opened HubProtocol
  import opened Debounce

  /** A process that was started: its binary has the same number. */
  datatype Candidate = Candidate(id: nat, address: string)

  /** How one attempt to build and start an application turns out, and whether the proxy would take its address. */
  datatype Attempt =
    | GenerateFails
    | BuildFails
    | StartFails
    | Unhealthy(address: string)
    | Healthy(address: string, accepted: bool)

  /** What the select statement of the loop receives. */
  datatype Input =
    | Cancelled
    | Exited
    | ServerStopped
    | Ticked(tick: Tick, watchError: string, attempt: Attempt)

  /** What the loop finds each time it is about to wait. */
  datatype Head = Head(current: Option<Candidate>, target: Option<string>, running: set<Candidate>)

  function AddressOf(c: Option<Candidate>): Option<string> {
    match c case None => None case Some(v) => Some(v.address)
  }

  function Only(c: Option<Candidate>): set<Candidate> { match c case None => {} case Some(v) => {v} }

  function Phase(a: Attempt): string {
    match a case GenerateFails => "generate" case BuildFails => "build" case _ => "startup"
  }

  /** The binaries of the running processes. */
  function Numbers(running: set<Candidate>): set<nat> { set c | c in running :: c.id }

  /** The ticks among the inputs. */
  function TicksOf(inputs: seq<Input>): seq<Tick> {
    if inputs == [] then []
    else
      var last := inputs[|inputs| - 1];
      TicksOf(inputs[..|inputs| - 1]) + if last.Ticked? then [last.tick] else []
  }

  lemma NextTick(inputs: seq<Input>, n: nat)
    requires n < |inputs|
    ensures inputs[n].Ticked? ==> TicksOf(inputs[..n + 1]) == TicksOf(inputs[..n]) + [inputs[n].tick]
    ensures !inputs[n].Ticked? ==> TicksOf(inputs[..n + 1]) == TicksOf(inputs[..n])
  {
    assert inputs[..n + 1][..n] == inputs[..n];
  }

  /** What is decided at a tick does not depend on later ones. */
  lemma {:induction false} PastIsFixed(initial: Snapshot, ticks: seq<Tick>, later: seq<Tick>, n: nat, delay: int)
    requires n <= |ticks|
    ensures WatchAfter(initial, ticks + later, n, delay) == WatchAfter(initial, ticks, n, delay)
    ensures n < |ticks| ==> Builds(initial, ticks + later, n, delay) == Builds(initial, ticks, n, delay)
  {
    if n > 0 { PastIsFixed(initial, ticks, later, n - 1, delay); }
  }

  /** `built` says at which of the ticks a build starts. */
  predicate IsSchedule(initial: Snapshot, ticks: seq<Tick>, delay: int, built: seq<bool>) {
    |built| == |ticks| && forall k | 0 <= k < |built| :: built[k] == Builds(initial, ticks, k, delay)
  }

  lemma ScheduleGrows(initial: Snapshot, ticks: seq<Tick>, delay: int, built: seq<bool>, t: Tick)
    requires IsSchedule(initial, ticks, delay, built)
    ensures var (w, b) := Observe(WatchAfter(initial, ticks, |ticks|, delay), t, delay);
            IsSchedule(initial, ticks + [t], delay, built + [b]) && w == WatchAfter(initial, ticks + [t], |ticks| + 1, delay)
  {
    forall k: nat | k <= |ticks| ensures WatchAfter(initial, ticks + [t], k, delay) == WatchAfter(initial, ticks, k, delay) {
      PastIsFixed(initial, ticks, [t], k, delay);
    }
    forall k: nat | k < |ticks| ensures Builds(initial, ticks + [t], k, delay) == Builds(initial, ticks, k, delay) {
      PastIsFixed(initial, ticks, [t], k, delay);
    }
  }

  // ---- Where requests go, and what is stopped

  /** What the supervisor does to its proxy and its processes: it points the proxy at one, clears it, stops a process,
      and in the end closes the proxy. */
  datatype Act = Points(c: Candidate) | Clears | Stops(c: Candidate) | Closes

  /** Where requests go after these acts. */
  function Facing(acts: seq<Act>): Option<Candidate> {
    if acts == [] then None
    else
      match acts[|acts| - 1]
      case Points(c) => Some(c)
      case Stops(_) => Facing(acts[..|acts| - 1])
      case _ => None
  }

  /** After the first `n` acts requests do not go to a process that has been stopped. */
  predicate Serves(acts: seq<Act>, n: int) {
    0 <= n <= |acts| && (Facing(acts[..n]).Some? ==> Stops(Facing(acts[..n]).value) !in acts[..n])
  }

  /** Requests never go to a process that has been stopped. */
  predicate AlwaysServes(acts: seq<Act>) { forall n {:trigger Serves(acts, n)} | 0 <= n <= |acts| :: Serves(acts, n) }

  lemma FacingOne(acts: seq<Act>, a: Act)
    ensures Facing(acts + [a]) == match a case Points(c) => Some(c) case Stops(_) => Facing(acts) case _ => None
  {
    assert (acts + [a])[..|acts|] == acts;
  }

  lemma OneMoreAct(acts: seq<Act>, a: Act)
    requires AlwaysServes(acts) && (Facing(acts + [a]).Some? ==> Stops(Facing(acts + [a]).value) !in acts + [a])
    ensures AlwaysServes(acts + [a])
  {
    var longer := acts + [a];
    forall n | 0 <= n <= |longer| ensures Serves(longer, n) {
      if n <= |acts| {
        assert Serves(acts, n) && longer[..n] == acts[..n];
      } else {
        assert longer[..n] == longer;
      }
    }
  }

  /** The proxy points at the current application, or nowhere when there is none, and nothing else runs. */
  predicate IsSteady(h: Head) { h.target == AddressOf(h.current) && h.running == Only(h.current) }

  /** Input `k` starts a build. */
  predicate StartsBuild(initial: Snapshot, inputs: seq<Input>, k: nat, delay: int)
    requires k < |inputs|
  {
    inputs[k].Ticked? && Builds(initial, TicksOf(inputs[..k]) + [inputs[k].tick], |TicksOf(inputs[..k])|, delay)
  }

  /** How the loop goes from one wait to the next: an exit leaves no application, a build that comes up healthy and is
      accepted brings a new one, and everything else keeps the application and the target. */
  predicate Moves(h: Head, input: Input, builds: bool, next: Head) {
    if input.Exited? then next.current == None && next.target == None
    else if input.Ticked? && builds && input.attempt.Healthy? && input.attempt.accepted then
      && next.current.Some? && next.current != h.current
      && next.current.value.address == input.attempt.address && next.target == Some(input.attempt.address)
    else next.current == h.current && next.target == h.target
  }

  /** Head `k` leads to the one after it. */
  predicate MovesOn(initial: Snapshot, inputs: seq<Input>, heads: seq<Head>, k: nat, delay: int) {
    k < |inputs| && k + 1 < |heads| && Moves(heads[k], inputs[k], StartsBuild(initial, inputs, k, delay), heads[k + 1])
  }

  /** Every head up to the last one is steady and leads to the next. */
  predicate AreHeads(initial: Snapshot, inputs: seq<Input>, heads: seq<Head>, taken: nat, delay: int) {
    && |heads| == taken + 1 && taken <= |inputs|
    && (forall k {:trigger heads[k]} | 0 <= k <= taken :: IsSteady(heads[k]))
    && (forall k: nat {:trigger MovesOn(initial, inputs, heads, k, delay)}
          | k < taken :: MovesOn(initial, inputs, heads, k, delay))
  }

  lemma OneMoreHead(initial: Snapshot, inputs: seq<Input>, heads: seq<Head>, taken: nat, delay: int, next: Head)
    requires AreHeads(initial, inputs, heads, taken, delay) && taken < |inputs| && IsSteady(next)
    requires Moves(heads[taken], inputs[taken], StartsBuild(initial, inputs, taken, delay), next)
    ensures AreHeads(initial, inputs, heads + [next], taken + 1, delay)
  {
    var longer := heads + [next];
    forall k: nat | k < taken + 1 ensures MovesOn(initial, inputs, longer, k, delay) {
      if k < taken { assert MovesOn(initial, inputs, heads, k, delay); }
    }
  }

  /** The history is consistent: whatever the proxy was pointed at had passed its health check, whatever was stopped runs
      no more, and requests never go to what was stopped. */
  ghost predicate IsHistory(builds: nat, started: set<Candidate>, healthy: set<Candidate>, running: set<Candidate>, acts: seq<Act>) {
    && running <= started && healthy <= started
    && (forall c | c in started :: c.id < builds)
    && (forall c | Points(c) in acts :: c in healthy)
    && (forall c | Stops(c) in acts :: c in started && c !in running)
    && AlwaysServes(acts)
  }

  lemma PointsOn(builds: nat, started: set<Candidate>, healthy: set<Candidate>, running: set<Candidate>, acts: seq<Act>, c: Candidate)
    requires IsHistory(builds, started, healthy, running, acts) && c in healthy && c in running
    ensures IsHistory(builds, started, healthy, running, acts + [Points(c)]) && Facing(acts + [Points(c)]) == Some(c)
  {
    FacingOne(acts, Points(c));
    assert Stops(c) !in acts + [Points(c)];
    OneMoreAct(acts, Points(c));
  }

  lemma StopsOne(builds: nat, started: set<Candidate>, healthy: set<Candidate>, running: set<Candidate>, acts: seq<Act>, c: Candidate)
    requires IsHistory(builds, started, healthy, running, acts) && c in started && Facing(acts) != Some(c)
    ensures IsHistory(builds, started, healthy, running - {c}, acts + [Stops(c)]) && Facing(acts + [Stops(c)]) == Facing(acts)
  {
    FacingOne(acts, Stops(c));
    assert Serves(acts, |acts|) && acts[..|acts|] == acts;
    OneMoreAct(acts, Stops(c));
  }

  lemma TurnsAway(builds: nat, started: set<Candidate>, healthy: set<Candidate>, running: set<Candidate>, acts: seq<Act>, a: Act)
    requires IsHistory(builds, started, healthy, running, acts) && (a.Clears? || a.Closes?)
    ensures IsHistory(builds, started, healthy, running, acts + [a]) && Facing(acts + [a]) == None
  {
    FacingOne(acts, a);
    OneMoreAct(acts, a);
  }

  class Supervisor {
    var current: Option<Candidate>
    var listening: Option<Candidate>   // whose exit the loop waits for
    var target: Option<string>         // where the proxy sends requests
    var watch: Watch
    var lastWatchError: string
    var builds: nat                    // how many binaries have been built
    var binaries: set<nat>             // those on disk
    var started: set<Candidate>
    var healthy: set<Candidate>        // those that passed their health check
    var running: set<Candidate>        // those neither stopped nor seen to exit
    var acts: seq<Act>
    var events: seq<Event>

    /** The last healthy application, and nothing else, is running and has its binary on disk; the proxy points at it. */
    ghost predicate Valid()
      reads this
    {
      && target == AddressOf(current) && listening == current && Facing(acts) == current
      && running == Only(current) && binaries == Numbers(running)
      && IsRecorded()
    }

    ghost predicate IsRecorded()
      reads this
    {
      IsHistory(builds, started, healthy, running, acts)
    }

    constructor ()
      ensures Valid() && current.None? && acts == [] && events == [] && started == {}
    {
      current, listening, target := None, None, None;
      watch, lastWatchError := Watch(map[], false, 0), "";
      builds, binaries, started, healthy, running, acts, events := 0, {}, {}, {}, {}, [], [];
    }

    method Report(phase: string)
      modifies `events
      ensures events == old(events) + [Event(Diagnostic, phase)]
    {
      events := events + [Event(Diagnostic, phase)];
    }

    /** setTarget */
    method SetTarget(c: Candidate, accepted: bool) returns (ok: bool)
      modifies `target, `acts
      ensures ok == accepted
      ensures target == if ok then Some(c.address) else old(target)
      ensures acts == if ok then old(acts) + [Points(c)] else old(acts)
    {
      if !accepted {
        return false;
      }
      target, acts := Some(c.address), acts + [Points(c)];
      return true;
    }

    /** clearTarget: forgets the target only while it is still this one. */
    method ClearTarget(address: string) returns (cleared: bool)
      modifies `target, `acts
      ensures cleared == (old(target) == Some(address))
      ensures target == if cleared then None else old(target)
      ensures acts == if cleared then old(acts) + [Clears] else old(acts)
    {
      if target.None? || target.value != address {
        return false;
      }
      target, acts := None, acts + [Clears];
      return true;
    }

    /** candidateProcess.stop, which removes the binary too. */
    method Stop(c: Candidate)
      modifies `running, `binaries, `acts
      ensures running == old(running) - {c} && binaries == old(binaries) - {c.id} && acts == old(acts) + [Stops(c)]
    {
      running, binaries, acts := running - {c}, binaries - {c.id}, acts + [Stops(c)];
    }

    /** What happens to a healthy candidate before it is activated. */
    ghost predicate IsReady(c: Candidate)
      reads this
    {
      && target == AddressOf(current) && listening == current && Facing(acts) == current && c !in Only(current)
      && running == Only(current) + {c} && binaries == Numbers(running) && c in healthy
      && IsRecorded()
      && (current.Some? ==> current.value.id != c.id)
    }

    /** startAndCheck: a process that does not come up healthy is stopped. */
    method StartAndCheck(id: nat, a: Attempt) returns (c: Option<Candidate>)
      requires !a.GenerateFails? && !a.BuildFails?
      requires forall d | d in started :: d.id < id
      requires id in binaries && running <= started
      modifies `started, `healthy, `running, `binaries, `acts
      ensures c.Some? <==> a.Healthy?
      ensures c.Some? ==> c.value == Candidate(id, a.address) && running == old(running) + {c.value}
      ensures c.Some? ==> binaries == old(binaries) && healthy == old(healthy) + {c.value}
      ensures c.None? ==> running == old(running) && binaries - {id} == old(binaries) - {id} && healthy == old(healthy)
      ensures if a.StartFails? then started == old(started) else started == old(started) + {Candidate(id, a.address)}
      ensures acts == if a.Unhealthy? then old(acts) + [Stops(Candidate(id, a.address))] else old(acts)
    {
      if a.StartFails? {
        return None;
      }
      var candidate := Candidate(id, a.address);
      started, running := started + {candidate}, running + {candidate};
      if a.Unhealthy? {
        Stop(candidate);
        return None;
      }
      healthy := healthy + {candidate};
      return Some(candidate);
    }

    /** buildHealthyCandidate: a failure leaves everything as it was, but for one diagnostic. */
    method BuildHealthyCandidate(a: Attempt) returns (c: Option<Candidate>)
      requires Valid()
      modifies `builds, `binaries, `started, `healthy, `running, `events, `acts
      ensures c.Some? <==> a.Healthy?
      ensures c.None? ==> Valid() && events == old(events) + [Event(Diagnostic, Phase(a))] && healthy == old(healthy)
      ensures c.Some? ==> IsReady(c.value) && c.value !in old(started) && c.value.address == a.address
      ensures c.Some? ==> events == old(events) && healthy == old(healthy) + {c.value} && acts == old(acts)
      ensures started >= old(started) && old(acts) <= acts
    {
      if a.GenerateFails? {
        Report("generate");
        return None;
      }
      if a.BuildFails? {
        Report("build");
        return None;
      }
      var id := builds;
      builds, binaries := builds + 1, binaries + {id};
      ghost var before := acts;
      c := StartAndCheck(id, a);
      if c.None? {
        if a.Unhealthy? { StopsOne(builds, started, healthy, running, before, Candidate(id, a.address)); }
        binaries := binaries - {id};
        Report("startup");
      }
    }

    /** activateCandidate: the new application takes over before the old one is stopped, or is itself stopped. */
    method ActivateCandidate(c: Candidate, accepted: bool, previous: Option<Candidate>) returns (r: Option<Candidate>)
      requires IsReady(c) && previous == current
      modifies `target, `running, `binaries, `events, `acts
      ensures r == (if accepted then Some(c) else previous) && target == AddressOf(r) && Facing(acts) == r
      ensures running == Only(r) && binaries == Numbers(running) && IsRecorded()
      ensures events == old(events) + [if accepted then Event(Reload, "serve") else Event(Diagnostic, "proxy")]
      ensures acts == old(acts) + if !accepted then [Stops(c)]
                                  else if previous.None? then [Points(c)]
                                  else [Points(c), Stops(previous.value)]
    {
      var ok := SetTarget(c, accepted);
      if !ok {
        Report("proxy");
        StopsOne(builds, started, healthy, running, acts, c);
        Stop(c);
        return previous;
      }
      PointsOn(builds, started, healthy, running, old(acts), c);
      events := events + [Event(Reload, "serve")];
      if previous.Some? {
        StopsOne(builds, started, healthy, running, acts, previous.value);
        Stop(previous.value);
      }
      return Some(c);
    }

    /** A build and, when it comes up healthy, its activation: the application changes only to a healthy one that the
        proxy accepts. */
    method Rebuild(a: Attempt)
      requires Valid()
      modifies `builds, `binaries, `started, `healthy, `running, `events, `target, `acts, `current, `listening
      ensures Valid() && started >= old(started) && healthy >= old(healthy) && old(acts) <= acts
      ensures a.Healthy? && a.accepted ==> current.Some? && current.value.address == a.address
      ensures a.Healthy? && a.accepted ==> current.value !in old(started) && events == old(events) + [Event(Reload, "serve")]
      ensures !(a.Healthy? && a.accepted) ==>
                && current == old(current) && target == old(target)
                && |events| == |old(events)| + 1 && events[|events| - 1].kind == Diagnostic
    {
      var candidate := BuildHealthyCandidate(a);
      if candidate.Some? {
        current := ActivateCandidate(candidate.value, a.accepted, current);
        listening := current;
      }
    }

    /** The application exits by itself: the proxy forgets it before anything else happens. */
    method HandleExit()
      requires Valid() && listening.Some?
      modifies `current, `listening, `target, `running, `binaries, `events, `acts
      ensures Valid() && current.None? && target.None? && running == {} && binaries == {}
      ensures events == old(events) + [Event(Diagnostic, "run")] && acts == old(acts) + [Clears]
    {
      var exited := current;
      current, listening := None, None;
      TurnsAway(builds, started, healthy, running, acts, Clears);
      var _ := ClearTarget(exited.value.address);
      running, binaries := running - {exited.value}, binaries - {exited.value.id};
      Report("run");
    }

    /** A tick of the loop. */
    method HandleTick(tick: Tick, watchError: string, a: Attempt, delay: int) returns (built: bool)
      requires Valid()
      modifies this
      ensures Valid() && (watch, built) == Observe(old(watch), tick, delay)
      ensures !(built && a.Healthy? && a.accepted) ==> current == old(current) && target == old(target)
      ensures built && a.Healthy? && a.accepted ==>
                current.Some? && current != old(current) && current.value.address == a.address
    {
      if watchError != "" && watchError != lastWatchError {
        Report("watch");
      }
      lastWatchError := watchError;
      if watch.snapshot != tick.snapshot {
        watch := Watch(tick.snapshot, true, tick.now);
      }
      built := watch.pending && tick.now - watch.changedAt >= delay;
      if built {
        watch := watch.(pending := false);
        Rebuild(a);
      }
    }

    /** The deferred end of Run: the proxy is closed before the application is stopped. */
    method Shutdown()
      requires Valid()
      modifies `running, `binaries, `acts
      ensures running == {} && binaries == {} && IsRecorded()
      ensures acts == old(acts) + [Closes] + if current.Some? then [Stops(current.value)] else []
    {
      TurnsAway(builds, started, healthy, running, acts, Closes);
      acts := acts + [Closes];
      if current.Some? {
        StopsOne(builds, started, healthy, running, acts, current.value);
        Stop(current.value);
      }
    }

    /** What Run does before its loop: the first build, and then the first look at the files. */
    method Begin(first: Attempt, initial: Snapshot, initialError: string)
      requires Valid() && current.None? && started == {}
      modifies this
      ensures Valid() && watch == Watch(initial, false, 0) && lastWatchError == initialError
      ensures AddressOf(current) == if first.Healthy? && first.accepted then Some(first.address) else None
    {
      events := events + [Event(Ready, "proxy")];
      Rebuild(first);
      watch, lastWatchError := Watch(initial, false, 0), initialError;
      if initialError != "" {
        Report("watch");
      }
    }

    /** One input of the loop, which finds what the last head says. */
    method Take(initial: Snapshot, inputs: seq<Input>, taken: nat, delay: int, ghost ticks: seq<Tick>, ghost h: Head)
        returns (built: bool)
      requires Valid() && taken < |inputs| && (inputs[taken].Exited? || inputs[taken].Ticked?)
      requires ticks == TicksOf(inputs[..taken]) && watch == WatchAfter(initial, ticks, |ticks|, delay)
      requires h == Head(current, target, running)
      modifies this
      ensures Valid() && built == StartsBuild(initial, inputs, taken, delay)
      ensures Moves(h, inputs[taken], built, Head(current, target, running))
      ensures watch == if inputs[taken].Ticked? then Observe(old(watch), inputs[taken].tick, delay).0 else old(watch)
    {
      built := false;
      if inputs[taken].Ticked? {
        PastIsFixed(initial, ticks, [inputs[taken].tick], |ticks|, delay);
        built := HandleTick(inputs[taken].tick, inputs[taken].watchError, inputs[taken].attempt, delay);
      } else if listening.Some? {
        HandleExit();
      }
    }

    /** Run: `heads` is what every wait of the loop finds, and `built` says which ticks started a build. */
    method Run(first: Attempt, initial: Snapshot, initialError: string, inputs: seq<Input>, delay: int)
        returns (heads: seq<Head>, built: seq<bool>, taken: nat)
      requires Valid() && current.None? && started == {}
      modifies this
      ensures AreHeads(initial, inputs, heads, taken, delay)
      ensures heads[0].target == if first.Healthy? && first.accepted then Some(first.address) else None
      ensures running == {} && binaries == {} && IsRecorded()
      ensures IsSchedule(initial, TicksOf(inputs[..taken]), delay, built)
      ensures taken < |inputs| ==> inputs[taken].Cancelled? || inputs[taken].ServerStopped?
    {
      Begin(first, initial, initialError);
      heads, built, taken := [Head(current, target, running)], [], 0;
      ghost var ticks: seq<Tick> := [];
      while taken < |inputs| && !inputs[taken].Cancelled? && !inputs[taken].ServerStopped?
        invariant Valid() && AreHeads(initial, inputs, heads, taken, delay)
        invariant heads[taken] == Head(current, target, running)
        invariant heads[0].target == if first.Healthy? && first.accepted then Some(first.address) else None
        invariant ticks == TicksOf(inputs[..taken]) && IsSchedule(initial, ticks, delay, built)
        invariant watch == WatchAfter(initial, ticks, |ticks|, delay)
        decreases |inputs| - taken
      {
        NextTick(inputs, taken);
        if inputs[taken].Ticked? { ScheduleGrows(initial, ticks, delay, built, inputs[taken].tick); }
        var begun := Take(initial, inputs, taken, delay, ticks, heads[taken]);
        OneMoreHead(initial, inputs, heads, taken, delay, Head(current, target, running));
        if inputs[taken].Ticked? {
          ticks, built := ticks + [inputs[taken].tick], built + [begun];
        }
        taken, heads := taken + 1, heads + [Head(current, target, running)];
      }
      Shutdown();
    }
  }
}
