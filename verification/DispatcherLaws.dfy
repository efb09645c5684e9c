/** What the dispatcher guarantees in every run, and where its promises stop. */
module DispatcherLaws {
  import opened Text
  import opened Dispatcher

  /** Every step of a run satisfies `p` in the state it is taken from. */
  ghost predicate Throughout(steps: seq<Step>, p: (State, Step) -> bool)
  {
    steps != [] ==>
      var before := Run(steps[..|steps| - 1]);
      before.Some? && Throughout(steps[..|steps| - 1], p) && p(before.value, steps[|steps| - 1])
  }

  predicate NoWebSocket(s: State, step: Step) { step.Enqueue? ==> !step.webSocket }

  /** Once a call has been enqueued, a limit may be raised, or a call to change it refused, but it is
      not lowered. */
  predicate NeverLowers(s: State, step: Step)
  {
    && (step.SetMaxRequests? ==> step.n < 1 || step.n >= s.maxRequests || s.calls == [])
    && (step.SetMaxPerHost? ==> step.n < 1 || step.n >= s.maxPerHost || s.calls == [])
  }

  // ---------------------------------------------------------------- what a step does to the calls

  function Rank(p: Phase): nat
  {
    match p
    case Ready => 0 case Promoted => 1 case Submitted => 2 case Signalled => 3 case Decremented => 4 case Removed => 5
  }

  predicate Live(p: Phase) { p == Ready || InRunning(p) }

  predicate SameButPhase(a: Call, b: Call)
  {
    && a.request == b.request && a.host == b.host && a.webSocket == b.webSocket && a.counter == b.counter
    && a.callbacks <= b.callbacks && Rank(a.phase) <= Rank(b.phase)
  }

  /** A step that enqueues nothing changes phases and callbacks only, and never backwards. */
  lemma SameCalls(s: State, step: Step)
    requires Inv(s) && Enabled(s, step) && !(step.Enqueue? && step.request !in s.executed)
    ensures var t := Next(s, step);
            |t.calls| == |s.calls| && forall c :: 0 <= c < |s.calls| ==> SameButPhase(s.calls[c], t.calls[c])
  {
    hide Signals, SyncPlaced, Counted, PassOk, NotStuck, RemoveFirst, FindExisting, RemoveAt, Increasing, NoDuplicates;
    if step.Visit? {
      assert s.ready[s.pass.value.idx] in s.ready;
    }
  }

  /** What `findExistingCallWithHost` returns to the plain call being enqueued; the call itself is
      already in the ready deque. */
  function Found(s: State, request: nat, host: string): (r: Option<nat>)
    requires InBounds(s)
    ensures r.Some? ==> r.value <= |s.calls|
  {
    FindExisting(s.calls + [Call(request, host, false, |s.calls|, Ready, 0)], s.running, s.ready + [|s.calls|], host)
  }

  /** The call table after an enqueue. */
  lemma EnqueuedCall(s: State, request: nat, host: string, webSocket: bool)
    requires InBounds(s) && request !in s.executed
    ensures var t, id := EnqueueNext(s, request, host, webSocket), |s.calls|;
            && |t.calls| == id + 1 && t.calls[..id] == s.calls && t.promoted == s.promoted
            && t.calls[id].request == request && t.calls[id].host == host
            && t.calls[id].webSocket == webSocket && t.calls[id].phase == Ready
            && (webSocket ==> t.calls[id].counter == id)
            && (!webSocket ==>
                  var e := Found(s, request, host);
                  t.calls[id].counter == if e.Some? && e.value < id then s.calls[e.value].counter else id)
  {
    hide FindExisting;
    var t, id := EnqueueNext(s, request, host, webSocket), |s.calls|;
    assert t.calls[..id] == s.calls;
  }

  // ---------------------------------------------------------------- counters

  /** The running async calls that hold counter `k` and have not begun finishing. */
  ghost function Unfinished(s: State, k: nat): (r: set<nat>)
    requires InBounds(s)
  {
    set c | c in s.running && s.calls[c].counter == k && s.calls[c].phase != Decremented
  }

  /** In every interleaving, each counter object equals the number of running async calls that hold
      it and have not begun finishing. */
  lemma CountersExact(steps: seq<Step>, k: nat)
    requires Run(steps).Some?
    ensures var s := Run(steps).value; k < |s.counters| ==> s.counters[k] == |Unfinished(s, k)|
  {
    hide Run, Signals, SyncPlaced, PassOk, NotStuck, Increasing, NoDuplicates;
    var s := Run(steps).value;
    assert Unfinished(s, k) == Holders(s, k) by {
      forall c
        ensures c in Unfinished(s, k) <==> c in Holders(s, k)
      {
        if c in s.running {
          assert 0 <= c < |s.calls|;
        }
      }
    }
  }

  // ---------------------------------------------------------------- limits

  predicate WithinLimits(s: State)
  {
    |s.running| <= s.maxRequests && forall k :: 0 <= k < |s.counters| ==> s.counters[k] <= s.maxPerHost
  }

  lemma LimitsStep(s: State, step: Step)
    requires Inv(s) && Enabled(s, step) && WithinLimits(s) && NeverLowers(s, step)
    ensures WithinLimits(Next(s, step))
  {
    hide Signals, SyncPlaced, Counted, PassOk, NotStuck, RemoveFirst, FindExisting, RemoveAt, Increasing;
    if s.running != [] {
      assert s.running[0] < |s.calls|;
    }
    if step.Remove? {
      InFlight(s, step.call);
      RemoveFirstMembers(s.running, step.call);
    }
    AtLeastOne(s);
  }

  lemma AtLeastOne(s: State)
    requires Inv(s)
    ensures s.maxRequests >= 1 && s.maxPerHost >= 1
  {
    hide InBounds, Placed, Counted, PassOk, NotStuck;
  }

  lemma {:induction false} LimitsKept(steps: seq<Step>)
    requires Run(steps).Some? && Throughout(steps, NeverLowers)
    ensures WithinLimits(Run(steps).value)
  {
    hide Next, Inv, Enabled;
    if steps != [] {
      LimitsKept(steps[..|steps| - 1]);
      LimitsStep(Run(steps[..|steps| - 1]).value, steps[|steps| - 1]);
    }
  }

  predicate Together(a: Call, b: Call) { a.host == b.host && Live(a.phase) && Live(b.phase) }

  /** Without web sockets, all live calls to one host share one counter object. */
  predicate Shared(s: State)
  {
    forall a, b :: 0 <= a < |s.calls| && 0 <= b < |s.calls| && Together(s.calls[a], s.calls[b]) ==>
      s.calls[a].counter == s.calls[b].counter
  }

  lemma EnqueueShared(s: State, request: nat, host: string)
    requires Inv(s) && Shared(s)
    ensures Shared(EnqueueNext(s, request, host, false))
  {
    hide Signals, SyncPlaced, Counted, PassOk, NotStuck, FindExisting, Increasing, NoDuplicates;
    var t, id := EnqueueNext(s, request, host, false), |s.calls|;
    if request !in s.executed {
      var calls, ready := s.calls + [Call(request, host, false, id, Ready, 0)], s.ready + [id];
      var e := FindExisting(calls, s.running, ready, host);
      assert calls[ready[|s.ready|]].host == host;
      assert e.Some?;
      assert e.value == id || e.value in s.running || e.value in s.ready;
      assert e.value != id ==> e.value < id && Live(s.calls[e.value].phase) && s.calls[e.value].host == host;
      if e.value == id {
        NoLiveCall(s, host, calls, ready);
      }
    }
  }

  lemma NoLiveCall(s: State, host: string, calls: seq<Call>, ready: seq<nat>)
    requires Inv(s) && |calls| == |s.calls| + 1 && calls[..|s.calls|] == s.calls && ready == s.ready + [|s.calls|]
    requires FindExisting(calls, s.running, ready, host) == Some(|s.calls|)
    ensures forall a :: 0 <= a < |s.calls| && Live(s.calls[a].phase) ==> s.calls[a].host != host
  {
    hide Signals, SyncPlaced, Counted, PassOk, NotStuck, NoDuplicates;
    FirstIsFirst(calls, s.running, host);
    FirstIsFirst(calls, ready, host);
    forall a | 0 <= a < |s.calls| && Live(s.calls[a].phase)
      ensures s.calls[a].host != host
    {
      assert a in s.running || a in s.ready;
      if a in s.ready {
        var i :| 0 <= i < |s.ready| && s.ready[i] == a;
        assert ready[i] == a;
      }
    }
  }

  /** The call found is the first one with the host. */
  lemma {:induction false} FirstIsFirst(calls: seq<Call>, ids: seq<nat>, host: string)
    requires forall i :: 0 <= i < |ids| ==> ids[i] < |calls|
    ensures var r := FirstWithHost(calls, ids, host);
            r.Some? ==> exists n :: 0 <= n < |ids| && ids[n] == r.value
                                    && forall i :: 0 <= i < n ==> calls[ids[i]].host != host
  {
    if ids != [] && calls[ids[0]].host != host {
      FirstIsFirst(calls, ids[1..], host);
      var r := FirstWithHost(calls, ids[1..], host);
      if r.Some? {
        var n :| 0 <= n < |ids[1..]| && ids[1..][n] == r.value
                 && forall i :: 0 <= i < n ==> calls[ids[1..][i]].host != host;
        assert ids[n + 1] == r.value;
        assert forall i :: 1 <= i < n + 1 ==> ids[i] == ids[1..][i - 1];
      }
    }
  }

  /** `findExistingCallWithHost` returns the first call to the host in the running deque followed by the
      ready one, and nothing exactly when there is none. */
  lemma FoundIsFirst(calls: seq<Call>, running: seq<nat>, ready: seq<nat>, host: string)
    requires forall i :: 0 <= i < |running| ==> running[i] < |calls|
    requires forall i :: 0 <= i < |ready| ==> ready[i] < |calls|
    ensures var line, r := running + ready, FindExisting(calls, running, ready, host);
            && (r.None? ==> forall i :: 0 <= i < |line| ==> calls[line[i]].host != host)
            && (r.Some? ==> exists n :: 0 <= n < |line| && line[n] == r.value && calls[line[n]].host == host
                                        && forall i :: 0 <= i < n ==> calls[line[i]].host != host)
  {
    hide FirstWithHost;
    FirstIsFirst(calls, running, host);
    FirstIsFirst(calls, ready, host);
    var line, r := running + ready, FindExisting(calls, running, ready, host);
    assert forall i :: 0 <= i < |running| ==> line[i] == running[i];
    if FirstWithHost(calls, running, host).Some? {
      var n :| 0 <= n < |running| && running[n] == r.value && forall i :: 0 <= i < n ==> calls[running[i]].host != host;
      assert line[n] == r.value;
    } else if r.Some? {
      var n :| 0 <= n < |ready| && ready[n] == r.value && forall i :: 0 <= i < n ==> calls[ready[i]].host != host;
      assert line[|running| + n] == r.value;
    }
  }

  lemma SharedStep(s: State, step: Step)
    requires Inv(s) && Enabled(s, step) && Shared(s) && NoWebSocket(s, step)
    ensures Shared(Next(s, step))
  {
    hide Placed, SyncPlaced, Signals, Counted, PassOk, NotStuck, RemoveFirst, VisitNext, EnqueueNext;
    if step.Enqueue? && step.request !in s.executed {
      EnqueueShared(s, step.request, step.host);
    } else {
      SameCalls(s, step);
    }
  }

  lemma {:induction false} SharedKept(steps: seq<Step>)
    requires Run(steps).Some? && Throughout(steps, NoWebSocket)
    ensures Shared(Run(steps).value)
  {
    hide Next, Inv, Enabled;
    if steps != [] {
      SharedKept(steps[..|steps| - 1]);
      SharedStep(Run(steps[..|steps| - 1]).value, steps[|steps| - 1]);
    }
  }

  /** The unfinished running calls to a host. */
  ghost function ToHost(s: State, host: string): (r: set<nat>)
    requires InBounds(s)
  {
    set c | c in s.running && s.calls[c].host == host && s.calls[c].phase != Decremented
  }

  /** If the limits are not lowered once calls exist, the running deque never exceeds `maxRequests`; without web
      sockets, no host has more than `maxRequestsPerHost` unfinished running calls. */
  lemma LimitsHold(steps: seq<Step>, host: string)
    requires Run(steps).Some? && Throughout(steps, NeverLowers)
    ensures var s := Run(steps).value;
            && |s.running| <= s.maxRequests
            && (Throughout(steps, NoWebSocket) ==> |ToHost(s, host)| <= s.maxPerHost)
  {
    hide Run, Inv, Throughout;
    var s := Run(steps).value;
    LimitsKept(steps);
    if Throughout(steps, NoWebSocket) {
      SharedKept(steps);
      AtLeastOne(s);
      HostLimit(s, host);
    }
  }

  lemma HostLimit(s: State, host: string)
    requires Inv(s) && WithinLimits(s) && Shared(s)
    ensures |ToHost(s, host)| <= s.maxPerHost
  {
    hide PassOk, NotStuck, Increasing, NoDuplicates;
    if ToHost(s, host) != {} {
      var a :| a in ToHost(s, host);
      var k := s.calls[a].counter;
      forall c | c in ToHost(s, host)
        ensures c in Holders(s, k)
      {
        assert InRunning(s.calls[c].phase) && InRunning(s.calls[a].phase);
      }
      SubsetSize(ToHost(s, host), Holders(s, k));
    }
  }

  lemma SubsetSize(a: set<nat>, b: set<nat>)
    requires a <= b
    ensures |a| <= |b|
  {
    assert b == a + (b - a);
  }

  // ---------------------------------------------------------------- no stuck call

  /** No thread is on its way to `promoteAndExecute` or inside it. */
  predicate Quiescent(s: State) { s.pass.None? && !PromoteOwed(s) }

  /** A ready call that could run exists only while some thread still owes a promote; at quiescence a
      ready call waits behind a running one that will owe it. */
  lemma NoStuckCall(steps: seq<Step>)
    requires Run(steps).Some?
    ensures var s := Run(steps).value;
            && (forall j :: 0 <= j < |s.ready| && Eligible(s, s.ready[j]) ==>
                  PromoteOwed(s) || (s.pass.Some? && s.pass.value.idx <= j))
            && (Quiescent(s) && s.ready != [] ==>
                  exists c :: c in s.running && c < |s.calls| && Active(s.calls[c].phase))
  {
    hide Run, Signals, SyncPlaced, Counted, PassOk, Increasing, NoDuplicates;
    var s := Run(steps).value;
    if Quiescent(s) && s.ready != [] {
      var k := s.calls[s.ready[0]].counter;
      AtLeastOne(s);
      assert !Eligible(s, s.ready[0]);
      if |s.running| >= s.maxRequests {
        var c := s.running[0];
        assert c in s.running && s.calls[c].phase != Decremented;
      } else {
        CounterHeld(s, k);
      }
    }
  }

  /** The idle callback fires, once, exactly at the end of a `finished` call's pass that leaves all three deques
      empty. */
  lemma IdleMeansIdle(s: State, step: Step)
    requires Inv(s) && Enabled(s, step)
    ensures var t := Next(s, step);
            t.idleFirings == s.idleFirings
              + if step.EndPass? && s.pass.value.fromFinish && t.ready == [] && t.running == [] && t.sync == [] then 1
                else 0
  {
    hide Placed, Counted, NotStuck, RemoveFirst, FindExisting, RemoveAt;
  }

  /** Whether `finished` began the last pass of a run. */
  predicate BegunByFinish(steps: seq<Step>)
  {
    steps != [] && var last := steps[|steps| - 1];
      if last.BeginPass? then last.fromFinish else BegunByFinish(steps[..|steps| - 1])
  }

  /** The ends of passes of `finished` that leave all three deques empty. */
  ghost function IdleEnds(steps: seq<Step>): (n: nat)
    requires Run(steps).Some?
  {
    if steps == [] then 0
    else
      var init := steps[..|steps| - 1];
      var s := Run(init).value;
      IdleEnds(init) + if steps[|steps| - 1].EndPass? && BegunByFinish(init)
                          && s.ready == [] && s.running == [] && s.sync == [] then 1 else 0
  }

  /** In every run the idle callback has been called exactly once for each of them. */
  lemma {:induction false} FiringsExact(steps: seq<Step>)
    requires Run(steps).Some?
    ensures var s := Run(steps).value;
            s.idleFirings == IdleEnds(steps) && (s.pass.Some? ==> s.pass.value.fromFinish == BegunByFinish(steps))
  {
    hide Next, Inv, Enabled;
    if steps != [] {
      var s, step := Run(steps[..|steps| - 1]).value, steps[|steps| - 1];
      FiringsExact(steps[..|steps| - 1]);
      IdleMeansIdle(s, step);
      EndKeepsDeques(s, step);
      PassKept(s, step);
    }
  }

  lemma EndKeepsDeques(s: State, step: Step)
    requires Inv(s) && Enabled(s, step)
    ensures step.EndPass? ==>
              s.pass.Some?
              && var t := Next(s, step); t.ready == s.ready && t.running == s.running && t.sync == s.sync
  {
  }

  lemma PassKept(s: State, step: Step)
    requires Inv(s) && Enabled(s, step)
    ensures var t := Next(s, step);
            t.pass.Some? ==>
              if step.BeginPass? then t.pass.value.fromFinish == step.fromFinish
              else s.pass.Some? && t.pass.value.fromFinish == s.pass.value.fromFinish
  {
    hide Placed, Counted, NotStuck, RemoveFirst, FindExisting, RemoveAt;
  }

  // ---------------------------------------------------------------- passes and limits over runs

  /** Calls that have finished, passes that `finished` has begun, and other passes, in a run. */
  function Finishes(steps: seq<Step>): (n: nat)
  {
    if steps == [] then 0
    else
      var last := steps[|steps| - 1];
      Finishes(steps[..|steps| - 1]) + if last.Remove? || last.SyncFinish? then 1 else 0
  }

  function Passes(steps: seq<Step>, fromFinish: bool): (n: nat)
  {
    if steps == [] then 0
    else Passes(steps[..|steps| - 1], fromFinish) + if steps[|steps| - 1] == BeginPass(fromFinish) then 1 else 0
  }

  /** The limits that a run has set, 64 calls and 5 to a host at first; what is below 1 is refused. */
  function LimitsSet(steps: seq<Step>): (r: (int, int))
  {
    if steps == [] then (64, 5)
    else
      var before := LimitsSet(steps[..|steps| - 1]);
      match steps[|steps| - 1]
      case SetMaxRequests(n) => if n >= 1 then (n, before.1) else before
      case SetMaxPerHost(n) => if n >= 1 then (before.0, n) else before
      case _ => before
  }

  function ChangesOfLimits(steps: seq<Step>): (n: nat)
  {
    if steps == [] then 0
    else
      var last := steps[|steps| - 1];
      ChangesOfLimits(steps[..|steps| - 1])
      + if (last.SetMaxRequests? || last.SetMaxPerHost?) && last.n >= 1 then 1 else 0
  }

  /** In every run: each finished call has had its own pass or is still owed one, and so has each enqueued call and
      each change of a limit; the limits are the last ones set. */
  lemma {:induction false} PassesPaid(steps: seq<Step>)
    requires Run(steps).Some?
    ensures var s := Run(steps).value;
            && Passes(steps, true) + s.owedFinish == Finishes(steps)
            && Passes(steps, false) + s.owed == |s.calls| + ChangesOfLimits(steps)
            && (s.maxRequests, s.maxPerHost) == LimitsSet(steps)
  {
    hide Next, Inv, Enabled;
    if steps != [] {
      PassesPaid(steps[..|steps| - 1]);
      OwedStep(Run(steps[..|steps| - 1]).value, steps[|steps| - 1]);
    }
  }

  lemma OwedStep(s: State, step: Step)
    requires Inv(s) && Enabled(s, step)
    ensures var t := Next(s, step);
            && t.owedFinish + (if step == BeginPass(true) then 1 else 0)
               == s.owedFinish + (if step.Remove? || step.SyncFinish? then 1 else 0)
            && t.owed + (if step == BeginPass(false) then 1 else 0)
               == s.owed + (|t.calls| - |s.calls|)
                  + (if (step.SetMaxRequests? || step.SetMaxPerHost?) && step.n >= 1 then 1 else 0)
            && t.maxRequests == (if step.SetMaxRequests? && step.n >= 1 then step.n else s.maxRequests)
            && t.maxPerHost == (if step.SetMaxPerHost? && step.n >= 1 then step.n else s.maxPerHost)
  {
    hide Counted, NotStuck, RemoveFirst, FindExisting, RemoveAt, PassOk, Increasing, NoDuplicates;
  }

  // ---------------------------------------------------------------- life cycle

  /** A call never goes back: it enters the running deque once, and leaves it once. */
  lemma PhasesAdvance(s: State, step: Step, c: nat)
    requires Inv(s) && Enabled(s, step) && c < |s.calls|
    ensures c < |Next(s, step).calls| && SameButPhase(s.calls[c], Next(s, step).calls[c])
  {
    hide Placed, SyncPlaced, Signals, Counted, PassOk, NotStuck, EnqueueNext, VisitNext, RemoveFirst;
    if step.Enqueue? && step.request !in s.executed {
      EnqueuedCall(s, step.request, step.host, step.webSocket);
      assert Next(s, step).calls[..|s.calls|][c] == s.calls[c];
    } else {
      SameCalls(s, step);
    }
  }

  /** In every run: no "Call wasn't in-flight!", neither for an async nor for a sync call; every call in at
      most one deque and at most once; a sync call in its deque exactly between `executed` and `finished`;
      an async call with exactly one attempted callback by the time it leaves. */
  lemma LifeCycle(steps: seq<Step>, c: nat)
    requires Run(steps).Some?
    ensures var s := Run(steps).value;
            && !s.crashed
            && (HasPhase(s, c, Decremented) ==> c in s.running)
            && NoDuplicates(s.ready) && NoDuplicates(s.running) && !(c in s.ready && c in s.running)
            && NoDuplicates(s.sync) && (forall r :: r in s.sync <==> InSync(s, r, Added))
            && (c < |s.calls| ==>
                  && (s.calls[c].phase == Removed ==> c !in s.ready && c !in s.running && s.calls[c].callbacks == 1)
                  && s.calls[c].callbacks <= 1
                  && (s.calls[c].callbacks == 0 <==> s.calls[c].phase in {Ready, Promoted, Submitted}))
  {
    hide Run, Counted, PassOk, NotStuck;
  }

  /** The `executed` flag lets each `RealCall` be used once: no two async calls have the same request, and
      no request was ever used both for an async call and for `execute`, finished or not. */
  ghost predicate UsedOnce(s: State)
  {
    && SyncPlaced(s)
    && (forall c :: 0 <= c < |s.calls| ==> s.calls[c].request in s.executed && s.calls[c].request !in s.syncUse)
    && (forall c, d :: 0 <= c < d < |s.calls| ==> s.calls[c].request != s.calls[d].request)
  }

  lemma UsedOnceStep(s: State, step: Step)
    requires Inv(s) && Enabled(s, step) && UsedOnce(s)
    ensures UsedOnce(Next(s, step))
  {
    NextSyncPlaced(s, step);
    RequestsStep(s, step);
    hide Placed, SyncPlaced, Signals, Counted, PassOk, NotStuck, Next;
    var t := Next(s, step);
    if step.Enqueue? && step.request !in s.executed {
      assert s.syncUse.Keys <= s.executed by { SyncKeys(s); }
      assert forall c :: 0 <= c < |s.calls| ==> t.calls[c] == t.calls[..|s.calls|][c] == s.calls[c];
    }
  }

  lemma SyncKeys(s: State)
    requires SyncPlaced(s)
    ensures s.syncUse.Keys <= s.executed
  {
  }

  /** What a step does to the requests: at most one becomes used, in one way, and none ceases to be. */
  lemma RequestsStep(s: State, step: Step)
    requires Inv(s) && Enabled(s, step)
    ensures var t := Next(s, step);
            && s.executed <= t.executed && s.syncUse.Keys <= t.syncUse.Keys
            && (forall r :: r in t.syncUse ==> r in s.syncUse || (r !in s.executed && t.calls == s.calls))
            && if step.Enqueue? && step.request !in s.executed then
                 && t.syncUse == s.syncUse && t.executed == s.executed + {step.request}
                 && |t.calls| == |s.calls| + 1 && t.calls[..|s.calls|] == s.calls
                 && t.calls[|s.calls|].request == step.request
               else |t.calls| == |s.calls| &&
                    forall c :: 0 <= c < |s.calls| ==> t.calls[c].request == s.calls[c].request
  {
    hide Placed, SyncPlaced, Signals, Counted, PassOk, NotStuck, RemoveFirst, FindExisting, RemoveAt;
    if step.Enqueue? && step.request !in s.executed {
      EnqueuedCall(s, step.request, step.host, step.webSocket);
    }
  }

  lemma {:induction false} CallsUsedOnce(steps: seq<Step>)
    requires Run(steps).Some?
    ensures UsedOnce(Run(steps).value)
  {
    hide Next, Inv, Enabled;
    if steps != [] {
      CallsUsedOnce(steps[..|steps| - 1]);
      UsedOnceStep(Run(steps[..|steps| - 1]).value, steps[|steps| - 1]);
    }
  }

  // ---------------------------------------------------------------- in once, out once

  /** How often call `c` is removed from the running deque in a run. */
  function Removals(steps: seq<Step>, c: nat): (n: nat)
  {
    if steps == [] then 0
    else Removals(steps[..|steps| - 1], c) + if steps[|steps| - 1] == Remove(c) then 1 else 0
  }

  predicate Gone(s: State, c: nat) { c < |s.calls| && s.calls[c].phase == Removed }

  /** Steps other than an enqueue and a turn of the promote loop make no call leave `Ready`, and only a
      removal makes one `Removed`. */
  lemma OtherPhases(s: State, step: Step)
    requires Inv(s) && Enabled(s, step) && !step.Visit? && (step.Enqueue? ==> step.request in s.executed)
    ensures var t := Next(s, step);
            && t.promoted == s.promoted && |t.calls| == |s.calls|
            && (forall c :: 0 <= c < |s.calls| ==> (t.calls[c].phase == Ready <==> s.calls[c].phase == Ready))
            && (forall c :: 0 <= c < |s.calls| ==>
                  (t.calls[c].phase == Removed <==> s.calls[c].phase == Removed || step == Remove(c)))
  {
    hide Signals, SyncPlaced, Counted, PassOk, NotStuck, RemoveFirst, FindExisting, Increasing, NoDuplicates;
    if step.Remove? {
      InFlight(s, step.call);
    }
  }

  lemma RemovalStep(s: State, step: Step, c: nat)
    requires Inv(s) && Enabled(s, step)
    ensures Gone(Next(s, step), c) <==> Gone(s, c) || step == Remove(c)
    ensures step == Remove(c) ==> !Gone(s, c)
  {
    hide Placed, Signals, SyncPlaced, Counted, PassOk, NotStuck, RemoveFirst, EnqueueNext, VisitNext;
    if step.Visit? {
      VisitGone(s, c);
    } else if step.Enqueue? && step.request !in s.executed {
      EnqueuedCall(s, step.request, step.host, step.webSocket);
      var t := Next(s, step);
      assert c < |s.calls| ==> t.calls[c] == t.calls[..|s.calls|][c] == s.calls[c];
    } else {
      OtherPhases(s, step);
    }
  }

  lemma VisitGone(s: State, c: nat)
    requires Inv(s) && Enabled(s, Visit)
    ensures Gone(VisitNext(s), c) <==> Gone(s, c)
  {
    hide Signals, SyncPlaced, Counted, PassOk, NotStuck, RemoveAt, Increasing, NoDuplicates;
    assert s.ready[s.pass.value.idx] in s.ready;
  }

  lemma NobodyGone(c: nat)
    ensures !Gone(INITIAL, c)
  {
  }

  lemma {:induction false} RemovedOnce(steps: seq<Step>, c: nat)
    requires Run(steps).Some?
    ensures Removals(steps, c) == if Gone(Run(steps).value, c) then 1 else 0
  {
    hide Next, Inv, Enabled, Gone;
    if steps == [] {
      NobodyGone(c);
    } else {
      RemovedOnce(steps[..|steps| - 1], c);
      RemovalStep(Run(steps[..|steps| - 1]).value, steps[|steps| - 1], c);
    }
  }

  /** The promotions of a run hold each call at most once: exactly those that are no longer ready. */
  predicate PromotedOnce(s: State)
  {
    && NoDuplicates(s.promoted)
    && (forall i :: 0 <= i < |s.promoted| ==> s.promoted[i] < |s.calls|)
    && (forall c :: 0 <= c < |s.calls| ==> (c in s.promoted <==> s.calls[c].phase != Ready))
  }

  lemma PromotedStep(s: State, step: Step)
    requires Inv(s) && Enabled(s, step) && PromotedOnce(s)
    ensures PromotedOnce(Next(s, step))
  {
    hide Placed, Signals, SyncPlaced, Counted, PassOk, NotStuck, RemoveFirst, EnqueueNext, VisitNext, NoDuplicates;
    if step.Visit? {
      PromotedVisit(s);
    } else if step.Enqueue? && step.request !in s.executed {
      EnqueuedCall(s, step.request, step.host, step.webSocket);
      PromotedEnqueue(s, Next(s, step));
    } else {
      OtherPhases(s, step);
    }
  }

  lemma PromotedEnqueue(s: State, t: State)
    requires PromotedOnce(s) && t.promoted == s.promoted && |t.calls| == |s.calls| + 1
    requires t.calls[..|s.calls|] == s.calls && t.calls[|s.calls|].phase == Ready
    ensures PromotedOnce(t)
  {
    assert forall c :: 0 <= c < |s.calls| ==> t.calls[c] == s.calls[c];
    hide NoDuplicates;
  }

  lemma PromotedVisit(s: State)
    requires Inv(s) && Enabled(s, Visit) && PromotedOnce(s)
    ensures PromotedOnce(VisitNext(s))
  {
    hide Signals, SyncPlaced, Counted, PassOk, NotStuck, RemoveAt, Increasing;
    assert s.ready[s.pass.value.idx] in s.ready;
  }

  lemma {:induction false} PromotionsOnce(steps: seq<Step>)
    requires Run(steps).Some?
    ensures PromotedOnce(Run(steps).value)
  {
    hide Next, Inv, Enabled;
    if steps != [] {
      PromotionsOnce(steps[..|steps| - 1]);
      PromotedStep(Run(steps[..|steps| - 1]).value, steps[|steps| - 1]);
    }
  }

  /** Over every run: a call enters the running deque at most once, and exactly when it is no longer
      ready; it leaves it exactly once if it has been removed, and else not at all. */
  lemma InOnceOutOnce(steps: seq<Step>, c: nat)
    requires Run(steps).Some?
    ensures var s := Run(steps).value;
            && multiset(s.promoted)[c] == (if c < |s.calls| && s.calls[c].phase != Ready then 1 else 0)
            && Removals(steps, c) == (if c < |s.calls| && s.calls[c].phase == Removed then 1 else 0)
  {
    hide Run, Inv;
    PromotionsOnce(steps);
    RemovedOnce(steps, c);
    hide Removals;
    var s := Run(steps).value;
    if c in s.promoted {
      CountOne(s.promoted, c);
    }
  }

  lemma CountOne(s: seq<nat>, c: nat)
    requires NoDuplicates(s) && c in s
    ensures multiset(s)[c] == 1
  {
    var i :| 0 <= i < |s| && s[i] == c;
    assert s == s[..i] + [c] + s[i + 1..];
    assert c !in s[..i] && c !in s[i + 1..];
  }

  // ---------------------------------------------------------------- order within a host

  predicate LineInBounds(s: State) { forall i :: 0 <= i < |s.promoted| ==> s.promoted[i] < |s.calls| }

  /** Calls to one host have entered the running deque in enqueue order, and none that has entered
      it overtook one that is still waiting. Ids are given in enqueue order. */
  predicate HostOrdered(s: State)
  {
    && InBounds(s) && LineInBounds(s)
    && (forall i, j :: 0 <= i < j < |s.promoted| && s.calls[s.promoted[i]].host == s.calls[s.promoted[j]].host ==>
          s.promoted[i] < s.promoted[j])
    && (forall i, c :: 0 <= i < |s.promoted| && c in s.ready && s.calls[s.promoted[i]].host == s.calls[c].host ==>
          s.promoted[i] < c)
  }

  predicate SameHost(s: State, i: nat, j: nat)
    requires InBounds(s) && i < |s.ready| && j < |s.ready|
  {
    s.calls[s.ready[i]].host == s.calls[s.ready[j]].host
  }

  /** A call that this pass skipped has become eligible by the time a later one to its host is
      visited. */
  predicate SkippedNowEligible(s: State, step: Step)
  {
    && step.Visit? && InBounds(s) && Enabled(s, step)
    && exists i :: 0 <= i < s.pass.value.idx && SameHost(s, i, s.pass.value.idx) && Eligible(s, s.ready[i])
  }

  predicate InOrder(s: State, step: Step) { !SkippedNowEligible(s, step) }

  /** What a promotion does: the visited call leaves the ready deque and ends the list of promotions. */
  lemma PromotionEffect(s: State)
    requires Inv(s) && LineInBounds(s) && Enabled(s, Visit) && Eligible(s, s.ready[s.pass.value.idx])
    ensures var t, c := VisitNext(s), s.ready[s.pass.value.idx];
            && InBounds(t) && LineInBounds(t) && t.promoted == s.promoted + [c]
            && (forall d :: d in t.ready <==> d in s.ready && d != c)
            && |t.calls| == |s.calls| && forall d :: 0 <= d < |s.calls| ==> t.calls[d].host == s.calls[d].host
  {
    hide Signals, SyncPlaced, Counted, PassOk, NotStuck, NoDuplicates, RemoveAt;
    VisitInBounds(s);
    RemoveAtMembers(s.ready, s.pass.value.idx);
  }

  lemma OrderAfterPromotion(s: State)
    requires Inv(s) && LineInBounds(s) && Enabled(s, Visit) && Eligible(s, s.ready[s.pass.value.idx])
    requires HostOrdered(VisitNext(s))
    ensures HostOrdered(s) && forall i :: 0 <= i < s.pass.value.idx ==> !SameHost(s, i, s.pass.value.idx)
  {
    PromotionEffect(s);
    hide Signals, SyncPlaced, Counted, PassOk, NotStuck, NoDuplicates, VisitNext;
    var t, n := VisitNext(s), s.pass.value.idx;
    var c := s.ready[n];
    assert forall i :: 0 <= i < |s.promoted| ==> t.promoted[i] == s.promoted[i];
    assert t.promoted[|s.promoted|] == c;
    forall i | 0 <= i < n
      ensures !SameHost(s, i, n)
    {
      assert s.ready[i] in t.ready;
    }
    assert forall d :: d in s.ready ==> d == c || d in t.ready;
  }

  lemma OrderBeforePromotion(s: State)
    requires Inv(s) && LineInBounds(s) && Enabled(s, Visit) && Eligible(s, s.ready[s.pass.value.idx])
    requires HostOrdered(s) && forall i :: 0 <= i < s.pass.value.idx ==> !SameHost(s, i, s.pass.value.idx)
    ensures HostOrdered(VisitNext(s))
  {
    PromotionEffect(s);
    hide Signals, SyncPlaced, Counted, PassOk, NotStuck, NoDuplicates, VisitNext;
    var t, n := VisitNext(s), s.pass.value.idx;
    var c := s.ready[n];
    assert c in s.ready;
    forall d | d in t.ready && s.calls[d].host == s.calls[c].host
      ensures c < d
    {
      var j :| 0 <= j < |s.ready| && s.ready[j] == d;
      assert SameHost(s, j, n);
    }
  }

  /** Promoting the visited call keeps the order exactly when no call to its host waits in front. */
  lemma PromoteOrder(s: State)
    requires Inv(s) && LineInBounds(s) && Enabled(s, Visit)
    requires Eligible(s, s.ready[s.pass.value.idx])
    ensures HostOrdered(VisitNext(s))
       <==> HostOrdered(s) && forall i :: 0 <= i < s.pass.value.idx ==> !SameHost(s, i, s.pass.value.idx)
  {
    hide HostOrdered, Placed, SyncPlaced, Signals, Counted, PassOk, NotStuck, VisitNext, Eligible, LineInBounds;
    if HostOrdered(VisitNext(s)) {
      OrderAfterPromotion(s);
    } else if HostOrdered(s) && forall i :: 0 <= i < s.pass.value.idx ==> !SameHost(s, i, s.pass.value.idx) {
      OrderBeforePromotion(s);
    }
  }

  /** The order depends only on the promotions, the waiting calls older than a bound, and hosts. */
  lemma SameOrder(s: State, t: State)
    requires InBounds(s) && LineInBounds(s) && InBounds(t) && t.promoted == s.promoted
    requires |s.calls| <= |t.calls| && forall d :: 0 <= d < |s.calls| ==> t.calls[d].host == s.calls[d].host
    requires forall c :: c in s.ready ==> c in t.ready
    requires forall c :: c in t.ready ==> c in s.ready || c >= |s.calls|
    ensures HostOrdered(t) <==> HostOrdered(s)
  {
  }

  lemma OtherStepsKeepOrder(s: State, step: Step)
    requires Inv(s) && Enabled(s, step) && LineInBounds(s)
    requires step.Visit? ==> !Eligible(s, s.ready[s.pass.value.idx])
    ensures HostOrdered(Next(s, step)) <==> HostOrdered(s)
  {
    hide Signals, SyncPlaced, Counted, PassOk, NotStuck, Placed, HostOrdered, RemoveFirst, FindExisting, RemoveAt;
    NextInBounds(s, step);
    SameOrder(s, Next(s, step));
  }

  lemma LineStep(s: State, step: Step)
    requires Inv(s) && Enabled(s, step) && LineInBounds(s)
    ensures LineInBounds(Next(s, step))
  {
    hide Signals, SyncPlaced, Counted, PassOk, NotStuck, Placed, RemoveFirst, FindExisting, RemoveAt;
  }

  /** With one counter for each host, a call that waits in front of an eligible call to its host is
      eligible too, so the order is lost exactly when a skipped call has become eligible. */
  lemma OrderStep(s: State, step: Step)
    requires Inv(s) && Enabled(s, step) && LineInBounds(s) && Shared(s)
    ensures HostOrdered(Next(s, step)) <==> HostOrdered(s) && InOrder(s, step)
  {
    hide Signals, SyncPlaced, Counted, PassOk, NotStuck, HostOrdered, Increasing, NoDuplicates,
      RemoveFirst, FindExisting, RemoveAt;
    if step.Visit? {
      var n := s.pass.value.idx;
      assert forall i :: 0 <= i < |s.ready| ==> s.ready[i] in s.ready;
      assert forall i :: 0 <= i < n && SameHost(s, i, n) ==> (Eligible(s, s.ready[i]) <==> Eligible(s, s.ready[n]));
      if Eligible(s, s.ready[n]) {
        PromoteOrder(s);
        return;
      }
    }
    OtherStepsKeepOrder(s, step);
  }

  /** In a run without web sockets, calls to each host enter the running deque in enqueue order if and
      only if no pass visits a call after one to the same host that it skipped became eligible. */
  lemma {:induction false} PerHostOrder(steps: seq<Step>)
    requires Run(steps).Some? && Throughout(steps, NoWebSocket)
    ensures LineInBounds(Run(steps).value)
    ensures HostOrdered(Run(steps).value) <==> Throughout(steps, InOrder)
  {
    hide Next, Inv, Enabled, InOrder, HostOrdered, Shared;
    if steps == [] {
      InitialOrdered();
    } else {
      var before := steps[..|steps| - 1];
      var s, step := Run(before).value, steps[|steps| - 1];
      PerHostOrder(before);
      SharedKept(before);
      LineStep(s, step);
      OrderStep(s, step);
    }
  }

  lemma InitialOrdered()
    ensures HostOrdered(INITIAL)
  {
  }

  /** `finished` decrements outside the lock; here it does not do so while another thread's promote
      loop is part way. */
  predicate NoDecrementInPass(s: State, step: Step) { step.Decrement? ==> s.pass.None? }

  predicate SkippedBusy(s: State)
  {
    InBounds(s) && (s.pass.Some? ==>
      forall i :: 0 <= i < s.pass.value.idx && i < |s.ready| ==> !Eligible(s, s.ready[i]))
  }

  lemma SkippedVisit(s: State)
    requires SkippedBusy(s) && Enabled(s, Visit)
    ensures SkippedBusy(VisitNext(s))
  {
    VisitInBounds(s);
    var t, n := VisitNext(s), s.pass.value.idx;
    if Eligible(s, s.ready[n]) {
      forall i | 0 <= i < n
        ensures !Eligible(t, t.ready[i])
      {
        assert t.ready[i] == s.ready[i];
      }
    }
  }

  lemma SkippedStep(s: State, step: Step)
    requires SkippedBusy(s) && Enabled(s, step) && NoDecrementInPass(s, step)
    ensures SkippedBusy(Next(s, step))
  {
    hide RemoveFirst, FindExisting, VisitNext;
    NextInBounds(s, step);
    if step.Visit? {
      SkippedVisit(s);
    }
  }

  lemma SkippedInOrder(s: State, step: Step)
    requires SkippedBusy(s)
    ensures InOrder(s, step)
  {
  }

  lemma {:induction false} QuietPasses(steps: seq<Step>)
    requires Run(steps).Some? && Throughout(steps, NoDecrementInPass)
    ensures SkippedBusy(Run(steps).value) && Throughout(steps, InOrder)
  {
    hide Next, Enabled, Inv, SkippedBusy, InOrder;
    if steps == [] {
      InitialSkipped();
    } else {
      QuietPasses(steps[..|steps| - 1]);
      SkippedInOrder(Run(steps[..|steps| - 1]).value, steps[|steps| - 1]);
      SkippedStep(Run(steps[..|steps| - 1]).value, steps[|steps| - 1]);
    }
  }

  lemma InitialSkipped()
    ensures SkippedBusy(INITIAL)
  {
  }

  /** So per-host order holds in every run without web sockets whose passes meet no decrement. */
  lemma OrderWithQuietPasses(steps: seq<Step>)
    requires Run(steps).Some? && Throughout(steps, NoWebSocket) && Throughout(steps, NoDecrementInPass)
    ensures HostOrdered(Run(steps).value)
  {
    hide *;
    QuietPasses(steps);
    PerHostOrder(steps);
  }
}
