/** The limit per host in the presence of web sockets: it holds for plain calls as long as none takes
    over a web socket's counter, and which enqueues do that is settled exactly. */
module DispatcherSockets {
  import opened Text
  import opened Dispatcher
  import opened DispatcherLaws

  /** A plain call is enqueued and the first existing call to its host is a web socket. */
  predicate InheritsSocket(s: State, step: Step)
  {
    && InBounds(s) && step.Enqueue? && !step.webSocket && step.request !in s.executed
    && var e := Found(s, step.request, step.host);
    && e.Some? && e.value < |s.calls| && s.calls[e.value].webSocket
  }

  predicate NoInheritance(s: State, step: Step) { !InheritsSocket(s, step) }

  /** A web socket keeps the counter object it was born with. */
  predicate SocketsOwn(s: State)
  {
    forall c :: 0 <= c < |s.calls| && s.calls[c].webSocket ==> s.calls[c].counter == c
  }

  /** No plain call holds a counter object that a web socket created. */
  predicate Apart(s: State)
  {
    InBounds(s) && forall c :: 0 <= c < |s.calls| ==> OwnKind(s, c)
  }

  /** Call `c` is a web socket, or the call that created its counter object is a plain one. */
  predicate OwnKind(s: State, c: nat)
    requires InBounds(s) && c < |s.calls|
  {
    s.calls[c].webSocket || !s.calls[s.calls[c].counter].webSocket
  }

  /** Whether call `c` has a counter of its kind depends on flags and counters only. */
  lemma SameKind(s: State, t: State, c: nat)
    requires InBounds(s) && InBounds(t) && c < |s.calls| <= |t.calls|
    requires forall d :: 0 <= d < |s.calls| ==> SameButPhase(s.calls[d], t.calls[d])
    ensures OwnKind(t, c) <==> OwnKind(s, c)
  {
  }

  /** A call that takes over the counter of call `e` has one of its kind exactly if `e` is not a socket. */
  lemma TakenKind(s: State, c: nat, e: nat)
    requires InBounds(s) && c < |s.calls| && e < |s.calls| && SocketsOwn(s) && OwnKind(s, e)
    requires !s.calls[c].webSocket && s.calls[c].counter == s.calls[e].counter
    ensures OwnKind(s, c) <==> !s.calls[e].webSocket
  {
  }

  lemma BornKind(s: State, c: nat)
    requires InBounds(s) && c < |s.calls| && s.calls[c].counter == c
    ensures OwnKind(s, c)
  {
  }

  /** One step leaves the counters apart exactly when they were and it is not an enqueue that finds a
      web socket. */
  lemma ApartStep(s: State, step: Step)
    requires Inv(s) && Enabled(s, step) && SocketsOwn(s)
    ensures SocketsOwn(Next(s, step))
    ensures Apart(Next(s, step)) <==> Apart(s) && NoInheritance(s, step)
  {
    hide Signals, SyncPlaced, Placed, Counted, PassOk, NotStuck, Found, EnqueueNext, VisitNext, RemoveFirst, OwnKind;
    NextInBounds(s, step);
    var t := Next(s, step);
    if step.Enqueue? && step.request !in s.executed {
      EnqueuedCall(s, step.request, step.host, step.webSocket);
      assert forall c :: 0 <= c < |s.calls| ==> t.calls[c] == t.calls[..|s.calls|][c];
      ApartEnqueue(s, t, step);
    } else {
      SameCalls(s, step);
      forall c | 0 <= c < |s.calls|
        ensures OwnKind(t, c) <==> OwnKind(s, c)
      {
        SameKind(s, t, c);
      }
    }
  }

  lemma ApartEnqueue(s: State, t: State, step: Step)
    requires InBounds(s) && InBounds(t) && SocketsOwn(s) && step.Enqueue? && step.request !in s.executed
    requires |t.calls| == |s.calls| + 1 && (forall c :: 0 <= c < |s.calls| ==> t.calls[c] == s.calls[c])
    requires t.calls[|s.calls|].webSocket == step.webSocket
              && (step.webSocket ==> t.calls[|s.calls|].counter == |s.calls|)
    requires !step.webSocket ==>
               var e := Found(s, step.request, step.host);
               t.calls[|s.calls|].counter
                == if e.Some? && e.value < |s.calls| then s.calls[e.value].counter else |s.calls|
    ensures SocketsOwn(t) && (Apart(t) <==> Apart(s) && NoInheritance(s, step))
  {
    hide Found, OwnKind;
    forall c | 0 <= c < |s.calls|
      ensures OwnKind(t, c) <==> OwnKind(s, c)
    {
      SameKind(s, t, c);
    }
    var e := Found(s, step.request, step.host);
    if step.webSocket || e.None? || e.value >= |s.calls| {
      BornKind(t, |s.calls|);
    } else if OwnKind(t, e.value) {
      TakenKind(t, |s.calls|, e.value);
    }
  }

  /** In every run, some plain call comes to hold a web socket's counter exactly if some plain call is
      enqueued when the first existing call to its host is a web socket. */
  lemma {:induction false} InheritanceExact(steps: seq<Step>)
    requires Run(steps).Some?
    ensures SocketsOwn(Run(steps).value)
    ensures Apart(Run(steps).value) <==> Throughout(steps, NoInheritance)
  {
    hide Next, Inv, Enabled, NoInheritance;
    if steps != [] {
      InheritanceExact(steps[..|steps| - 1]);
      ApartStep(Run(steps[..|steps| - 1]).value, steps[|steps| - 1]);
    }
  }

  /** How many enqueues of a run found a web socket. */
  ghost function Inheritances(steps: seq<Step>): (n: nat)
  {
    if steps == [] then 0
    else
      var before := Run(steps[..|steps| - 1]);
      Inheritances(steps[..|steps| - 1])
      + if before.Some? && InheritsSocket(before.value, steps[|steps| - 1]) then 1 else 0
  }

  lemma {:induction false} NoInheritances(steps: seq<Step>)
    requires Run(steps).Some?
    ensures Inheritances(steps) == 0 <==> Throughout(steps, NoInheritance)
  {
    hide Next, Inv, Enabled, InheritsSocket;
    if steps != [] {
      NoInheritances(steps[..|steps| - 1]);
    }
  }

  // ---------------------------------------------------------------- the limit for plain calls

  predicate PlainTogether(a: Call, b: Call) { !a.webSocket && !b.webSocket && Together(a, b) }

  /** All live plain calls to one host share one counter object. */
  predicate PlainShared(s: State)
  {
    forall a, b :: 0 <= a < |s.calls| && 0 <= b < |s.calls| && PlainTogether(s.calls[a], s.calls[b]) ==>
      s.calls[a].counter == s.calls[b].counter
  }

  lemma PlainEnqueue(s: State, request: nat, host: string)
    requires Inv(s) && PlainShared(s) && request !in s.executed
    requires NoInheritance(s, Enqueue(request, host, false))
    ensures PlainShared(EnqueueNext(s, request, host, false))
  {
    hide Signals, SyncPlaced, Counted, PassOk, NotStuck, FindExisting, Increasing, NoDuplicates, EnqueueNext;
    var t, id := EnqueueNext(s, request, host, false), |s.calls|;
    EnqueuedCall(s, request, host, false);
    assert forall c :: 0 <= c < id ==> t.calls[c] == s.calls[c];
    var calls, ready := s.calls + [Call(request, host, false, id, Ready, 0)], s.ready + [id];
    var e := FindExisting(calls, s.running, ready, host);
    assert calls[ready[|s.ready|]].host == host;
    if e.value == id {
      NoLiveCall(s, host, calls, ready);
    } else {
      assert e.value in s.running || e.value in s.ready;
    }
  }

  lemma SocketEnqueue(s: State, request: nat, host: string)
    requires InBounds(s) && PlainShared(s) && request !in s.executed
    ensures PlainShared(EnqueueNext(s, request, host, true))
  {
    hide EnqueueNext;
    EnqueuedCall(s, request, host, true);
    var t := EnqueueNext(s, request, host, true);
    assert forall c :: 0 <= c < |s.calls| ==> t.calls[c] == s.calls[c];
  }

  lemma PlainSharedStep(s: State, step: Step)
    requires Inv(s) && Enabled(s, step) && PlainShared(s) && NoInheritance(s, step)
    ensures PlainShared(Next(s, step))
  {
    hide Signals, SyncPlaced, Placed, Counted, PassOk, NotStuck, InheritsSocket, EnqueueNext, VisitNext, RemoveFirst;
    if step.Enqueue? && step.request !in s.executed {
      if step.webSocket {
        SocketEnqueue(s, step.request, step.host);
      } else {
        PlainEnqueue(s, step.request, step.host);
      }
    } else {
      SameCalls(s, step);
    }
  }

  lemma {:induction false} PlainSharedKept(steps: seq<Step>)
    requires Run(steps).Some? && Throughout(steps, NoInheritance)
    ensures PlainShared(Run(steps).value)
  {
    hide Next, Inv, Enabled, NoInheritance;
    if steps != [] {
      PlainSharedKept(steps[..|steps| - 1]);
      PlainSharedStep(Run(steps[..|steps| - 1]).value, steps[|steps| - 1]);
    }
  }

  ghost function PlainToHost(s: State, host: string): (r: set<nat>)
    requires InBounds(s)
  {
    set c | c in s.running && s.calls[c].host == host && s.calls[c].phase != Decremented && !s.calls[c].webSocket
  }

  /** Web sockets or not: while limits are not lowered once calls exist and no plain call takes over a web
      socket's counter, no host has more than `maxRequestsPerHost` unfinished running plain calls. */
  lemma PlainLimitHolds(steps: seq<Step>, host: string)
    requires Run(steps).Some? && Throughout(steps, NeverLowers) && Inheritances(steps) == 0
    ensures |PlainToHost(Run(steps).value, host)| <= Run(steps).value.maxPerHost
  {
    hide Run, Inv, Throughout, Inheritances;
    NoInheritances(steps);
    LimitsKept(steps);
    PlainSharedKept(steps);
    AtLeastOne(Run(steps).value);
    PlainHostLimit(Run(steps).value, host);
  }

  lemma PlainHostLimit(s: State, host: string)
    requires Inv(s) && WithinLimits(s) && PlainShared(s)
    ensures |PlainToHost(s, host)| <= s.maxPerHost
  {
    hide PassOk, NotStuck, Increasing, NoDuplicates;
    if PlainToHost(s, host) != {} {
      var a :| a in PlainToHost(s, host);
      var k := s.calls[a].counter;
      forall c | c in PlainToHost(s, host)
        ensures c in Holders(s, k)
      {
        assert InRunning(s.calls[c].phase) && InRunning(s.calls[a].phase);
        assert PlainTogether(s.calls[c], s.calls[a]);
      }
      SubsetSize(PlainToHost(s, host), Holders(s, k));
    }
  }
}
