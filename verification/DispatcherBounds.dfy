/** Runs that show where the dispatcher's promises stop: calls to one host can overtake each other,
    and a call that inherits a web socket's counter escapes the limit per host, whatever the limit. */
module DispatcherBounds {
  import opened Text
  import opened Dispatcher
  import opened DispatcherLaws
  import opened DispatcherSockets

  // ---------------------------------------------------------------- steps to build runs from

  /** Call `c` has been promoted, and every call promoted before it has been submitted. */
  predicate NextInLine(s: State, c: nat)
  {
    exists n :: 0 <= n < |s.promoted| && s.promoted[n] == c
                && forall i :: 0 <= i < n ==> HasOtherPhase(s, s.promoted[i], Promoted)
  }

  predicate HasOtherPhase(s: State, c: nat, p: Phase) { c < |s.calls| && s.calls[c].phase != p }

  /** A submission that needs nothing of the model that the code does not do: the pass has released the
      lock, calls are submitted in the order of their promotion, and the executor accepts, so that no
      nested `finished` can be overtaken. */
  predicate SubmitsAsCoded(s: State, step: Step)
  {
    step.Submit? ==> step.accepted && s.pass.None? && NextInLine(s, step.call)
  }

  /** A run that ends in `s`, with submissions as coded, with the limits settled before the first call,
      with or without web sockets, and with `n` inheritances. */
  ghost predicate Reaches(steps: seq<Step>, s: State, sockets: bool, n: nat)
  {
    && Run(steps) == Some(s) && Throughout(steps, SubmitsAsCoded) && Throughout(steps, NeverLowers)
    && Inheritances(steps) == n && (sockets || Throughout(steps, NoWebSocket))
  }

  lemma Then(steps: seq<Step>, s: State, step: Step, sockets: bool, n: nat) returns (longer: seq<Step>)
    requires Reaches(steps, s, sockets, n) && Enabled(s, step)
    requires SubmitsAsCoded(s, step) && NeverLowers(s, step) && (sockets || NoWebSocket(s, step))
    ensures InBounds(s) && InBounds(Next(s, step))
    ensures Reaches(longer, Next(s, step), sockets, if InheritsSocket(s, step) then n + 1 else n)
  {
    hide Next, Enabled, SubmitsAsCoded, NeverLowers, NoWebSocket, InheritsSocket;
    hide Placed, SyncPlaced, Signals, Counted, PassOk, NotStuck;
    longer := steps + [step];
    assert longer[..|steps|] == steps;
    NextInBounds(s, step);
  }

  lemma Start(sockets: bool)
    ensures Reaches([], INITIAL, sockets, 0)
  {
    hide Inv;
  }

  /** A fresh dispatcher with its two limits set. */
  lemma Limited(maxRequests: int, maxPerHost: int, sockets: bool) returns (steps: seq<Step>, s: State)
    requires maxRequests >= 1 && maxPerHost >= 1
    ensures Reaches(steps, s, sockets, 0) && InBounds(s)
    ensures s == INITIAL.(maxRequests := maxRequests, maxPerHost := maxPerHost, owed := 2)
  {
    hide Reaches;
    Start(sockets);
    s := INITIAL.(maxRequests := maxRequests, owed := 1);
    steps := Then([], INITIAL, SetMaxRequests(maxRequests), sockets, 0);
    steps := Then(steps, s, SetMaxPerHost(maxPerHost), sockets, 0);
    s := s.(maxPerHost := maxPerHost, owed := 2);
  }

  /** The state after a new request has been enqueued with counter object `k`. */
  function WithCall(s: State, host: string, webSocket: bool, k: nat): (t: State)
  {
    var id := |s.calls|;
    s.(calls := s.calls + [Call(id, host, webSocket, k, Ready, 0)], counters := s.counters + [0],
       ready := s.ready + [id], executed := s.executed + {id}, owed := s.owed + 1)
  }

  lemma EnqueueSocket(steps: seq<Step>, s: State, host: string, n: nat) returns (longer: seq<Step>)
    requires Reaches(steps, s, true, n) && s.pass.None? && |s.calls| !in s.executed
    ensures Reaches(longer, WithCall(s, host, true, |s.calls|), true, n) && InBounds(WithCall(s, host, true, |s.calls|))
  {
    hide Reaches, RemoveFirst;
    longer := Then(steps, s, Enqueue(|s.calls|, host, true), true, n);
    var t, u := Next(s, Enqueue(|s.calls|, host, true)), WithCall(s, host, true, |s.calls|);
    assert t.calls == u.calls;
  }

  /** A plain call takes the counter of the call found, or its own when it finds only itself. */
  lemma EnqueuePlain(steps: seq<Step>, s: State, host: string, found: nat, sockets: bool, n: nat)
    returns (longer: seq<Step>)
    requires Reaches(steps, s, sockets, n) && s.pass.None? && |s.calls| !in s.executed
    requires InBounds(s) && found <= |s.calls| && Found(s, |s.calls|, host) == Some(found)
    ensures found == |s.calls| ==>
              var t := WithCall(s, host, false, found);
              Reaches(longer, t, sockets, n) && InBounds(t)
    ensures found < |s.calls| ==>
              var t := WithCall(s, host, false, s.calls[found].counter);
              Reaches(longer, t, sockets, if s.calls[found].webSocket then n + 1 else n) && InBounds(t)
  {
    hide Reaches, RemoveFirst;
    longer := Then(steps, s, Enqueue(|s.calls|, host, false), sockets, n);
    hide FindExisting;
    var t := Next(s, Enqueue(|s.calls|, host, false));
    var k := if found < |s.calls| then s.calls[found].counter else found;
    assert t.calls == WithCall(s, host, false, k).calls;
  }

  function Begun(s: State): (t: State)
    requires s.owed > 0
  {
    s.(pass := Some(Pass(0, false)), owed := s.owed - 1)
  }

  lemma Begin(steps: seq<Step>, s: State, sockets: bool, n: nat) returns (longer: seq<Step>)
    requires Reaches(steps, s, sockets, n) && s.pass.None? && s.owed > 0
    ensures Reaches(longer, Begun(s), sockets, n) && InBounds(Begun(s))
  {
    hide Reaches;
    longer := Then(steps, s, BeginPass(false), sockets, n);
  }

  function Ended(s: State): (t: State) { s.(pass := None) }

  lemma End(steps: seq<Step>, s: State, sockets: bool, n: nat) returns (longer: seq<Step>)
    requires Reaches(steps, s, sockets, n)
    requires s.pass.Some? && s.pass.value.idx >= |s.ready| && !s.pass.value.fromFinish
    ensures Reaches(longer, Ended(s), sockets, n) && InBounds(Ended(s))
  {
    hide Reaches;
    longer := Then(steps, s, EndPass, sockets, n);
  }

  function Skipped(s: State): (t: State)
    requires s.pass.Some?
  {
    s.(pass := Some(s.pass.value.(idx := s.pass.value.idx + 1)))
  }

  lemma Skip(steps: seq<Step>, s: State, sockets: bool, n: nat) returns (longer: seq<Step>)
    requires Reaches(steps, s, sockets, n) && InBounds(s) && Enabled(s, Visit)
    requires |s.running| < s.maxRequests && !Eligible(s, s.ready[s.pass.value.idx])
    ensures Reaches(longer, Skipped(s), sockets, n) && InBounds(Skipped(s))
  {
    hide Reaches;
    longer := Then(steps, s, Visit, sockets, n);
  }

  /** The state after the visited call has been promoted. */
  function WithPromoted(s: State): (t: State)
    requires InBounds(s) && Enabled(s, Visit)
  {
    var i := s.pass.value.idx;
    var c := s.ready[i];
    var k := s.calls[c].counter;
    s.(ready := RemoveAt(s.ready, i), counters := s.counters[k := s.counters[k] + 1], running := s.running + [c],
       calls := SetPhase(s, c, Promoted), promoted := s.promoted + [c])
  }

  lemma Promote(steps: seq<Step>, s: State, sockets: bool, n: nat) returns (longer: seq<Step>)
    requires Reaches(steps, s, sockets, n) && InBounds(s) && Enabled(s, Visit) && Eligible(s, s.ready[s.pass.value.idx])
    ensures Reaches(longer, WithPromoted(s), sockets, n) && InBounds(WithPromoted(s))
  {
    hide Reaches, RemoveFirst;
    longer := Then(steps, s, Visit, sockets, n);
  }

  /** The state after a promoted call was submitted, ran, and signalled its callback. */
  function WithWorked(s: State, c: nat): (t: State)
    requires c < |s.calls|
  {
    s.(calls := s.calls[c := s.calls[c].(phase := Signalled, callbacks := s.calls[c].callbacks + 1)])
  }

  lemma Work(steps: seq<Step>, s: State, c: nat, sockets: bool, n: nat) returns (longer: seq<Step>)
    requires Reaches(steps, s, sockets, n) && s.pass.None? && HasPhase(s, c, Promoted) && NextInLine(s, c)
    ensures Reaches(longer, WithWorked(s, c), sockets, n) && InBounds(WithWorked(s, c))
  {
    hide Reaches, NextInLine;
    longer := Then(steps, s, Submit(c, true), sockets, n);
    var t := Next(s, Submit(c, true));
    longer := Then(longer, t, Signal(c), sockets, n);
    assert Next(t, Signal(c)).calls == WithWorked(s, c).calls;
  }

  /** The state after a call that has worked has begun finishing. */
  function WithFreed(s: State, c: nat): (t: State)
    requires InBounds(s) && c < |s.calls|
  {
    var k := s.calls[c].counter;
    s.(calls := SetPhase(s, c, Decremented), counters := s.counters[k := s.counters[k] - 1])
  }

  lemma Free(steps: seq<Step>, s: State, c: nat, sockets: bool, n: nat) returns (longer: seq<Step>)
    requires Reaches(steps, s, sockets, n) && InBounds(s) && HasPhase(s, c, Signalled)
    ensures Reaches(longer, WithFreed(s, c), sockets, n) && InBounds(WithFreed(s, c))
  {
    hide Reaches;
    longer := Then(steps, s, Decrement(c), sockets, n);
  }

  function WithLeft(s: State, c: nat): (t: State)
    requires c < |s.calls|
  {
    s.(calls := SetPhase(s, c, Removed), running := RemoveFirst(s.running, c), owedFinish := s.owedFinish + 1)
  }

  lemma Leave(steps: seq<Step>, s: State, c: nat, sockets: bool, n: nat) returns (longer: seq<Step>)
    requires Reaches(steps, s, sockets, n) && s.pass.None? && HasPhase(s, c, Decremented) && c in s.running
    ensures Reaches(longer, WithLeft(s, c), sockets, n) && InBounds(WithLeft(s, c))
  {
    hide Reaches, RemoveFirst;
    longer := Then(steps, s, Remove(c), sockets, n);
  }

  lemma FoundItself(s: State, host: string)
    requires InBounds(s) && s.running == [] && s.ready == []
    ensures Found(s, |s.calls|, host) == Some(|s.calls|)
  {
    assert (s.ready + [|s.calls|])[0] == |s.calls|;
  }

  lemma FoundRunning(s: State, host: string)
    requires InBounds(s) && s.running != [] && s.calls[s.running[0]].host == host
    ensures Found(s, |s.calls|, host) == Some(s.running[0])
  {
  }

  /** The parts of a state that matter to a run. */
  predicate Looks(s: State, maxPerHost: int, calls: seq<Call>, counters: seq<int>, ready: seq<nat>, running: seq<nat>)
  {
    && s.maxPerHost == maxPerHost && s.calls == calls && s.counters == counters
    && s.ready == ready && s.running == running
    && forall r :: r in s.executed ==> r < |s.calls|
  }

  // ---------------------------------------------------------------- order within a host

  function Plain(id: nat, host: string, p: Phase): Call
  {
    Call(id, host, false, 0, p, if p == Signalled || p == Decremented || p == Removed then 1 else 0)
  }

  /** With a limit of one for each host, one call runs. */
  lemma OneRunning(host: string) returns (steps: seq<Step>, s: State)
    ensures Reaches(steps, s, false, 0) && InBounds(s) && s.pass.None?
    ensures s.owed == 2 && s.promoted == [0] && s.maxRequests == 64
    ensures Looks(s, 1, [Plain(0, host, Promoted)], [1], [], [0])
  {
    hide Reaches;
    steps, s := Limited(64, 1, false);
    FoundItself(s, host);
    steps := EnqueuePlain(steps, s, host, 0, false, 0);
    s := WithCall(s, host, false, 0);
    steps := Begin(steps, s, false, 0);
    s := Begun(s);
    steps := Promote(steps, s, false, 0);
    s := WithPromoted(s);
    assert s.ready == [] && s.calls == [Plain(0, host, Promoted)];
    steps := End(steps, s, false, 0);
    s := Ended(s);
  }

  /** Two more wait behind it. */
  lemma TwoWaiting(host: string) returns (steps: seq<Step>, s: State)
    ensures Reaches(steps, s, false, 0) && InBounds(s) && s.pass.None?
    ensures s.owed == 4 && s.promoted == [0] && s.maxRequests == 64
    ensures Looks(s, 1, [Plain(0, host, Promoted), Plain(1, host, Ready), Plain(2, host, Ready)],
                  [1, 0, 0], [1, 2], [0])
  {
    hide Reaches;
    steps, s := OneRunning(host);
    FoundRunning(s, host);
    steps := EnqueuePlain(steps, s, host, 0, false, 0);
    s := WithCall(s, host, false, 0);
    assert s.calls == [Plain(0, host, Promoted), Plain(1, host, Ready)];
    FoundRunning(s, host);
    steps := EnqueuePlain(steps, s, host, 0, false, 0);
    s := WithCall(s, host, false, 0);
  }

  /** The first call runs. A pass skips the second one, the first begins finishing outside the lock, and
      the same pass goes on to the third and promotes it. */
  lemma ThirdOvertakes(host: string) returns (steps: seq<Step>, s: State)
    ensures Reaches(steps, s, false, 0) && InBounds(s) && s.pass == Some(Pass(1, false))
    ensures s.owed == 3 && s.maxRequests == 64
    ensures s.promoted == [0, 2]
    ensures Looks(s, 1, [Plain(0, host, Decremented), Plain(1, host, Ready), Plain(2, host, Promoted)],
                  [1, 0, 0], [1], [0, 2])
  {
    hide Reaches;
    steps, s := TwoWaiting(host);
    assert s.promoted[0] == 0;
    steps := Work(steps, s, 0, false, 0);
    s := WithWorked(s, 0);
    assert s.calls == [Plain(0, host, Signalled), Plain(1, host, Ready), Plain(2, host, Ready)];
    steps := Begin(steps, s, false, 0);
    s := Begun(s);
    steps := Skip(steps, s, false, 0);
    s := Skipped(s);
    steps := Free(steps, s, 0, false, 0);
    s := WithFreed(s, 0);
    assert s.calls == [Plain(0, host, Decremented), Plain(1, host, Ready), Plain(2, host, Ready)];
    steps := Promote(steps, s, false, 0);
    s := WithPromoted(s);
  }

  /** Per-host order fails: for every host there is a run without web sockets in which, of two calls to
      it, the one enqueued later enters the running deque first. */
  lemma OrderCanFail(host: string) returns (steps: seq<Step>, first: nat, later: nat)
    ensures Run(steps).Some? && Throughout(steps, NoWebSocket) && Throughout(steps, SubmitsAsCoded)
    ensures var s := Run(steps).value;
            && first < later < |s.calls| && s.calls[first].host == host && s.calls[later].host == host
            && s.promoted == [0, later, first] && !HostOrdered(s)
  {
    var s;
    steps, s := SecondRunsLast(host);
    first, later := 1, 2;
    hide Run, Throughout, Inheritances;
    assert s.promoted[1] == 2 && s.promoted[2] == 1;
  }

  lemma SecondRunsLast(host: string) returns (steps: seq<Step>, s: State)
    ensures Reaches(steps, s, false, 0) && s.promoted == [0, 2, 1]
    ensures |s.calls| == 3 && s.calls[1].host == host && s.calls[2].host == host
  {
    hide Reaches;
    steps, s := ThirdOvertakes(host);
    steps := End(steps, s, false, 0);
    s := Ended(s);
    assert s.promoted[0] == 0 && s.promoted[1] == 2;
    steps := Work(steps, s, 2, false, 0);
    s := WithWorked(s, 2);
    steps := Free(steps, s, 2, false, 0);
    s := WithFreed(s, 2);
    steps := Begin(steps, s, false, 0);
    s := Begun(s);
    assert s.ready == [1] && s.counters == [0, 0, 0] && s.running == [0, 2];
    steps := Promote(steps, s, false, 0);
    s := WithPromoted(s);
  }

  // ---------------------------------------------------------------- web sockets

  function Socket(host: string, p: Phase): Call
  {
    Call(1, host, true, 1, p, if p == Signalled || p == Decremented then 1 else 0)
  }

  /** Calls 2 to m + 1, plain and with counter 0, the first `n` of them promoted. */
  function Crowd(host: string, m: nat, n: nat): (r: seq<Call>)
  {
    seq(m, i requires 0 <= i < m => Plain(i + 2, host, if i < n then Promoted else Ready))
  }

  /** Everybody: the first call, the socket, and the crowd. */
  function Cast(host: string, x: Phase, w: Phase, m: nat, n: nat): (r: seq<Call>)
  {
    [Plain(0, host, x), Socket(host, w)] + Crowd(host, m, n)
  }

  /** The call that comes to the crowd last and takes the socket's counter. */
  function Late(host: string, m: nat, p: Phase): Call { Call(m + 2, host, false, 1, p, 0) }

  function Ids(from: nat, n: nat): (r: seq<nat>) { seq(n, i requires 0 <= i < n => from + i) }

  function Zeros(n: nat): (r: seq<int>) { seq(n, i requires 0 <= i < n => 0) }

  /** The plain call and the socket were promoted first, in this order; `owed` passes are owed, and the
      limit on all calls is out of the way. */
  predicate Stage(s: State, m: nat, owed: nat)
  {
    && InBounds(s) && s.owed == owed && s.maxRequests == m + 3
    && |s.promoted| >= 2 && s.promoted[0] == 0 && s.promoted[1] == 1
  }

  /** A plain call and a web socket run; the socket has a counter of its own. */
  lemma SocketReady(host: string, m: nat) returns (steps: seq<Step>, s: State)
    requires m >= 1
    ensures Reaches(steps, s, true, 0) && InBounds(s) && s.pass.None? && s.owed == 4
    ensures s.maxRequests == m + 3 && s.promoted == []
    ensures Looks(s, m, [Plain(0, host, Ready), Socket(host, Ready)], [0, 0], [0, 1], [])
  {
    hide Reaches;
    steps, s := Limited(m + 3, m, true);
    FoundItself(s, host);
    steps := EnqueuePlain(steps, s, host, 0, true, 0);
    s := WithCall(s, host, false, 0);
    steps := EnqueueSocket(steps, s, host, 0);
    s := WithCall(s, host, true, 1);
    assert s.calls == [Plain(0, host, Ready), Socket(host, Ready)] && s.ready == [0, 1] && s.counters == [0, 0];
  }

  lemma SocketRuns(host: string, m: nat) returns (steps: seq<Step>, s: State)
    requires m >= 1
    ensures Reaches(steps, s, true, 0) && s.pass.None? && Stage(s, m, 3)
    ensures Looks(s, m, [Plain(0, host, Promoted), Socket(host, Promoted)], [1, 1], [], [0, 1])
  {
    hide Reaches;
    steps, s := SocketReady(host, m);
    steps := Begin(steps, s, true, 0);
    s := Begun(s);
    steps := Promote(steps, s, true, 0);
    s := WithPromoted(s);
    assert s.calls == [Plain(0, host, Promoted), Socket(host, Ready)] && s.ready == [1] && s.counters == [1, 0];
    steps := Promote(steps, s, true, 0);
    s := WithPromoted(s);
    assert s.calls == [Plain(0, host, Promoted), Socket(host, Promoted)] && s.ready == [];
    steps := End(steps, s, true, 0);
    s := Ended(s);
  }

  /** While the plain call runs in front of the socket, `n` more plain calls take its counter. */
  lemma {:induction false} CrowdWaits(host: string, m: nat, n: nat) returns (steps: seq<Step>, s: State)
    requires m >= 1
    ensures Reaches(steps, s, true, 0) && s.pass.None? && Stage(s, m, 3 + n)
    ensures Looks(s, m, Cast(host, Promoted, Promoted, n, 0), [1, 1] + Zeros(n), Ids(2, n), [0, 1])
    decreases n
  {
    hide Reaches;
    if n == 0 {
      steps, s := SocketRuns(host, m);
    } else {
      steps, s := CrowdWaits(host, m, n - 1);
      FoundRunning(s, host);
      steps := EnqueuePlain(steps, s, host, 0, true, 0);
      s := WithCall(s, host, false, 0);
      CrowdGrows(host, n);
    }
  }

  lemma CrowdGrows(host: string, n: nat)
    requires n > 0
    ensures Crowd(host, n, 0) == Crowd(host, n - 1, 0) + [Plain(n + 1, host, Ready)]
    ensures Ids(2, n) == Ids(2, n - 1) + [n + 1] && Zeros(n) == Zeros(n - 1) + [0]
  {
  }

  /** The first call finishes and leaves; the socket is now first in the running deque. */
  lemma SocketFirst(host: string, m: nat) returns (steps: seq<Step>, s: State)
    requires m >= 1
    ensures Reaches(steps, s, true, 0) && s.pass.None? && Stage(s, m, 3 + m)
    ensures Looks(s, m, Cast(host, Removed, Promoted, m, 0), [0, 1] + Zeros(m), Ids(2, m), [1])
  {
    hide Reaches;
    steps, s := CrowdWaits(host, m, m);
    steps := Work(steps, s, 0, true, 0);
    s := WithWorked(s, 0);
    steps := Free(steps, s, 0, true, 0);
    s := WithFreed(s, 0);
    steps := Leave(steps, s, 0, true, 0);
    s := WithLeft(s, 0);
    assert s.calls == Cast(host, Removed, Promoted, m, 0);
    assert s.counters == [0, 1] + Zeros(m) && s.running == [1];
  }

  /** One pass promotes the crowd, call by call, up to the limit. */
  lemma {:induction false} CrowdRuns(host: string, m: nat, n: nat) returns (steps: seq<Step>, s: State)
    requires m >= 1 && n <= m
    ensures Reaches(steps, s, true, 0) && s.pass == Some(Pass(0, false)) && Stage(s, m, 2 + m)
    ensures Looks(s, m, Cast(host, Removed, Promoted, m, n), [n, 1] + Zeros(m), Ids(2 + n, m - n),
                  [1] + Ids(2, n))
    decreases n
  {
    hide Reaches;
    if n == 0 {
      steps, s := SocketFirst(host, m);
      steps := Begin(steps, s, true, 0);
      s := Begun(s);
    } else {
      steps, s := CrowdRuns(host, m, n - 1);
      ghost var was := s;
      assert s.ready[0] == n + 1 && s.counters[0] == n - 1;
      assert s.calls[n + 1] == Crowd(host, m, n - 1)[n - 1] == Plain(n + 1, host, Ready);
      steps := Promote(steps, s, true, 0);
      s := WithPromoted(s);
      OneMoreRuns(host, m, n);
      assert s.calls == was.calls[n + 1 := Plain(n + 1, host, Promoted)];
      assert s.counters == [n, 1] + Zeros(m) && s.running == [1] + Ids(2, n);
    }
  }

  lemma OneMoreRuns(host: string, m: nat, n: nat)
    requires 0 < n <= m
    ensures var a := [Plain(0, host, Removed), Socket(host, Promoted)];
            (a + Crowd(host, m, n - 1))[n + 1 := Plain(n + 1, host, Promoted)] == a + Crowd(host, m, n)
    ensures RemoveAt(Ids(1 + n, m - n + 1), 0) == Ids(2 + n, m - n)
    ensures Ids(2, n - 1) + [n + 1] == Ids(2, n)
  {
  }

  /** The crowd is at the limit; the next plain call finds the socket and takes its counter. */
  lemma CounterInherited(host: string, m: nat) returns (steps: seq<Step>, s: State)
    requires m >= 1
    ensures Reaches(steps, s, true, 1) && s.pass.None? && Stage(s, m, 3 + m)
    ensures Looks(s, m, Cast(host, Removed, Promoted, m, m) + [Late(host, m, Ready)],
                  [m, 1] + Zeros(m + 1), [m + 2], [1] + Ids(2, m))
  {
    hide Reaches;
    steps, s := CrowdRuns(host, m, m);
    steps := End(steps, s, true, 0);
    s := Ended(s);
    FoundRunning(s, host);
    steps := EnqueuePlain(steps, s, host, 1, true, 0);
    s := WithCall(s, host, false, 1);
    assert s.ready == [m + 2] && s.counters == [m, 1] + Zeros(m + 1);
  }

  /** The socket begins finishing, and the call that took its counter is promoted. */
  lemma LimitPassed(host: string, m: nat) returns (steps: seq<Step>, s: State)
    requires m >= 1
    ensures Reaches(steps, s, true, 1) && InBounds(s) && s.maxPerHost == m
    ensures s.calls == Cast(host, Removed, Decremented, m, m) + [Late(host, m, Promoted)]
    ensures s.running == [1] + Ids(2, m + 1)
  {
    hide Reaches;
    steps, s := CounterInherited(host, m);
    assert s.calls[0] == Plain(0, host, Removed) && s.calls[1] == Socket(host, Promoted);
    steps := Work(steps, s, 1, true, 1);
    s := WithWorked(s, 1);
    steps := Free(steps, s, 1, true, 1);
    s := WithFreed(s, 1);
    assert s.counters[1] == 0;
    steps := Begin(steps, s, true, 1);
    s := Begun(s);
    assert s.calls[m + 2] == Late(host, m, Ready);
    steps := Promote(steps, s, true, 1);
    s := WithPromoted(s);
    assert s.running == [1] + Ids(2, m + 1);
  }

  ghost function Interval(a: nat, n: nat): (r: set<nat>)
    ensures |r| == n && forall c :: c in r <==> a <= c < a + n
  {
    if n == 0 then {} else Interval(a, n - 1) + {a + n - 1}
  }

  lemma PlainMembers(s: State, host: string, m: nat, c: nat)
    requires InBounds(s) && s.running == [1] + Ids(2, m + 1)
    requires s.calls == Cast(host, Removed, Decremented, m, m) + [Late(host, m, Promoted)]
    ensures c in PlainToHost(s, host) <==> 2 <= c < m + 3
  {
    assert s.calls[1] == Socket(host, Decremented) && s.calls[m + 2] == Late(host, m, Promoted);
    if 2 <= c < m + 3 {
      assert s.running[c - 1] == Ids(2, m + 1)[c - 2] == c;
      assert c < m + 2 ==> s.calls[c] == Crowd(host, m, m)[c - 2] == Plain(c, host, Promoted);
    } else if c in s.running {
      var i :| 0 <= i < |s.running| && s.running[i] == c;
      assert i == 0;
    }
  }

  /** A web socket breaks every limit for plain calls: whatever the host and the limit, there is a run,
      with its limits settled before the first call and a single inheritance, that ends with one
      unfinished plain call to the host too many. */
  lemma SocketLiftsLimit(host: string, m: nat) returns (steps: seq<Step>)
    requires m >= 1
    ensures Run(steps).Some? && Throughout(steps, SubmitsAsCoded) && Throughout(steps, NeverLowers)
    ensures Inheritances(steps) == 1
    ensures var s := Run(steps).value; s.maxPerHost == m && |PlainToHost(s, host)| == m + 1
  {
    var s;
    steps, s := LimitPassed(host, m);
    hide Run, Throughout, Inheritances, PlainToHost, Crowd, Ids, Inv, Interval;
    forall c
      ensures c in PlainToHost(s, host) <==> c in Interval(2, m + 1)
    {
      PlainMembers(s, host, m, c);
    }
    assert PlainToHost(s, host) == Interval(2, m + 1);
  }
}
