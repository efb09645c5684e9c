/** `Dispatcher` and `RealCall.AsyncCall` as a state machine. A step is one critical section, one
    turn of the promote loop, or one action outside the lock, so every interleaving of the
    threads that share a dispatcher is a sequence of steps. */
module Dispatcher {
  import opened Text

  /** Where an async call is in its life. `Decremented` is between the two halves of `finished`. */
  datatype Phase = Ready | Promoted | Submitted | Signalled | Decremented | Removed

  /** An `AsyncCall`. Counter objects are named by the call that created them. */
  datatype Call = Call(request: nat, host: string, webSocket: bool, counter: nat, phase: Phase, callbacks: nat)

  /** A promote loop in progress: its position, and whether `finished` started it. */
  datatype Pass = Pass(idx: nat, fromFinish: bool)

  /** Where a thread is in `RealCall.execute`: the flag is set; the call has been given to
      `Dispatcher.executed`; `Dispatcher.finished` has been called. */
  datatype SyncPhase = Flagged | Added | Returned

  datatype State = State(
    calls: seq<Call>,          // every async call so far, in the order they were enqueued
    counters: seq<int>,        // the AtomicIntegers
    ready: seq<nat>, running: seq<nat>, sync: seq<nat>,
    executed: set<nat>,        // RealCalls whose `executed` flag is set
    syncUse: map<nat, SyncPhase>, // RealCalls on which `execute` was called, and where each is in it
    maxRequests: int, maxPerHost: int,
    owed: nat, owedFinish: nat,// promoteAndExecute calls that threads still owe
    pass: Option<Pass>,        // the lock is held while a pass is in progress
    promoted: seq<nat>,        // the order in which calls entered the running deque
    idleFirings: nat, crashed: bool)

  const INITIAL := State([], [], [], [], [], {}, map[], 64, 5, 0, 0, None, [], 0, false)

  datatype Step =
    | Enqueue(request: nat, host: string, webSocket: bool)
    | BeginPass(fromFinish: bool)
    | Visit
    | EndPass
    | Submit(call: nat, accepted: bool)
    | Signal(call: nat)
    | Decrement(call: nat)
    | Remove(call: nat)
    | SyncStart(request: nat)
    | SyncAdd(request: nat)
    | SyncFinish(request: nat)
    | SetMaxRequests(n: int)
    | SetMaxPerHost(n: int)

  // ---------------------------------------------------------------- helpers

  function FirstWithHost(calls: seq<Call>, ids: seq<nat>, host: string): (r: Option<nat>)
    requires forall i :: 0 <= i < |ids| ==> ids[i] < |calls|
    ensures r.Some? ==> r.value in ids && calls[r.value].host == host
    ensures r.None? ==> forall i :: 0 <= i < |ids| ==> calls[ids[i]].host != host
  {
    if ids == [] then None
    else if calls[ids[0]].host == host then Some(ids[0])
    else FirstWithHost(calls, ids[1..], host)
  }

  /** `findExistingCallWithHost`: running calls first, then ready ones. */
  function FindExisting(calls: seq<Call>, running: seq<nat>, ready: seq<nat>, host: string): (r: Option<nat>)
    requires forall i :: 0 <= i < |running| ==> running[i] < |calls|
    requires forall i :: 0 <= i < |ready| ==> ready[i] < |calls|
    ensures r.Some? ==> (r.value in running || r.value in ready) && calls[r.value].host == host
    ensures r.None? ==> forall i :: 0 <= i < |ready| ==> calls[ready[i]].host != host
  {
    var a := FirstWithHost(calls, running, host);
    if a.Some? then a else FirstWithHost(calls, ready, host)
  }

  function RemoveAt(s: seq<nat>, i: nat): (r: seq<nat>)
    requires i < |s|
  {
    s[..i] + s[i + 1..]
  }

  /** `Deque.remove(Object)`. */
  function RemoveFirst(s: seq<nat>, x: nat): (r: seq<nat>)
  {
    if s == [] then [] else if s[0] == x then s[1..] else [s[0]] + RemoveFirst(s[1..], x)
  }

  predicate Active(p: Phase) { p == Promoted || p == Submitted || p == Signalled }

  predicate InRunning(p: Phase) { Active(p) || p == Decremented }

  function SetPhase(s: State, c: nat, p: Phase): (r: seq<Call>)
    requires c < |s.calls|
  {
    s.calls[c := s.calls[c].(phase := p)]
  }

  // ---------------------------------------------------------------- steps

  predicate LockFree(s: State) { s.pass.None? }

  predicate HasPhase(s: State, c: nat, p: Phase) { c < |s.calls| && s.calls[c].phase == p }

  predicate InSync(s: State, r: nat, p: SyncPhase) { r in s.syncUse && s.syncUse[r] == p }

  predicate Enabled(s: State, step: Step)
  {
    match step
    case Enqueue(_, _, _) => LockFree(s)
    case BeginPass(f) => LockFree(s) && (if f then s.owedFinish > 0 else s.owed > 0)
    case Visit => s.pass.Some? && s.pass.value.idx < |s.ready|
    case EndPass => s.pass.Some? && s.pass.value.idx >= |s.ready|
    case Submit(c, _) => HasPhase(s, c, Promoted)
    case Signal(c) => HasPhase(s, c, Submitted)
    case Decrement(c) => HasPhase(s, c, Signalled)
    case Remove(c) => LockFree(s) && HasPhase(s, c, Decremented)
    case SyncStart(_) => true // under the lock of the RealCall, not of the dispatcher
    case SyncAdd(r) => LockFree(s) && InSync(s, r, Flagged)
    case SyncFinish(r) => LockFree(s) && InSync(s, r, Added)
    case SetMaxRequests(_) => LockFree(s)
    case SetMaxPerHost(_) => LockFree(s)
  }

  predicate Eligible(s: State, c: nat)
    requires c < |s.calls| && s.calls[c].counter < |s.counters|
  {
    |s.running| < s.maxRequests && s.counters[s.calls[c].counter] < s.maxPerHost
  }

  /** Ids and counter references point somewhere. */
  predicate InBounds(s: State)
  {
    && |s.counters| == |s.calls|
    && (forall i :: 0 <= i < |s.ready| ==> s.ready[i] < |s.calls|)
    && (forall i :: 0 <= i < |s.running| ==> s.running[i] < |s.calls|)
    && (forall c :: 0 <= c < |s.calls| ==> s.calls[c].counter < |s.counters|)
  }

  function EnqueueNext(s: State, request: nat, host: string, webSocket: bool): (r: State)
    requires InBounds(s)
  {
    if request in s.executed then s // IllegalStateException("Already Executed")
    else
      var id := |s.calls|;
      var calls := s.calls + [Call(request, host, webSocket, id, Ready, 0)];
      var ready := s.ready + [id];
      var existing := if webSocket then None else FindExisting(calls, s.running, ready, host);
      var counter := if existing.Some? then calls[existing.value].counter else id;
      s.(calls := calls[id := calls[id].(counter := counter)], counters := s.counters + [0], ready := ready,
         executed := s.executed + {request}, owed := s.owed + 1)
  }

  /** One turn of the promote loop. */
  function VisitNext(s: State): (r: State)
    requires InBounds(s) && Enabled(s, Visit)
  {
    var i := s.pass.value.idx;
    var c := s.ready[i];
    if |s.running| >= s.maxRequests then s.(pass := Some(s.pass.value.(idx := |s.ready|))) // break
    else if s.counters[s.calls[c].counter] >= s.maxPerHost then s.(pass := Some(s.pass.value.(idx := i + 1)))
    else
      var k := s.calls[c].counter;
      s.(ready := RemoveAt(s.ready, i), counters := s.counters[k := s.counters[k] + 1],
         running := s.running + [c], calls := SetPhase(s, c, Promoted), promoted := s.promoted + [c])
  }

  function Next(s: State, step: Step): (r: State)
    requires InBounds(s) && Enabled(s, step)
  {
    match step
    case Enqueue(request, host, ws) => EnqueueNext(s, request, host, ws)
    case BeginPass(f) =>
      if f then s.(pass := Some(Pass(0, true)), owedFinish := s.owedFinish - 1)
      else s.(pass := Some(Pass(0, false)), owed := s.owed - 1)
    case Visit => VisitNext(s)
    case EndPass =>
      var isRunning := |s.running| + |s.sync| > 0;
      s.(pass := None, idleFirings := s.idleFirings + if s.pass.value.fromFinish && !isRunning then 1 else 0)
    case Submit(c, accepted) =>
      if accepted then s.(calls := SetPhase(s, c, Submitted))
      else s.(calls := s.calls[c := s.calls[c].(phase := Signalled, callbacks := s.calls[c].callbacks + 1)])
    case Signal(c) =>
      s.(calls := s.calls[c := s.calls[c].(phase := Signalled, callbacks := s.calls[c].callbacks + 1)])
    case Decrement(c) =>
      var k := s.calls[c].counter;
      s.(calls := SetPhase(s, c, Decremented), counters := s.counters[k := s.counters[k] - 1])
    case Remove(c) =>
      if c !in s.running then s.(crashed := true) // AssertionError("Call wasn't in-flight!")
      else s.(calls := SetPhase(s, c, Removed), running := RemoveFirst(s.running, c), owedFinish := s.owedFinish + 1)
    case SyncStart(request) =>
      if request in s.executed then s // IllegalStateException("Already Executed")
      else s.(executed := s.executed + {request}, syncUse := s.syncUse[request := Flagged])
    case SyncAdd(request) => s.(sync := s.sync + [request], syncUse := s.syncUse[request := Added])
    case SyncFinish(request) =>
      var done := s.syncUse[request := Returned];
      if request !in s.sync then s.(crashed := true, syncUse := done) // AssertionError("Call wasn't in-flight!")
      else s.(sync := RemoveFirst(s.sync, request), syncUse := done, owedFinish := s.owedFinish + 1)
    case SetMaxRequests(n) => if n < 1 then s else s.(maxRequests := n, owed := s.owed + 1)
    case SetMaxPerHost(n) => if n < 1 then s else s.(maxPerHost := n, owed := s.owed + 1)
  }

  // ---------------------------------------------------------------- the invariant

  predicate Increasing(ids: seq<nat>)
  {
    forall i, j :: 0 <= i < j < |ids| ==> ids[i] < ids[j]
  }

  predicate NoDuplicates(ids: seq<nat>)
  {
    forall i, j :: 0 <= i < j < |ids| ==> ids[i] != ids[j]
  }

  /** Each call is in the deque its phase says, once, and in no other. */
  predicate Placed(s: State)
  {
    && Increasing(s.ready) && NoDuplicates(s.running)
    && (forall c :: 0 <= c < |s.calls| ==> (c in s.ready <==> s.calls[c].phase == Ready))
    && (forall c :: 0 <= c < |s.calls| ==> (c in s.running <==> InRunning(s.calls[c].phase)))
  }

  /** One attempted callback from `Signalled` on, none before; no assertion failed. */
  predicate Signals(s: State)
  {
    && !s.crashed
    && s.maxRequests >= 1 && s.maxPerHost >= 1
    && (forall c :: 0 <= c < |s.calls| ==>
         s.calls[c].callbacks == (var p := s.calls[c].phase;
            if p == Ready || p == Promoted || p == Submitted then 0 else 1))
  }

  /** The sync deque holds each call between `Dispatcher.executed` and `finished`, once, and no other;
      `execute` got past the flag only on calls that have it set. */
  ghost predicate SyncPlaced(s: State)
  {
    && NoDuplicates(s.sync) && s.syncUse.Keys <= s.executed
    && (forall r :: r in s.sync <==> InSync(s, r, Added))
  }

  /** The running calls that hold a counter and have not begun finishing. */
  ghost function Holders(s: State, k: nat): (r: set<nat>)
  {
    set c | 0 <= c < |s.calls| && s.calls[c].counter == k && Active(s.calls[c].phase)
  }

  ghost predicate Counted(s: State)
    requires InBounds(s)
  {
    forall k :: 0 <= k < |s.counters| ==> s.counters[k] == |Holders(s, k)|
  }

  /** A pass that has got past the front of the ready deque found the dispatcher busy. */
  predicate PassOk(s: State)
  {
    s.pass.Some? ==> s.pass.value.idx <= |s.ready| && (s.pass.value.idx > 0 ==> s.running != [])
  }

  /** Some thread will still call `promoteAndExecute`. */
  predicate PromoteOwed(s: State)
  {
    s.owed > 0 || s.owedFinish > 0 || exists c :: 0 <= c < |s.calls| && s.calls[c].phase == Decremented
  }

  predicate NotStuck(s: State)
    requires InBounds(s)
  {
    forall j :: 0 <= j < |s.ready| && Eligible(s, s.ready[j]) ==>
      PromoteOwed(s) || (s.pass.Some? && s.pass.value.idx <= j)
  }

  ghost predicate Inv(s: State)
  {
    InBounds(s) && Placed(s) && SyncPlaced(s) && Signals(s) && Counted(s) && PassOk(s) && NotStuck(s)
  }

  // ---------------------------------------------------------------- lemmas on sequences

  lemma {:induction false} RemoveFirstMembers(s: seq<nat>, x: nat)
    requires NoDuplicates(s) && x in s
    ensures NoDuplicates(RemoveFirst(s, x))
    ensures forall y :: y in RemoveFirst(s, x) <==> y in s && y != x
    ensures |RemoveFirst(s, x)| == |s| - 1
  {
    assert forall y :: y in s <==> y == s[0] || y in s[1..];
    if s[0] != x {
      var t := RemoveFirst(s[1..], x);
      RemoveFirstMembers(s[1..], x);
      assert forall j :: 0 <= j < |t| ==> t[j] in t;
      assert forall y :: y in [s[0]] + t <==> y == s[0] || y in t;
    }
  }

  lemma {:induction false} RemoveFirstBounds(s: seq<nat>, x: nat, n: nat)
    requires forall i :: 0 <= i < |s| ==> s[i] < n
    ensures forall i :: 0 <= i < |RemoveFirst(s, x)| ==> RemoveFirst(s, x)[i] < n
  {
    if s != [] && s[0] != x {
      RemoveFirstBounds(s[1..], x, n);
    }
  }

  lemma RemoveAtMembers(s: seq<nat>, i: nat)
    requires Increasing(s) && i < |s|
    ensures Increasing(RemoveAt(s, i))
    ensures forall y :: y in RemoveAt(s, i) <==> y in s && y != s[i]
  {
  }

  // ---------------------------------------------------------------- bounds and places

  lemma EnqueueInBounds(s: State, request: nat, host: string, webSocket: bool)
    requires InBounds(s)
    ensures InBounds(EnqueueNext(s, request, host, webSocket))
  {
  }

  lemma VisitInBounds(s: State)
    requires InBounds(s) && Enabled(s, Visit)
    ensures InBounds(VisitNext(s))
  {
    var i := s.pass.value.idx;
    assert forall j :: 0 <= j < |RemoveAt(s.ready, i)| ==>
      RemoveAt(s.ready, i)[j] == s.ready[if j < i then j else j + 1];
  }

  lemma NextInBounds(s: State, step: Step)
    requires InBounds(s) && Enabled(s, step)
    ensures InBounds(Next(s, step))
  {
    hide EnqueueNext, VisitNext, RemoveFirst;
    match step
    case Enqueue(request, host, ws) => EnqueueInBounds(s, request, host, ws);
    case Visit => VisitInBounds(s);
    case Remove(c) => RemoveFirstBounds(s.running, c, |s.calls|);
    case _ =>
  }

  lemma EnqueuePlaced(s: State, request: nat, host: string, webSocket: bool)
    requires InBounds(s) && Placed(s)
    ensures Placed(EnqueueNext(s, request, host, webSocket))
  {
    hide FindExisting;
  }

  lemma VisitPlaced(s: State)
    requires InBounds(s) && Placed(s) && Enabled(s, Visit)
    ensures Placed(VisitNext(s))
  {
    hide RemoveAt;
    RemoveAtMembers(s.ready, s.pass.value.idx);
  }

  lemma NextPlaced(s: State, step: Step)
    requires InBounds(s) && Placed(s) && Enabled(s, step)
    ensures Placed(Next(s, step))
  {
    hide EnqueueNext, VisitNext, RemoveFirst, Increasing, NoDuplicates;
    match step
    case Enqueue(request, host, ws) => EnqueuePlaced(s, request, host, ws);
    case Visit => VisitPlaced(s);
    case Remove(c) => RemovePlaced(s, c);
    case _ =>
  }

  lemma RemovePlaced(s: State, c: nat)
    requires InBounds(s) && Placed(s) && Enabled(s, Remove(c))
    ensures Placed(Next(s, Remove(c)))
  {
    hide RemoveFirst, Increasing, NoDuplicates;
    RemoveFirstMembers(s.running, c);
  }

  lemma EnqueueSync(s: State, request: nat, host: string, webSocket: bool)
    requires InBounds(s)
    ensures var t := EnqueueNext(s, request, host, webSocket);
            t.sync == s.sync && t.syncUse == s.syncUse && s.executed <= t.executed
  {
    hide FindExisting;
  }

  lemma VisitSync(s: State)
    requires InBounds(s) && Enabled(s, Visit)
    ensures var t := VisitNext(s); t.sync == s.sync && t.syncUse == s.syncUse && t.executed == s.executed
  {
    hide RemoveAt;
  }

  lemma AppendNew(s: seq<nat>, x: nat)
    requires NoDuplicates(s) && x !in s
    ensures NoDuplicates(s + [x])
  {
  }

  lemma NextSyncPlaced(s: State, step: Step)
    requires InBounds(s) && SyncPlaced(s) && Enabled(s, step)
    ensures SyncPlaced(Next(s, step))
  {
    hide RemoveFirst, EnqueueNext, VisitNext, NoDuplicates;
    match step
    case Enqueue(request, host, ws) => EnqueueSync(s, request, host, ws);
    case Visit => VisitSync(s);
    case SyncAdd(request) => AppendNew(s.sync, request);
    case SyncFinish(request) => RemoveFirstMembers(s.sync, request);
    case _ =>
  }

  lemma NextSignals(s: State, step: Step)
    requires InBounds(s) && Placed(s) && SyncPlaced(s) && Signals(s) && Enabled(s, step)
    ensures Signals(Next(s, step))
  {
    hide FindExisting, RemoveFirst, RemoveAt, Increasing, NoDuplicates;
  }

  // ---------------------------------------------------------------- counters

  /** Changing the phase of one call moves it in or out of the holders of its counter only. */
  lemma HoldersUpdate(s: State, t: State, c: nat)
    requires c < |s.calls| && |t.calls| == |s.calls| && t.calls == s.calls[c := t.calls[c]]
    requires t.calls[c].counter == s.calls[c].counter
    ensures forall k :: k != s.calls[c].counter ==> Holders(t, k) == Holders(s, k)
    ensures var k := s.calls[c].counter;
            Holders(t, k) == if Active(t.calls[c].phase) then Holders(s, k) + {c} else Holders(s, k) - {c}
  {
  }

  lemma EnqueueCounted(s: State, request: nat, host: string, webSocket: bool)
    requires InBounds(s) && Counted(s)
    ensures InBounds(EnqueueNext(s, request, host, webSocket)) && Counted(EnqueueNext(s, request, host, webSocket))
  {
    hide FindExisting;
    EnqueueInBounds(s, request, host, webSocket);
    var t := EnqueueNext(s, request, host, webSocket);
    if request !in s.executed {
      forall k | 0 <= k < |t.counters|
        ensures t.counters[k] == |Holders(t, k)|
      {
        assert Holders(t, k) == Holders(s, k);
        if k == |s.calls| {
          assert Holders(s, k) == {};
        }
      }
    }
  }

  lemma CallCounted(s: State, t: State, c: nat)
    requires InBounds(s) && InBounds(t) && Counted(s)
    requires c < |s.calls| && |t.calls| == |s.calls| && t.calls == s.calls[c := t.calls[c]]
    requires t.calls[c].counter == s.calls[c].counter
    requires var k := s.calls[c].counter;
             var change := (if Active(t.calls[c].phase) then 1 else 0) - (if Active(s.calls[c].phase) then 1 else 0);
             t.counters == s.counters[k := s.counters[k] + change]
    ensures Counted(t)
  {
    HoldersUpdate(s, t, c);
    var k := s.calls[c].counter;
    assert c in Holders(s, k) <==> Active(s.calls[c].phase);
    hide Holders;
    forall j | 0 <= j < |t.counters|
      ensures t.counters[j] == |Holders(t, j)|
    {
      assert s.counters[j] == |Holders(s, j)|;
    }
  }

  lemma VisitCounted(s: State)
    requires InBounds(s) && Placed(s) && Counted(s) && Enabled(s, Visit)
    ensures InBounds(VisitNext(s)) && Counted(VisitNext(s))
  {
    hide RemoveAt, Holders;
    VisitInBounds(s);
    var t, c := VisitNext(s), s.ready[s.pass.value.idx];
    if Eligible(s, c) {
      assert c in s.ready && s.calls[c].phase == Ready;
      CallCounted(s, t, c);
    } else {
      SameHolders(s, t);
    }
  }

  lemma SameHolders(s: State, t: State)
    requires InBounds(s) && InBounds(t) && Counted(s) && t.calls == s.calls && t.counters == s.counters
    ensures Counted(t)
  {
  }

  lemma NextCounted(s: State, step: Step)
    requires InBounds(s) && Placed(s) && Counted(s) && Enabled(s, step)
    ensures InBounds(Next(s, step)) && Counted(Next(s, step))
  {
    hide EnqueueNext, VisitNext, RemoveFirst, Holders, Increasing, NoDuplicates;
    NextInBounds(s, step);
    var t := Next(s, step);
    match step
    case Enqueue(request, host, ws) => EnqueueCounted(s, request, host, ws);
    case Visit => VisitCounted(s);
    case Submit(c, _) => CallCounted(s, t, c);
    case Signal(c) => CallCounted(s, t, c);
    case Decrement(c) => CallCounted(s, t, c);
    case Remove(c) => if c in s.running { CallCounted(s, t, c); } else { SameHolders(s, t); }
    case _ => SameHolders(s, t);
  }

  // ---------------------------------------------------------------- passes

  /** A counter above zero is held by a running call. */
  lemma CounterHeld(s: State, k: nat)
    requires InBounds(s) && Placed(s) && Counted(s) && k < |s.counters| && s.counters[k] > 0
    ensures s.running != [] && exists c :: c in s.running && c in Holders(s, k)
  {
  }

  lemma NextPassOk(s: State, step: Step)
    requires InBounds(s) && Placed(s) && Signals(s) && Counted(s) && PassOk(s) && Enabled(s, step)
    ensures PassOk(Next(s, step))
  {
  }

  lemma VisitNotStuck(s: State)
    requires InBounds(s) && Placed(s) && NotStuck(s) && Enabled(s, Visit)
    ensures InBounds(VisitNext(s)) && NotStuck(VisitNext(s))
  {
    hide Increasing, NoDuplicates;
    VisitInBounds(s);
    var t, i := VisitNext(s), s.pass.value.idx;
    var c := s.ready[i];
    assert c in s.ready && s.calls[c].phase == Ready;
    if PromoteOwed(s) {
      assert PromoteOwed(t) by { KeepsOwed(s, t, c); }
    } else {
      forall j | 0 <= j < |t.ready| && Eligible(t, t.ready[j])
        ensures t.pass.value.idx <= j
      {
        var p := if |t.ready| == |s.ready| || j < i then j else j + 1;
        assert t.ready[j] == s.ready[p];
        assert Eligible(s, s.ready[p]);
      }
    }
  }

  lemma KeepsOwed(s: State, t: State, c: nat)
    requires PromoteOwed(s) && t.owed == s.owed && t.owedFinish == s.owedFinish
    requires c < |s.calls| == |t.calls| && s.calls[c].phase != Decremented
    requires forall d :: 0 <= d < |s.calls| && d != c ==> t.calls[d] == s.calls[d]
    ensures PromoteOwed(t)
  {
  }

  lemma CallNotStuck(s: State, t: State, c: nat)
    requires InBounds(s) && InBounds(t) && NotStuck(s)
    requires c < |s.calls| == |t.calls| && s.calls[c].phase != Decremented
    requires t == s.(calls := s.calls[c := t.calls[c]]) && t.calls[c].counter == s.calls[c].counter
    ensures NotStuck(t)
  {
    forall j | 0 <= j < |t.ready| && Eligible(t, t.ready[j])
      ensures PromoteOwed(t) || (t.pass.Some? && t.pass.value.idx <= j)
    {
      assert Eligible(s, s.ready[j]);
      if PromoteOwed(s) {
        KeepsOwed(s, t, c);
      }
    }
  }

  lemma NextNotStuck(s: State, step: Step)
    requires InBounds(s) && Placed(s) && Signals(s) && NotStuck(s) && PassOk(s) && Enabled(s, step)
    ensures InBounds(Next(s, step)) && NotStuck(Next(s, step))
  {
    hide EnqueueNext, VisitNext, RemoveFirst, Placed;
    NextInBounds(s, step);
    var t := Next(s, step);
    match step
    case Enqueue(request, host, ws) => EnqueueOwes(s, request, host, ws);
    case Visit => VisitNotStuck(s);
    case Submit(c, _) => CallNotStuck(s, t, c);
    case Signal(c) => CallNotStuck(s, t, c);
    case Decrement(c) => assert t.calls[c].phase == Decremented;
    case Remove(c) => InFlight(s, c);
    case SyncAdd(_) => assert forall j :: 0 <= j < |t.ready| && Eligible(t, t.ready[j]) ==> Eligible(s, s.ready[j]);
    case EndPass => assert forall j :: 0 <= j < |t.ready| && Eligible(t, t.ready[j]) ==> Eligible(s, s.ready[j]);
    case _ =>
  }

  lemma EnqueueOwes(s: State, request: nat, host: string, webSocket: bool)
    requires InBounds(s)
    ensures var t := EnqueueNext(s, request, host, webSocket); t == s || t.owed > 0
  {
    hide FindExisting;
  }

  lemma InFlight(s: State, c: nat)
    requires InBounds(s) && Placed(s) && HasPhase(s, c, Decremented)
    ensures c in s.running
  {
  }

  // ---------------------------------------------------------------- every run

  /** Every step of every thread keeps the invariant. */
  lemma NextKeepsInv(s: State, step: Step)
    requires Inv(s) && Enabled(s, step)
    ensures Inv(Next(s, step))
  {
    hide Next, Placed, SyncPlaced, Signals, Counted, PassOk, NotStuck, InBounds;
    NextInBounds(s, step);
    NextPlaced(s, step);
    NextSyncPlaced(s, step);
    NextSignals(s, step);
    NextCounted(s, step);
    NextPassOk(s, step);
    NextNotStuck(s, step);
  }

  lemma InitialInv()
    ensures Inv(INITIAL)
  {
  }

  /** The state after a sequence of steps; `None` when a step is not possible. Every state that
      any run reaches satisfies the invariant. */
  ghost function Run(steps: seq<Step>): (r: Option<State>)
    ensures r.Some? ==> Inv(r.value)
  {
    if steps == [] then InitialInv(); Some(INITIAL)
    else
      var before := Run(steps[..|steps| - 1]);
      if before.None? || !Enabled(before.value, steps[|steps| - 1]) then None
      else
        NextKeepsInv(before.value, steps[|steps| - 1]);
        Some(Next(before.value, steps[|steps| - 1]))
  }
}
