/** Every run of the dispatcher can be brought to an end: whatever its threads are doing, they can go on until every
    call has been served and nothing is owed. */
module DispatcherDrain {
  import opened Text
  import opened Dispatcher
  import opened DispatcherLaws

  /** Every call has had its callback and left, every `execute` has returned, and no thread has anything left to
      do. */
  predicate Drained(s: State)
  {
    && s.ready == [] && s.running == [] && s.sync == []
    && s.pass.None? && s.owed == 0 && s.owedFinish == 0
    && (forall c :: 0 <= c < |s.calls| ==> s.calls[c].phase == Removed && s.calls[c].callbacks == 1)
    && (forall r :: r in s.syncUse ==> s.syncUse[r] == Returned)
  }

  // ---------------------------------------------------------------- what is left to do

  function Rank(p: Phase): (n: nat)
  {
    match p
    case Ready => 5 case Promoted => 4 case Submitted => 3 case Signalled => 2 case Decremented => 1 case Removed => 0
  }

  function CallsLeft(calls: seq<Call>): (n: nat)
  {
    if calls == [] then 0 else Rank(calls[0].phase) + CallsLeft(calls[1..])
  }

  lemma {:induction false} LessLeft(calls: seq<Call>, c: nat, x: Call)
    requires c < |calls| && Rank(x.phase) < Rank(calls[c].phase)
    ensures CallsLeft(calls[c := x]) < CallsLeft(calls)
  {
    hide Rank;
    var t := calls[c := x];
    if c == 0 {
      assert t[1..] == calls[1..];
    } else {
      assert t[1..] == calls[1..][c - 1 := x];
      LessLeft(calls[1..], c - 1, x);
    }
  }

  function InPhase(uses: map<nat, SyncPhase>, p: SyncPhase): (r: set<nat>) { set r | r in uses && uses[r] == p }

  function SyncLeft(uses: map<nat, SyncPhase>): (n: nat) { 2 * |InPhase(uses, Flagged)| + |InPhase(uses, Added)| }

  lemma LessSyncLeft(uses: map<nat, SyncPhase>, r: nat)
    requires r in uses && uses[r] != Returned
    ensures SyncLeft(uses[r := if uses[r] == Flagged then Added else Returned]) < SyncLeft(uses)
  {
    var next := uses[r := if uses[r] == Flagged then Added else Returned];
    if uses[r] == Flagged {
      assert InPhase(next, Flagged) == InPhase(uses, Flagged) - {r};
      assert InPhase(next, Added) == InPhase(uses, Added) + {r};
    } else {
      assert InPhase(next, Flagged) == InPhase(uses, Flagged);
      assert InPhase(next, Added) == InPhase(uses, Added) - {r};
    }
  }

  function Work(s: State): (n: nat) { CallsLeft(s.calls) + SyncLeft(s.syncUse) }

  function PassLeft(s: State): (n: nat)
  {
    if s.pass.None? || s.pass.value.idx > |s.ready| then 0 else |s.ready| - s.pass.value.idx + 1
  }

  // ---------------------------------------------------------------- one step on

  /** `step` can be taken, and leaves less to do. */
  ghost predicate Helps(s: State, step: Step)
    requires Inv(s)
  {
    && Enabled(s, step)
    && var t := Next(s, step);
       || Work(t) < Work(s)
       || (Work(t) == Work(s) && t.owed + t.owedFinish < s.owed + s.owedFinish)
       || (Work(t) == Work(s) && t.owed + t.owedFinish == s.owed + s.owedFinish && PassLeft(t) < PassLeft(s))
  }

  lemma PassHelps(s: State)
    requires Inv(s) && s.pass.Some?
    ensures Helps(s, if s.pass.value.idx < |s.ready| then Visit else EndPass)
  {
    hide Placed, SyncPlaced, Signals, Counted, NotStuck, CallsLeft, SyncLeft;
    if s.pass.value.idx < |s.ready| {
      var c := s.ready[s.pass.value.idx];
      ReadyHere(s, c);
      LessLeft(s.calls, c, s.calls[c].(phase := Promoted));
    }
  }

  lemma ReadyHere(s: State, c: nat)
    requires Inv(s) && c in s.ready
    ensures c < |s.calls| && s.calls[c].phase == Ready
  {
  }

  /** What a call in `c`'s phase needs next. */
  function ForCall(s: State, c: nat): (step: Step)
    requires c < |s.calls|
  {
    match s.calls[c].phase
    case Promoted => Submit(c, true)
    case Submitted => Signal(c)
    case Signalled => Decrement(c)
    case _ => Remove(c)
  }

  lemma CallHelps(s: State, c: nat)
    requires Inv(s) && s.pass.None? && c < |s.calls| && InRunning(s.calls[c].phase)
    ensures Helps(s, ForCall(s, c))
  {
    assert c in s.running;
    hide Placed, SyncPlaced, Signals, Counted, NotStuck, CallsLeft, SyncLeft, RemoveFirst;
    LessLeft(s.calls, c, Next(s, ForCall(s, c)).calls[c]);
  }

  lemma SyncHelps(s: State, r: nat)
    requires Inv(s) && s.pass.None? && r in s.syncUse && s.syncUse[r] != Returned
    ensures Helps(s, if s.syncUse[r] == Flagged then SyncAdd(r) else SyncFinish(r))
  {
    LessSyncLeft(s.syncUse, r);
    hide Placed, Signals, Counted, NotStuck, CallsLeft, SyncLeft, RemoveFirst;
  }

  lemma OwedHelps(s: State)
    requires Inv(s) && s.pass.None? && s.owed + s.owedFinish > 0
    ensures Helps(s, BeginPass(s.owedFinish > 0))
  {
    hide Placed, SyncPlaced, Signals, Counted, NotStuck, CallsLeft, SyncLeft;
  }

  /** When no thread has a step left to take, nothing is left to do. */
  lemma NothingLeft(steps: seq<Step>, s: State)
    requires Run(steps) == Some(s) && s.pass.None? && s.owed == 0 && s.owedFinish == 0
    requires forall c :: 0 <= c < |s.calls| ==> !InRunning(s.calls[c].phase)
    requires forall r :: r in s.syncUse ==> s.syncUse[r] == Returned
    ensures Drained(s)
  {
    hide Run, Counted, PassOk, NotStuck;
    NoStuckCall(steps);
    if s.ready != [] {
      assert s.calls[s.ready[0]].phase == Ready by { ReadyHere(s, s.ready[0]); }
      assert Quiescent(s);
    }
    NobodyRuns(s);
    forall c | 0 <= c < |s.calls|
      ensures s.calls[c].phase == Removed
    {
      assert c !in s.ready;
    }
  }

  lemma FirstIn(s: seq<nat>)
    requires s != []
    ensures s[0] in s
  {
  }

  lemma NobodyRuns(s: State)
    requires Inv(s) && forall c :: 0 <= c < |s.calls| ==> !InRunning(s.calls[c].phase)
    requires forall r :: r in s.syncUse ==> s.syncUse[r] == Returned
    ensures s.running == [] && s.sync == []
  {
    if s.running != [] {
      FirstIn(s.running);
    }
    if s.sync != [] {
      FirstIn(s.sync);
    }
  }

  // ---------------------------------------------------------------- to the end

  lemma Extend(steps: seq<Step>, s: State, step: Step) returns (longer: seq<Step>)
    requires Run(steps) == Some(s) && Enabled(s, step)
    ensures Inv(s) && longer == steps + [step] && Run(longer) == Some(Next(s, step))
  {
    hide Inv, Enabled, Next;
    longer := steps + [step];
    assert longer[..|steps|] == steps;
  }

  /** A step that brings the dispatcher nearer its end, unless it is there. */
  lemma NextStep(steps: seq<Step>, s: State) returns (step: Option<Step>)
    requires Run(steps) == Some(s)
    ensures Inv(s) && if step.Some? then Helps(s, step.value) && !step.value.Enqueue? else Drained(s)
  {
    hide Run, Helps, Placed, SyncPlaced, Signals, Counted, PassOk, NotStuck, InBounds;
    if s.pass.Some? {
      PassHelps(s);
      step := Some(if s.pass.value.idx < |s.ready| then Visit else EndPass);
    } else if c: nat :| c < |s.calls| && InRunning(s.calls[c].phase) {
      CallHelps(s, c);
      step := Some(ForCall(s, c));
    } else if r :| r in s.syncUse && s.syncUse[r] != Returned {
      SyncHelps(s, r);
      step := Some(if s.syncUse[r] == Flagged then SyncAdd(r) else SyncFinish(r));
    } else if s.owed + s.owedFinish > 0 {
      OwedHelps(s);
      step := Some(BeginPass(s.owedFinish > 0));
    } else {
      NothingLeft(steps, s);
      step := None;
    }
  }

  /** No run is ever stuck: each has a continuation in which no call is added and after which everything is
      served. */
  lemma {:induction false} CanDrain(steps: seq<Step>, s: State)
    requires Run(steps) == Some(s)
    ensures exists longer: seq<Step> ::
              && steps <= longer && Run(longer).Some? && Drained(Run(longer).value)
              && |Run(longer).value.calls| == |s.calls|
    decreases Work(s), s.owed + s.owedFinish, PassLeft(s)
  {
    hide Run, Inv, Drained, Next, Enabled, Work, PassLeft, Helps;
    var step := NextStep(steps, s);
    if step.None? {
      assert steps <= steps;
    } else {
      HelpfulStep(s, step.value);
      var longer := Extend(steps, s, step.value);
      NoCallAdded(s, step.value);
      CanDrain(longer, Next(s, step.value));
      var end: seq<Step> :| longer <= end && Run(end).Some? && Drained(Run(end).value)
                            && |Run(end).value.calls| == |Next(s, step.value).calls|;
      assert end[..|steps|] == longer[..|steps|] == steps;
    }
  }

  lemma HelpfulStep(s: State, step: Step)
    requires Inv(s) && Helps(s, step)
    ensures InBounds(s) && Enabled(s, step)
    ensures var t := Next(s, step);
            || Work(t) < Work(s)
            || (Work(t) == Work(s) && t.owed + t.owedFinish < s.owed + s.owedFinish)
            || (Work(t) == Work(s) && t.owed + t.owedFinish == s.owed + s.owedFinish && PassLeft(t) < PassLeft(s))
  {
    hide Next, Work, PassLeft, Enabled, Placed, SyncPlaced, Signals, Counted, PassOk, NotStuck;
  }

  lemma NoCallAdded(s: State, step: Step)
    requires Inv(s) && Enabled(s, step) && !step.Enqueue?
    ensures |Next(s, step).calls| == |s.calls|
  {
  }

  // ---------------------------------------------------------------- a call on the caller's thread

  /** `execute` on a request that has not been used goes through, and its request is in the sync deque while it
      runs. */
  lemma SyncCallRuns(steps: seq<Step>, s: State, request: nat) returns (longer: seq<Step>)
    requires Run(steps) == Some(s) && s.pass.None? && request !in s.executed
    ensures longer == steps + [SyncStart(request), SyncAdd(request), SyncFinish(request)]
    ensures var during := Run(longer[..|steps| + 2]); during.Some? && during.value.sync == s.sync + [request]
    ensures var end := Run(longer);
            && end.Some? && end.value.sync == s.sync && end.value.owedFinish == s.owedFinish + 1
            && request in end.value.executed
  {
    hide Run, Placed, Signals, Counted, PassOk, NotStuck, InBounds;
    longer := Extend(steps, s, SyncStart(request));
    var flagged := Next(s, SyncStart(request));
    longer := Extend(longer, flagged, SyncAdd(request));
    var added := Next(flagged, SyncAdd(request));
    longer := Extend(longer, added, SyncFinish(request));
    assert longer[..|steps| + 2] == steps + [SyncStart(request), SyncAdd(request)];
    assert request !in s.sync;
    LastRemoved(s.sync, request);
  }

  lemma {:induction false} LastRemoved(s: seq<nat>, x: nat)
    requires x !in s
    ensures RemoveFirst(s + [x], x) == s
  {
    if s != [] {
      assert (s + [x])[1..] == s[1..] + [x];
      LastRemoved(s[1..], x);
    }
  }
}
