/** The dispatcher as the object it is: three deques and two limits changed in place. Its critical
    sections are proved against the steps of the state machine. `AsyncCall` objects and the
    `AtomicInteger`s they share are entries of two tables. */
module DispatcherObject {
  import opened Text
  import opened Dispatcher

  /** A promote loop run to its end. */
  function FullPass(s: State): (r: State)
    requires InBounds(s) && s.pass.Some? && s.pass.value.idx <= |s.ready|
    decreases |s.ready| - s.pass.value.idx
  {
    if s.pass.value.idx == |s.ready| then s
    else
      VisitInBounds(s);
      FullPass(VisitNext(s))
  }

  lemma FullPassStep(s: State)
    requires InBounds(s) && Enabled(s, Visit)
    ensures var t := VisitNext(s);
            && InBounds(t) && t.pass.Some? && t.pass.value.idx <= |t.ready|
            && |t.ready| - t.pass.value.idx < |s.ready| - s.pass.value.idx
            && FullPass(s) == FullPass(t)
  {
    VisitInBounds(s);
  }

  lemma FullPassEnd(s: State)
    requires InBounds(s) && s.pass.Some? && s.pass.value.idx == |s.ready|
    ensures FullPass(s) == s
  {
  }

  // ---------------------------------------------------------------- an executor that rejects

  ghost predicate Sound(s: State)
  {
    && InBounds(s) && Increasing(s.ready) && NoDuplicates(s.running)
    && (forall c :: c in s.ready ==> c !in s.running)
  }

  /** How often counter `k` is held among `ids`. */
  ghost function Held(calls: seq<Call>, ids: seq<nat>, k: nat): (n: nat)
    requires forall i :: 0 <= i < |ids| ==> ids[i] < |calls|
  {
    if ids == [] then 0 else (if calls[ids[0]].counter == k then 1 else 0) + Held(calls, ids[1..], k)
  }

  /** What became of call `c` of `before`. */
  function Fate(before: State, after: State, left: seq<nat>, c: nat): (r: Call)
    requires c < |before.calls|
  {
    var call := before.calls[c];
    if c in left then call.(phase := Promoted)
    else if c in before.ready && c !in after.ready then call.(phase := Removed, callbacks := call.callbacks + 1)
    else call
  }

  /** `after` is `before` with some calls that were ready and eligible promoted: those of `left` are
      running, and the others were rejected, told so once, and removed. */
  ghost predicate Rejected(before: State, after: State, left: seq<nat>)
    requires Sound(before)
  {
    && |after.calls| == |before.calls| && |after.counters| == |before.counters|
    && after.maxRequests == before.maxRequests && after.maxPerHost == before.maxPerHost
    && after.sync == before.sync
    && after.running == before.running + left
    && |after.ready| + |left| <= |before.ready|
    && Increasing(after.ready) && NoDuplicates(left)
    && (forall c :: c in after.ready ==> c in before.ready && c !in left)
    && (forall i :: 0 <= i < |left| ==> left[i] in before.ready)
    && (forall c :: c in before.ready && c !in after.ready ==> c < |before.calls| && Eligible(before, c))
    && (forall c :: 0 <= c < |before.calls| ==> after.calls[c] == Fate(before, after, left, c))
    && (forall k :: 0 <= k < |before.counters| ==>
          after.counters[k] == before.counters[k] + HeldBefore(before, left, k))
  }

  ghost function HeldBefore(before: State, left: seq<nat>, k: nat): (n: nat)
    requires Sound(before)
  {
    if forall i :: 0 <= i < |left| ==> left[i] < |before.calls| then Held(before.calls, left, k) else 0
  }

  lemma HeldEmpty(before: State, k: nat)
    requires Sound(before)
    ensures HeldBefore(before, [], k) == 0
  {
  }

  lemma HeldCons(before: State, left: seq<nat>, k: nat)
    requires Sound(before) && left != [] && forall i :: 0 <= i < |left| ==> left[i] < |before.calls|
    ensures HeldBefore(before, left, k)
         == (if before.calls[left[0]].counter == k then 1 else 0) + HeldBefore(before, left[1..], k)
  {
  }

  lemma {:induction false} HeldSnoc(calls: seq<Call>, left: seq<nat>, c: nat, k: nat)
    requires forall i :: 0 <= i < |left| ==> left[i] < |calls|
    requires c < |calls|
    ensures Held(calls, left + [c], k) == Held(calls, left, k) + (if calls[c].counter == k then 1 else 0)
  {
    if left != [] {
      HeldSnoc(calls, left[1..], c, k);
      assert (left + [c])[1..] == left[1..] + [c];
    }
  }

  lemma RejectedNone(before: State)
    requires Sound(before)
    ensures Rejected(before, before, [])
  {
  }

  lemma RejectedInBounds(before: State, after: State, left: seq<nat>)
    requires Sound(before) && Rejected(before, after, left)
    ensures Sound(after)
    ensures forall i :: 0 <= i < |left| ==> left[i] < |before.calls|
  {
    forall i | 0 <= i < |after.ready|
      ensures after.ready[i] < |after.calls|
    {
      assert after.ready[i] in after.ready;
    }
    forall i | 0 <= i < |left|
      ensures left[i] < |before.calls| && left[i] !in before.running
    {
      assert left[i] in before.ready;
    }
    assert NoDuplicates(after.running);
  }

  /** Promoting only makes the dispatcher busier. */
  lemma EligibleBefore(before: State, s: State, left: seq<nat>, c: nat)
    requires Sound(before) && Rejected(before, s, left) && c < |s.calls| && s.calls[c].counter < |s.counters|
    ensures s.calls[c].counter == before.calls[c].counter
    ensures Eligible(s, c) ==> Eligible(before, c)
    ensures left == [] && Eligible(before, c) ==> Eligible(s, c)
  {
  }

  lemma VisitRejects(before: State, s: State, left: seq<nat>)
    requires Sound(before) && Rejected(before, s, left) && InBounds(s) && Enabled(s, Visit)
    requires Eligible(s, s.ready[s.pass.value.idx])
    ensures Rejected(before, VisitNext(s), left + [s.ready[s.pass.value.idx]])
  {
    hide RemoveAt, Held, HeldBefore, NoDuplicates, Increasing;
    var t, n := VisitNext(s), s.pass.value.idx;
    var c := s.ready[n];
    assert c in s.ready;
    RejectedInBounds(before, s, left);
    RemoveAtMembers(s.ready, n);
    RemoveAtLength(s.ready, n);
    EligibleBefore(before, s, left, c);
    LeftGrows(before, left, c);
    forall k | 0 <= k < |before.counters|
      ensures t.counters[k] == before.counters[k] + HeldBefore(before, left + [c], k)
    {
    }
    assert before.running + left + [c] == before.running + (left + [c]);
  }

  lemma RemoveAtLength(s: seq<nat>, n: nat)
    requires n < |s|
    ensures |RemoveAt(s, n)| == |s| - 1
  {
  }

  lemma LeftGrows(before: State, left: seq<nat>, c: nat)
    requires Sound(before) && NoDuplicates(left) && c !in left && c < |before.calls|
    requires forall i :: 0 <= i < |left| ==> left[i] < |before.calls|
    ensures NoDuplicates(left + [c])
    ensures forall k :: HeldBefore(before, left + [c], k)
                        == HeldBefore(before, left, k) + (if before.calls[c].counter == k then 1 else 0)
  {
    forall k: nat
      ensures HeldBefore(before, left + [c], k)
           == HeldBefore(before, left, k) + (if before.calls[c].counter == k then 1 else 0)
    {
      HeldSnoc(before.calls, left, c, k);
    }
  }

  lemma {:induction false} RemoveFirstMiddle(a: seq<nat>, c: nat, b: seq<nat>)
    requires c !in a
    ensures RemoveFirst(a + [c] + b, c) == a + b
  {
    var s := a + [c] + b;
    if a == [] {
      assert s[1..] == b;
      assert a + b == b;
    } else {
      assert s[1..] == a[1..] + [c] + b;
      RemoveFirstMiddle(a[1..], c, b);
      assert [a[0]] + (a[1..] + b) == a + b;
    }
  }

  /** The first of the promoted calls is told that it was rejected, and finishes. */
  function Finish(s: State, c: nat): (r: State)
    requires InBounds(s) && c < |s.calls|
  {
    var k := s.calls[c].counter;
    s.(calls := s.calls[c := s.calls[c].(phase := Removed, callbacks := s.calls[c].callbacks + 1)],
       counters := s.counters[k := s.counters[k] - 1], running := RemoveFirst(s.running, c))
  }

  lemma FinishRejects(before: State, s: State, left: seq<nat>)
    requires Sound(before) && Rejected(before, s, left) && left != [] && InBounds(s) && left[0] < |s.calls|
    ensures Rejected(before, Finish(s, left[0]), left[1..])
  {
    hide Held, HeldBefore, Increasing, RemoveFirst;
    RejectedInBounds(before, s, left);
    var c := left[0];
    var t, rest := Finish(s, c), left[1..];
    assert c in before.ready && c !in before.running && c !in rest;
    assert left == [c] + rest;
    assert before.running + left == before.running + [c] + rest;
    RemoveFirstMiddle(before.running, c, rest);
    forall k | 0 <= k < |before.counters|
      ensures t.counters[k] == before.counters[k] + HeldBefore(before, rest, k)
    {
      HeldCons(before, left, k);
    }
  }

  /** Rejections compose: a nested `promoteAndExecute` only rejects calls that were eligible already. */
  lemma RejectedTwice(before: State, s: State, t: State, left: seq<nat>)
    requires Sound(before) && Rejected(before, s, left) && Sound(s) && Rejected(s, t, [])
    ensures Rejected(before, t, left)
  {
    hide Held, HeldBefore, Increasing, NoDuplicates;
    forall c | c in before.ready && c !in t.ready && c in s.ready
      ensures c < |before.calls| && Eligible(before, c)
    {
      EligibleBefore(before, s, left, c);
    }
    forall k | 0 <= k < |before.counters|
      ensures t.counters[k] == before.counters[k] + HeldBefore(before, left, k)
    {
      HeldEmpty(s, k);
    }
    forall c | 0 <= c < |before.calls|
      ensures t.calls[c] == Fate(before, t, left, c)
    {
      assert t.calls[c] == Fate(s, t, [], c);
    }
    assert s.running + [] == s.running;
  }

  /** Every eligible ready call has been rejected, and nothing else has changed. */
  ghost predicate AllRejected(before: State, after: State)
    requires Sound(before)
  {
    Rejected(before, after, []) && forall c :: c in after.ready ==> c < |before.calls| && !Eligible(before, c)
  }

  lemma NestedAll(before: State, s: State, t: State, left: seq<nat>)
    requires Sound(before) && Rejected(before, s, left) && Sound(s) && AllRejected(s, t)
    ensures Rejected(before, t, left)
    ensures left == [] ==> AllRejected(before, t)
    ensures |t.ready| <= |s.ready|
  {
    hide Held, HeldBefore, Increasing, NoDuplicates;
    RejectedTwice(before, s, t, left);
    forall c | left == [] && c in t.ready
      ensures c < |before.calls| && !Eligible(before, c)
    {
      EligibleBefore(before, s, left, c);
    }
  }

  // ---------------------------------------------------------------- the object

  lemma VisitKeepsSkipped(s: State)
    requires InBounds(s) && Enabled(s, Visit)
    requires forall i :: 0 <= i < s.pass.value.idx ==> !Eligible(s, s.ready[i])
    ensures var t := VisitNext(s);
            && InBounds(t) && t.pass.Some? && t.pass.value.idx <= |t.ready|
            && forall i :: 0 <= i < t.pass.value.idx ==> !Eligible(t, t.ready[i])
  {
    VisitInBounds(s);
    var t := VisitNext(s);
    assert forall i :: 0 <= i < s.pass.value.idx ==> t.ready[i] == s.ready[i];
  }

  lemma PassIrrelevant(before: State, s: State, t: State, left: seq<nat>)
    requires Sound(before) && Rejected(before, s, left) && t == s.(pass := t.pass)
    ensures Rejected(before, t, left)
  {
  }

  class DispatcherState {
    var calls: seq<Call>
    var counters: seq<int>
    var ready: seq<nat>
    var running: seq<nat>
    var sync: seq<nat>
    var maxRequests: int
    var maxRequestsPerHost: int
    var idleFirings: nat // calls of the idle callback
    ghost var rest: State // what the state machine records beyond the object's fields

    ghost function View(): (s: State)
      reads this
    {
      rest.(calls := calls, counters := counters, ready := ready, running := running, sync := sync,
            maxRequests := maxRequests, maxPerHost := maxRequestsPerHost, idleFirings := idleFirings)
    }

    /** `findExistingCallWithHost`. */
    method FindExistingCallWithHost(host: string) returns (r: Option<nat>)
      requires InBounds(View())
      ensures r == FindExisting(calls, running, ready, host)
    {
      r := FindIn(running, host);
      if r.None? {
        r := FindIn(ready, host);
      }
    }

    method FindIn(ids: seq<nat>, host: string) returns (r: Option<nat>)
      requires forall i :: 0 <= i < |ids| ==> ids[i] < |calls|
      ensures r == FirstWithHost(calls, ids, host)
    {
      for n := 0 to |ids|
        invariant FirstWithHost(calls, ids, host) == FirstWithHost(calls, ids[n..], host)
      {
        assert ids[n..][1..] == ids[n + 1..];
        if calls[ids[n]].host == host {
          return Some(ids[n]);
        }
      }
      return None;
    }

    /** The critical section of `enqueue`, entered from `RealCall.enqueue` after its `executed` test. */
    method EnqueueCall(request: nat, host: string, webSocket: bool)
      requires InBounds(View()) && request !in rest.executed
      modifies this
      ensures View() == EnqueueNext(old(View()), request, host, webSocket)
    {
      hide FindExisting;
      ghost var was := View();
      var id := |calls|;
      calls := calls + [Call(request, host, webSocket, id, Ready, 0)];
      counters := counters + [0];
      ready := ready + [id];
      if !webSocket {
        var existing := FindExistingCallWithHost(host);
        if existing.Some? {
          calls := calls[id := calls[id].(counter := calls[existing.value].counter)];
        }
      }
      rest := rest.(executed := rest.executed + {request}, owed := rest.owed + 1);
      assert calls == EnqueueNext(was, request, host, webSocket).calls;
    }

    /** One turn of the promote loop. */
    method VisitOne(i: nat) returns (next: nat, chosen: seq<nat>)
      requires InBounds(View()) && Enabled(View(), Visit) && View().pass.value.idx == i
      modifies this`calls, this`counters, this`ready, this`running, this`rest
      ensures View() == VisitNext(old(View())) && next == View().pass.value.idx
      ensures var c := old(ready)[i];
              chosen == if Eligible(old(View()), c) then [c] else []
      ensures |ready| + |chosen| == |old(ready)|
    {
      var c := ready[i];
      next, chosen := i, [];
      if |running| >= maxRequests {
        next := |ready|;
      } else if counters[calls[c].counter] >= maxRequestsPerHost {
        next := i + 1;
      } else {
        var k := calls[c].counter;
        ready := ready[..i] + ready[i + 1..];
        counters := counters[k := counters[k] + 1];
        chosen := [c];
        running := running + [c];
        calls := calls[c := calls[c].(phase := Promoted)];
        rest := rest.(promoted := rest.promoted + [c]);
      }
      rest := rest.(pass := Some(rest.pass.value.(idx := next)));
    }

    /** The critical section of `promoteAndExecute`: the loop over the ready deque. No call that could
        run is left behind. */
    method PromotePass(ghost fromFinish: bool) returns (executable: seq<nat>, isRunning: bool)
      requires Sound(View()) && rest.pass == None
      modifies this`calls, this`counters, this`ready, this`running, this`rest
      ensures Sound(View()) && Rejected(old(View()), View(), executable) && |ready| + |executable| == |old(ready)|
      ensures View() == FullPass(old(View()).(pass := Some(Pass(0, fromFinish)))).(pass := None)
      ensures isRunning == (|running| + |sync| > 0)
      ensures forall c :: c in ready ==> !Eligible(View(), c)
    {
      executable := [];
      ghost var before := View();
      rest := rest.(pass := Some(Pass(0, fromFinish)));
      ghost var s := View();
      var i := 0;
      assert NoneSkipped(s);
      hide VisitNext, FullPass, Rejected, NoneSkipped;
      RejectedNone(before);
      PassIrrelevant(before, before, s, []);
      while i < |ready|
        invariant InBounds(View()) && rest.pass.Some? && rest.pass.value.idx == i <= |ready|
        invariant FullPass(View()) == FullPass(s) && Rejected(before, View(), executable)
        invariant NoneSkipped(View())
        invariant |ready| + |executable| == |before.ready|
        decreases |ready| - i
      {
        Turn(before, View(), executable);
        var chosen;
        i, chosen := VisitOne(i);
        executable := executable + chosen;
      }
      FullPassEnd(View());
      PassComplete(View());
      isRunning := |running| + |sync| > 0;
      ghost var last := View();
      rest := rest.(pass := None);
      PassIrrelevant(before, last, View(), executable);
      RejectedInBounds(before, View(), executable);
    }

    /** `AsyncCall.executeOn` with an executor that rejects the call: one `onFailure`, then `finished`. */
    method ExecuteOn(c: nat)
      requires Sound(View()) && rest.pass == None && c in running && c !in ready
      modifies this
      ensures c < |old(calls)|
      ensures Sound(View()) && rest.pass == None
      ensures Sound(Finish(old(View()), c)) && AllRejected(Finish(old(View()), c), View())
      ensures idleFirings == old(idleFirings) + if Quiet(Finish(old(View()), c)) then 1 else 0
      decreases |ready|, 2
    {
      hide AllRejected;
      ghost var was := View();
      calls := calls[c := calls[c].(phase := Signalled, callbacks := calls[c].callbacks + 1)];
      Finished(c, was);
    }

    /** `finished(AsyncCall)`: decrement, then remove under the lock, then promote again. If the removal
        leaves nothing running, the idle callback fires once, here or in a nested call, and else never. */
    method Finished(c: nat, ghost was: State)
      requires Sound(was) && rest.pass == None && c in was.running && c !in was.ready && c < |was.calls|
      requires View()
            == was.(calls := was.calls[c := was.calls[c].(phase := Signalled, callbacks := was.calls[c].callbacks + 1)])
      modifies this
      ensures Sound(View()) && rest.pass == None
      ensures Sound(Finish(was, c)) && AllRejected(Finish(was, c), View())
      ensures idleFirings == was.idleFirings + if Quiet(Finish(was, c)) then 1 else 0
      decreases |ready|, 1
    {
      hide AllRejected;
      var k := calls[c].counter;
      counters := counters[k := counters[k] - 1];
      assert c in running; // else AssertionError("Call wasn't in-flight!")
      running := RemoveFirst(running, c);
      calls := calls[c := calls[c].(phase := Removed)];
      FinishSound(was, c);
      assert View() == Finish(was, c);
      var isRunning := PromoteAndReject();
      ghost var promoted := View();
      if !isRunning {
        idleFirings := idleFirings + 1;
        IdleIrrelevant(Finish(was, c), promoted, View());
      }
    }

    /** `promoteAndExecute` with an executor that rejects every call. It ends, although each rejection
        promotes again; it rejects exactly the ready calls that were eligible, once each, and leaves
        the counters, the running deque and every other call as they were. The idle callback fires
        once if it rejected something while nothing else was running, and else never. */
    method PromoteAndReject() returns (isRunning: bool)
      requires Sound(View()) && rest.pass == None
      modifies this
      ensures Sound(View()) && rest.pass == None
      ensures AllRejected(old(View()), View())
      ensures isRunning <==> !Quiet(old(View())) || |ready| < |old(ready)|
      ensures idleFirings == old(idleFirings) + if Quiet(old(View())) && |ready| < |old(ready)| then 1 else 0
      decreases |ready|, 0
    {
      hide Rejected, FullPass, Finish, Increasing, NoDuplicates, Quiet;
      ghost var before := View();
      var executable;
      executable, isRunning := PromotePass(true);
      RunningAfterPass(before, View(), executable);
      if executable == [] {
        NothingPromoted(before, View());
      }
      assert executable[0..] == executable;
      for n := 0 to |executable|
        invariant Sound(View()) && rest.pass == None && |ready| + |executable| <= |before.ready|
        invariant Rejected(before, View(), executable[n..])
        invariant n == |executable| ==> AllRejected(before, View())
        invariant n == |executable| == 0 ==> |ready| == |before.ready|
        invariant idleFirings == before.idleFirings + if 0 < n == |executable| && Quiet(before) then 1 else 0
      {
        ghost var s, left := View(), executable[n..];
        assert left[1..] == executable[n + 1..] && left[0] == executable[n];
        NextRejectable(before, s, left);
        QuietAgain(before, Finish(s, left[0]), left[1..]);
        ExecuteOn(executable[n]);
        NestedAll(before, Finish(s, executable[n]), View(), left[1..]);
      }
    }
  }

  lemma IdleIrrelevant(before: State, s: State, t: State)
    requires Sound(before) && AllRejected(before, s) && Sound(s) && t == s.(idleFirings := t.idleFirings)
    ensures AllRejected(before, t) && Sound(t)
  {
    hide Held, HeldBefore, Increasing, NoDuplicates;
  }

  /** No async and no sync call is running. */
  predicate Quiet(s: State) { s.running == [] && s.sync == [] }

  lemma RunningAfterPass(before: State, s: State, left: seq<nat>)
    requires Sound(before) && Rejected(before, s, left)
    ensures |s.running| + |s.sync| > 0 <==> !Quiet(before) || left != []
  {
    hide Held, HeldBefore, Increasing, NoDuplicates;
  }

  lemma QuietAgain(before: State, s: State, left: seq<nat>)
    requires Sound(before) && Rejected(before, s, left)
    ensures Quiet(s) <==> Quiet(before) && left == []
  {
    hide Held, HeldBefore, Increasing, NoDuplicates;
  }

  lemma SkipRejects(before: State, s: State, left: seq<nat>)
    requires Sound(before) && Rejected(before, s, left) && InBounds(s) && Enabled(s, Visit)
    requires !Eligible(s, s.ready[s.pass.value.idx])
    ensures Rejected(before, VisitNext(s), left + [])
  {
    hide Rejected;
    assert left + [] == left;
    PassIrrelevant(before, s, VisitNext(s), left);
  }

  /** Every call that the pass has gone by could not run. */
  predicate NoneSkipped(s: State)
    requires InBounds(s) && s.pass.Some? && s.pass.value.idx <= |s.ready|
  {
    forall j :: 0 <= j < s.pass.value.idx ==> !Eligible(s, s.ready[j])
  }

  lemma PassComplete(s: State)
    requires InBounds(s) && s.pass.Some? && s.pass.value.idx == |s.ready| && NoneSkipped(s)
    ensures forall c :: c in s.ready ==> !Eligible(s, c)
  {
  }

  /** What one turn of the loop keeps. */
  lemma Turn(before: State, s: State, left: seq<nat>)
    requires Sound(before) && Rejected(before, s, left) && InBounds(s) && Enabled(s, Visit) && NoneSkipped(s)
    ensures var t, c := VisitNext(s), s.ready[s.pass.value.idx];
            && InBounds(t) && t.pass.Some? && t.pass.value.idx <= |t.ready|
            && |t.ready| - t.pass.value.idx < |s.ready| - s.pass.value.idx
            && FullPass(t) == FullPass(s)
            && Rejected(before, t, left + if Eligible(s, c) then [c] else []) && NoneSkipped(t)
  {
    FullPassStep(s);
    VisitKeepsSkipped(s);
    hide VisitNext, FullPass, Rejected;
    if Eligible(s, s.ready[s.pass.value.idx]) {
      VisitRejects(before, s, left);
    } else {
      SkipRejects(before, s, left);
    }
  }

  lemma FinishSound(s: State, c: nat)
    requires Sound(s) && c in s.running && c !in s.ready && c < |s.calls|
    ensures Sound(Finish(s, c))
  {
    hide RemoveFirst;
    RemoveFirstMembers(s.running, c);
    RemoveFirstBounds(s.running, c, |s.calls|);
  }

  lemma NothingPromoted(before: State, s: State)
    requires Sound(before) && Sound(s) && Rejected(before, s, [])
    requires forall c :: c in s.ready ==> c < |s.calls| && !Eligible(s, c)
    ensures AllRejected(before, s)
  {
  }

  lemma NextRejectable(before: State, s: State, left: seq<nat>)
    requires Sound(before) && Sound(s) && Rejected(before, s, left) && left != []
    ensures left[0] in s.running && left[0] !in s.ready && |s.ready| < |before.ready| && left[0] < |s.calls|
    ensures Rejected(before, Finish(s, left[0]), left[1..]) && Finish(s, left[0]).ready == s.ready
  {
    assert Finish(s, left[0]).ready == s.ready by { RejectedInBounds(before, s, left); }
    hide HeldBefore, Increasing, NoDuplicates, Finish;
    RejectedInBounds(before, s, left);
    assert s.running[|before.running|] == left[0];
    FinishRejects(before, s, left);
  }
}
