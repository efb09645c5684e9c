/** `Looper`: a mailbox of linked messages, guarded by one semaphore and counted by another. First the
    linked list as it is; then posters and worker, interleaved step by step. */
module Looper {
  import opened Text

  // ---------------------------------------------------------------- the linked list

  class Message {
    const what: int
    const quit: bool
    var next: Message?

    constructor (what: int, quit: bool)
      ensures this.what == what && this.quit == quit && next == null
    {
      this.what, this.quit, this.next := what, quit, null;
    }
  }

  class Mailbox {
    var head: Message?
    ghost var messages: seq<Message>

    ghost predicate Valid()
      reads this, messages
    {
      && (forall i, j :: 0 <= i < j < |messages| ==> messages[i] != messages[j])
      && (messages == [] <==> head == null)
      && (messages != [] ==> head == messages[0] && messages[|messages| - 1].next == null)
      && (forall i :: 0 <= i < |messages| - 1 ==> messages[i].next == messages[i + 1])
    }

    /** The list holds, place by place, the messages that the state machine has in its list. */
    ghost predicate Mirrors(s: State)
      reads this
    {
      && |messages| == |s.list|
      && forall i :: 0 <= i < |messages| ==> s.list[i] < |s.quits| && messages[i].quit == s.quits[s.list[i]]
    }

    constructor ()
      ensures Valid() && messages == [] && Mirrors(INITIAL)
    {
      head, messages := null, [];
    }

    /** The body of `addMessage` between the two uses of `headWriteProtect`. */
    method AddMessage(msg: Message, flush: bool, ghost s: State) returns (deleted: seq<Message>)
      requires Valid() && Mirrors(s) && msg !in messages && msg.next == null
      modifies this, messages
      ensures Valid()
      ensures messages == if flush then [msg] else old(messages) + [msg]
      ensures deleted == if flush then old(messages) else []
      ensures Mirrors(Next(s, Link(msg.quit, flush)))
    {
      var h := head;
      deleted := [];
      if flush {
        ghost var i := 0;
        while h != null
          invariant 0 <= i <= |messages| && deleted == messages[..i] && messages == old(messages) && Valid()
          invariant h == if i < |messages| then messages[i] else null
          decreases |messages| - i
        {
          var next := h.next;
          deleted := deleted + [h];
          h := next;
          i := i + 1;
        }
        h := null;
      }
      if h != null {
        ghost var i := 0;
        while h.next != null
          invariant 0 <= i < |messages| && h == messages[i] && messages == old(messages) && Valid()
          invariant i + 1 < |messages| ==> h.next == messages[i + 1]
          decreases |messages| - i
        {
          h := h.next;
          i := i + 1;
        }
        h.next := msg;
        messages := messages + [msg];
      } else {
        head := msg;
        messages := [msg];
      }
    }

    /** The body of the worker's loop between the two uses of `headWriteProtect`. */
    method TakeMessage(ghost s: State) returns (msg: Message?)
      requires Valid() && Mirrors(s) && Enabled(s, Take)
      modifies this
      ensures Valid()
      ensures msg == null <==> old(messages) == []
      ensures msg == null ==> messages == []
      ensures msg != null ==> old(messages) == [msg] + messages && msg !in messages
      ensures Mirrors(Next(s, Take))
      ensures msg == null <==> Next(s, Take).worker == Waiting
      ensures msg != null ==> Next(s, Take).worker.Handling? && msg.quit == s.quits[Next(s, Take).worker.id]
    {
      msg := head;
      if msg == null {
        return;
      }
      if |messages| > 1 {
        assert msg.next == messages[1];
      }
      head := msg.next;
      messages := messages[1..];
    }
  }

  // ---------------------------------------------------------------- posters and worker

  datatype Worker = Waiting | HasToken | Handling(id: nat) | Exited

  /** Messages are named in the order in which they are linked. */
  datatype State = State(
    quits: seq<bool>,       // for each message linked so far, whether it asks the worker to quit
    list: seq<nat>,
    tokens: nat,            // the value of `headDataAvailable`
    owed: nat,              // posters that have linked a message and not posted its token yet
    worker: Worker,
    processed: seq<nat>,    // taken by the worker, dealt with and deleted
    flushed: seq<nat>)      // deleted by a flush

  const INITIAL := State([], [], 0, 0, Waiting, [], [])

  datatype Step = Link(quit: bool, flush: bool) | Post | Wait | Take | Finish

  predicate Enabled(s: State, step: Step)
  {
    match step
    case Link(_, _) => true
    case Post => s.owed > 0
    case Wait => s.worker == Waiting && s.tokens > 0
    case Take => s.worker == HasToken
    case Finish => s.worker.Handling? && s.worker.id < |s.quits|
  }

  function Next(s: State, step: Step): (r: State)
    requires Enabled(s, step)
  {
    match step
    case Link(quit, flush) =>
      var id := |s.quits|;
      if flush then s.(quits := s.quits + [quit], list := [id], flushed := s.flushed + s.list, owed := s.owed + 1)
      else s.(quits := s.quits + [quit], list := s.list + [id], owed := s.owed + 1)
    case Post => s.(owed := s.owed - 1, tokens := s.tokens + 1)
    case Wait => s.(tokens := s.tokens - 1, worker := HasToken)
    case Take =>
      if s.list == [] then s.(worker := Waiting) else s.(list := s.list[1..], worker := Handling(s.list[0]))
    case Finish =>
      s.(processed := s.processed + [s.worker.id], worker := if s.quits[s.worker.id] then Exited else Waiting)
  }

  // ---------------------------------------------------------------- the invariant

  /** No more messages than tokens that are there, owed, or in the worker's hand. */
  predicate TokensCover(s: State)
  {
    |s.list| <= s.tokens + s.owed + if s.worker == HasToken then 1 else 0
  }

  function InHand(s: State): (r: seq<nat>) { if s.worker.Handling? then [s.worker.id] else [] }

  /** Everything the worker has dealt with, is dealing with, and will deal with, in that order. */
  function Line(s: State): (r: seq<nat>) { s.processed + InHand(s) + s.list }

  predicate Ordered(s: State)
  {
    var line := Line(s);
    && (forall i :: 0 <= i < |line| ==> line[i] < |s.quits|)
    && (forall i, j :: 0 <= i < j < |line| ==> line[i] < line[j])
  }

  /** Every message linked is in the line or flushed, not both, and was flushed at most once. */
  predicate Accounted(s: State)
  {
    && (forall x :: 0 <= x < |s.quits| ==> (x in Line(s) <==> x !in s.flushed))
    && (forall i :: 0 <= i < |s.flushed| ==> s.flushed[i] < |s.quits|)
    && (forall i, j :: 0 <= i < j < |s.flushed| ==> s.flushed[i] != s.flushed[j])
  }

  /** The worker has exited exactly when the last message it dealt with was a quit message. */
  predicate QuitLast(s: State)
  {
    && (forall i :: 0 <= i < |s.processed| ==> s.processed[i] < |s.quits|)
    && (forall i :: 0 <= i < |s.processed| - 1 ==> !s.quits[s.processed[i]])
    && (s.worker == Exited <==> s.processed != [] && s.quits[s.processed[|s.processed| - 1]])
  }

  predicate Inv(s: State) { TokensCover(s) && Ordered(s) && Accounted(s) && QuitLast(s) }

  lemma AppendInv(s: State, quit: bool)
    requires Inv(s)
    ensures Inv(Next(s, Link(quit, false)))
  {
    var t, line := Next(s, Link(quit, false)), Line(s);
    assert Line(t) == line + [|s.quits|];
    assert forall x :: x in Line(t) <==> x in line || x == |s.quits|;
    assert forall x :: x in s.flushed ==> x < |s.quits|;
  }

  lemma FlushInv(s: State, quit: bool)
    requires Inv(s)
    ensures Inv(Next(s, Link(quit, true)))
  {
    var t := Next(s, Link(quit, true));
    var line, front := Line(s), s.processed + InHand(s);
    assert line == front + s.list && Line(t) == front + [|s.quits|];
    assert Ordered(t) by {
      assert forall i :: 0 <= i < |front| ==> front[i] == line[i];
    }
    FlushDisjoint(s);
    FlushAccounted(s, t, front);
  }

  lemma FlushAccounted(s: State, t: State, front: seq<nat>)
    requires Accounted(s) && Line(s) == front + s.list && Line(t) == front + [|s.quits|]
    requires t.flushed == s.flushed + s.list && |t.quits| == |s.quits| + 1
    requires forall i :: 0 <= i < |s.list| ==> s.list[i] !in s.flushed && s.list[i] !in front && s.list[i] < |s.quits|
    requires forall i, j :: 0 <= i < j < |s.list| ==> s.list[i] != s.list[j]
    ensures Accounted(t)
  {
  }

  lemma FlushDisjoint(s: State)
    requires Inv(s)
    ensures forall i :: 0 <= i < |s.list| ==> s.list[i] !in s.flushed && s.list[i] !in s.processed + InHand(s)
    ensures forall i :: 0 <= i < |s.list| ==> s.list[i] < |s.quits|
    ensures forall i, j :: 0 <= i < j < |s.list| ==> s.list[i] != s.list[j]
  {
    var n := |s.processed + InHand(s)|;
    assert forall i :: 0 <= i < |s.list| ==> s.list[i] == Line(s)[n + i];
    assert forall i :: 0 <= i < n ==> (s.processed + InHand(s))[i] == Line(s)[i];
  }

  lemma WorkerInv(s: State, step: Step)
    requires Inv(s) && Enabled(s, step) && !step.Link?
    ensures Inv(Next(s, step))
  {
    var t := Next(s, step);
    if step.Take? && s.list != [] {
      assert s.list == [s.list[0]] + s.list[1..];
      assert Line(t) == Line(s);
    } else {
      assert Line(t) == Line(s);
    }
  }

  lemma NextInv(s: State, step: Step)
    requires Inv(s) && Enabled(s, step)
    ensures Inv(Next(s, step))
  {
    hide Inv, Next;
    if step.Link? {
      if step.flush {
        FlushInv(s, step.quit);
      } else {
        AppendInv(s, step.quit);
      }
    } else {
      WorkerInv(s, step);
    }
  }

  // ---------------------------------------------------------------- every run

  /** The state after a sequence of steps; `None` when a step is not possible. */
  function Run(steps: seq<Step>): (r: Option<State>)
    ensures r.Some? ==> Inv(r.value)
  {
    if steps == [] then Some(INITIAL)
    else
      var before := Run(steps[..|steps| - 1]);
      if before.None? || !Enabled(before.value, steps[|steps| - 1]) then None
      else
        NextInv(before.value, steps[|steps| - 1]);
        Some(Next(before.value, steps[|steps| - 1]))
  }

  /** In every interleaving the list is no longer than the tokens available, owed and in hand; so a
      message that waits while the worker waits and no post is owed has a token to wake it. */
  lemma NoLostWakeup(steps: seq<Step>)
    requires Run(steps).Some?
    ensures var s := Run(steps).value;
            && |s.list| <= s.tokens + s.owed + (if s.worker == HasToken then 1 else 0)
            && (s.list != [] && s.owed == 0 && s.worker == Waiting ==> Enabled(s, Wait))
  {
  }

  /** How often, in a run, the worker has found the list empty. */
  function FoundEmpty(steps: seq<Step>): (n: nat)
    requires Run(steps).Some?
  {
    if steps == [] then 0
    else
      var init, last := steps[..|steps| - 1], steps[|steps| - 1];
      FoundEmpty(init) + if last.Take? && Run(init).value.list == [] then 1 else 0
  }

  /** The balance of the semaphore in every interleaving: what is available, owed and in hand, and what was
      spent on an empty list, is one token for each message that waits or was flushed. So the worker wakes
      in vain at most once for each flushed message. */
  lemma {:induction false} TokensBalance(steps: seq<Step>)
    requires Run(steps).Some?
    ensures var s := Run(steps).value;
            && s.tokens + s.owed + (if s.worker == HasToken then 1 else 0) + FoundEmpty(steps)
               == |s.list| + |s.flushed|
            && FoundEmpty(steps) <= |s.flushed|
  {
    hide Ordered, Accounted, QuitLast;
    if steps != [] {
      TokensBalance(steps[..|steps| - 1]);
    }
  }

  /** In every interleaving messages are dealt with in the order they were linked, each at most once;
      one that is deleted (after being dealt with, or by a flush) is deleted once, and is no longer
      in the list or in the worker's hand. */
  lemma InLinkOrder(steps: seq<Step>, i: nat, j: nat)
    requires Run(steps).Some?
    ensures var s := Run(steps).value;
            && (i < j < |s.processed| ==> s.processed[i] < s.processed[j])
            && (i < |s.processed| ==>
                 s.processed[i] !in s.flushed && s.processed[i] !in s.list && s.processed[i] !in InHand(s))
            && (i < j < |s.flushed| ==> s.flushed[i] != s.flushed[j])
            && (i < |s.flushed| ==> s.flushed[i] !in s.list && s.flushed[i] !in InHand(s))
  {
    hide Run, TokensCover, QuitLast;
    var s := Run(steps).value;
    var line, p, h := Line(s), |s.processed|, |InHand(s)|;
    assert forall k :: 0 <= k < p ==> line[k] == s.processed[k];
    assert forall k :: 0 <= k < h ==> line[p + k] == InHand(s)[k];
    assert forall k :: 0 <= k < |s.list| ==> line[p + h + k] == s.list[k];
    hide Line;
    assert forall x :: x in s.list || x in InHand(s) || x in s.processed ==> x in line && x !in s.flushed;
    if i < p {
      assert s.processed[i] in s.processed;
    }
    if i < |s.flushed| {
      assert s.flushed[i] in s.flushed;
    }
  }

  /** A message is passed over only by a flush: any that was linked before one that has been dealt with
      has itself been dealt with or was flushed. Once the worker has quit, what is left in the list is
      behind the quit message. */
  lemma SkippedOnly(steps: seq<Step>, x: nat)
    requires Run(steps).Some? && x < |Run(steps).value.quits|
    ensures var s := Run(steps).value;
            && (x in s.processed || x in s.flushed || x in InHand(s) || x in s.list)
            && (s.processed != [] && x < s.processed[|s.processed| - 1] ==> x in s.processed || x in s.flushed)
            && (s.worker == Exited ==> s.quits[s.processed[|s.processed| - 1]])
            && (s.worker == Exited && x in s.list ==> x > s.processed[|s.processed| - 1])
            && (forall i :: 0 <= i < |s.processed| - 1 ==> !s.quits[s.processed[i]])
  {
    hide Run, TokensCover;
    var s := Run(steps).value;
    var line, p, h := Line(s), |s.processed|, |InHand(s)|;
    assert forall k :: 0 <= k < p ==> line[k] == s.processed[k];
    assert forall k :: 0 <= k < h ==> line[p + k] == InHand(s)[k];
    assert forall k :: 0 <= k < |s.list| ==> line[p + h + k] == s.list[k];
    assert x in line <==> x in s.processed || x in InHand(s) || x in s.list;
  }

  /** What has been dealt with stays so: deliveries only ever add to the end. */
  lemma DeliveriesGrow(s: State, step: Step)
    requires Enabled(s, step)
    ensures s.processed <= Next(s, step).processed && s.flushed <= Next(s, step).flushed
    ensures s.worker == Exited ==> Next(s, step).worker == Exited && Next(s, step).processed == s.processed
  {
  }

  // ---------------------------------------------------------------- quitting

  function Position(list: seq<nat>, q: nat): (n: nat)
    requires q in list
    ensures n < |list| && list[n] == q && q !in list[..n]
  {
    if list[0] == q then 0 else 1 + Position(list[1..], q)
  }

  lemma {:induction false} PositionAppend(list: seq<nat>, x: nat, q: nat)
    requires q in list
    ensures Position(list + [x], q) == Position(list, q)
  {
    if list[0] != q {
      assert (list + [x])[1..] == list[1..] + [x];
      PositionAppend(list[1..], x, q);
    }
  }

  /** Quit message `q` has been linked and neither taken nor flushed, or the worker has it, or the
      worker has exited. */
  predicate Quitting(s: State, q: nat)
  {
    s.worker == Exited || (q < |s.quits| && s.quits[q] && (s.worker == Handling(q) || q in s.list))
  }

  /** How many steps of the worker are left, at most. */
  function StepsLeft(s: State, q: nat): (n: nat)
    requires Quitting(s, q)
  {
    match s.worker
    case Exited => 0
    case Handling(x) => if x == q then 1 else 3 * Position(s.list, q) + 5
    case Waiting => 3 * Position(s.list, q) + 4
    case HasToken => 3 * Position(s.list, q) + 3
  }

  /** While no flush follows a quit message, the worker comes nearer its end with every step it takes,
      posters do not push it back, and it can always take its next step or is owed the token for it. */
  lemma QuitIsReached(s: State, step: Step, q: nat)
    requires Inv(s) && Enabled(s, step) && Quitting(s, q) && !(step.Link? && step.flush)
    ensures Quitting(Next(s, step), q)
    ensures step.Link? || step.Post? ==> StepsLeft(Next(s, step), q) == StepsLeft(s, q)
    ensures step.Wait? || step.Take? || step.Finish? ==> StepsLeft(Next(s, step), q) < StepsLeft(s, q)
    ensures s.worker != Exited ==> Enabled(s, Wait) || Enabled(s, Take) || Enabled(s, Finish) || Enabled(s, Post)
  {
    hide Accounted, QuitLast;
    if s.worker.Handling? {
      assert Line(s)[|s.processed|] == s.worker.id;
    }
    match step
    case Link(_, _) =>
      if s.worker != Exited && s.worker != Handling(q) {
        PositionAppend(s.list, |s.quits|, q);
        assert q in (s.list + [|s.quits|]);
      }
    case Take =>
      assert s.list == [s.list[0]] + s.list[1..];
    case _ =>
  }

  // ---------------------------------------------------------------- runs that follow a quit

  function RunFrom(s: State, steps: seq<Step>): (r: Option<State>)
    decreases |steps|
  {
    if steps == [] then Some(s)
    else if !Enabled(s, steps[0]) then None
    else RunFrom(Next(s, steps[0]), steps[1..])
  }

  predicate IsWorkerStep(step: Step) { step.Wait? || step.Take? || step.Finish? }

  function WorkerSteps(steps: seq<Step>): (n: nat)
  {
    if steps == [] then 0 else (if IsWorkerStep(steps[0]) then 1 else 0) + WorkerSteps(steps[1..])
  }

  /** Once a quit message is linked, and as long as no flush follows, the worker takes at most as many
      steps as are left; when it has taken them all it has exited; and until then it can take the next
      one, or a post that is owed will let it. */
  lemma {:induction false} WorkerEnds(s: State, steps: seq<Step>, q: nat)
    requires Inv(s) && Quitting(s, q) && RunFrom(s, steps).Some?
    requires forall i :: 0 <= i < |steps| && steps[i].Link? ==> !steps[i].flush
    ensures var t := RunFrom(s, steps).value;
            && Quitting(t, q) && WorkerSteps(steps) + StepsLeft(t, q) <= StepsLeft(s, q)
            && (WorkerSteps(steps) == StepsLeft(s, q) ==> t.worker == Exited)
            && (t.worker != Exited ==> Enabled(t, Wait) || Enabled(t, Take) || Enabled(t, Finish) || Enabled(t, Post))
    decreases |steps|
  {
    hide Inv, Quitting, StepsLeft, Next;
    if steps == [] {
      QuitIsReached(s, Link(false, false), q);
      NoStepsLeft(s, q);
    } else {
      NextInv(s, steps[0]);
      QuitIsReached(s, steps[0], q);
      WorkerEnds(Next(s, steps[0]), steps[1..], q);
      NoStepsLeft(RunFrom(s, steps).value, q);
    }
  }

  lemma NoStepsLeft(s: State, q: nat)
    requires Quitting(s, q)
    ensures StepsLeft(s, q) == 0 <==> s.worker == Exited
  {
  }
}
