/** What the audio channel gets done: packets are decoded, frames are played, the frame queue fills up to its
    bound, and every run can still be brought to its end. */
module AudioRuns {
  import opened Text
  import opened MessageQueues
  import opened AudioPipeline

  /** `steps` is a run that ends in `s`. */
  ghost predicate Reaches(steps: seq<Step>, s: State) { Run(steps) == Some(s) }

  lemma Then(steps: seq<Step>, s: State, step: Step) returns (longer: seq<Step>)
    requires Reaches(steps, s) && Enabled(s, step)
    ensures Inv(s) && longer == steps + [step] && Reaches(longer, Next(s, step))
  {
    hide Inv, Enabled, Next;
    longer := steps + [step];
    assert longer[..|steps|] == steps;
  }

  // ---------------------------------------------------------------- sleeping and waking

  /** A thread that has been woken has something to wake for: an item, or a queue that is off. */
  predicate WokenForCause(s: State)
  {
    && (s.decoder == Sleeping && !s.packets.asleep ==> s.packets.items != [] || !s.packets.working)
    && (s.player == PcmSleeping && !s.frames.asleep ==> s.frames.items != [] || !s.frames.working)
  }

  lemma WokenStep(s: State, step: Step)
    requires Inv(s) && Enabled(s, step) && WokenForCause(s)
    ensures WokenForCause(Next(s, step))
  {
    hide Conserved, Fifo;
  }

  /** In every interleaving, a thread in `pop` sleeps on exactly while its queue works and is empty. */
  lemma {:induction false} SleepsExactly(steps: seq<Step>)
    requires Run(steps).Some?
    ensures var s := Run(steps).value;
            && WokenForCause(s)
            && (s.decoder == Sleeping ==> (s.packets.asleep <==> s.packets.working && s.packets.items == []))
            && (s.player == PcmSleeping ==> (s.frames.asleep <==> s.frames.working && s.frames.items == []))
  {
    hide Next, Enabled, Run, Conserved, Fifo, Flags, DecoderOk, PlayerOk;
    if steps == [] {
      Nothing();
    } else {
      RunStep(steps);
      SleepsExactly(steps[..|steps| - 1]);
      WokenStep(Run(steps[..|steps| - 1]).value, steps[|steps| - 1]);
    }
  }

  lemma Nothing()
    ensures Run([]) == Some(INITIAL)
  {
    hide Inv;
  }

  lemma RunStep(steps: seq<Step>)
    requires steps != [] && Run(steps).Some?
    ensures var before, step := Run(steps[..|steps| - 1]), steps[|steps| - 1];
            before.Some? && Enabled(before.value, step) && Run(steps) == Some(Next(before.value, step))
  {
    hide Next, Enabled, Inv;
  }

  // ---------------------------------------------------------------- decoding and playing

  /** Playing, with the decode thread at the head of its loop. */
  predicate AtLoopHead(s: State) { s.control == Started && s.decoder == Testing }

  const DECODE := Decode(true, Frame)

  /** With a packet queued and at most 100 frames, one turn of the decode loop sends the first packet to the
      decoder, releases it, and queues the frame that comes back. */
  lemma DecodesNext(steps: seq<Step>, s: State) returns (longer: seq<Step>, t: State)
    requires Reaches(steps, s) && AtLoopHead(s) && s.packets.items != [] && |s.frames.items| <= 100
    ensures longer == steps + [DECODE, DECODE, DECODE, DECODE, DECODE, DECODE, DECODE]
    ensures Reaches(longer, t) && AtLoopHead(t) && t.player == s.player
    ensures t.packets.items == s.packets.items[1..]
    ensures t.packets.released == s.packets.released + [s.packets.items[0]]
    ensures t.frames.items == s.frames.items + [s.frames.made] && t.packets.offered == s.packets.offered
  {
    hide Run, Conserved, Fifo, SleepsForCause;
    longer := Then(steps, s, DECODE);
    longer := Then(longer, Next(s, DECODE), DECODE);
    var popping := Next(Next(s, DECODE), DECODE);
    longer := Then(longer, popping, DECODE);
    var popped := Next(popping, DECODE);
    longer := Then(longer, popped, DECODE);
    var sending := Next(popped, DECODE);
    longer := Then(longer, sending, DECODE);
    var receiving := Next(sending, DECODE);
    longer := Then(longer, receiving, DECODE);
    var pushing := Next(receiving, DECODE);
    longer := Then(longer, pushing, DECODE);
    t := Next(pushing, DECODE);
  }

  /** If the decoder has no frame yet, the empty one is released and the loop goes on; on an error it ends. Either
      way the packet is released. */
  lemma NoFrameNext(steps: seq<Step>, s: State, received: Received) returns (longer: seq<Step>, t: State)
    requires Reaches(steps, s) && AtLoopHead(s) && s.packets.items != [] && |s.frames.items| <= 100
    requires received != Frame
    ensures longer == steps + [DECODE, DECODE, DECODE, DECODE, DECODE, Decode(true, received)] && Reaches(longer, t)
    ensures t.decoder == if received == Again then Testing else Leaving
    ensures t.packets.items == s.packets.items[1..] && t.frames.items == s.frames.items
    ensures t.packets.released == s.packets.released + [s.packets.items[0]]
    ensures t.frames.released == s.frames.released + [s.frames.made]
  {
    hide Run, Conserved, Fifo, SleepsForCause;
    longer := Then(steps, s, DECODE);
    longer := Then(longer, Next(s, DECODE), DECODE);
    var popping := Next(Next(s, DECODE), DECODE);
    longer := Then(longer, popping, DECODE);
    var popped := Next(popping, DECODE);
    longer := Then(longer, popped, DECODE);
    var sending := Next(popped, DECODE);
    longer := Then(longer, sending, DECODE);
    var receiving := Next(sending, DECODE);
    longer := Then(longer, receiving, Decode(true, received));
    t := Next(receiving, Decode(true, received));
  }

  /** With more than 100 frames the decode thread leaves the packets alone and looks again. */
  lemma WaitsWhenFull(steps: seq<Step>, s: State) returns (longer: seq<Step>)
    requires Reaches(steps, s) && AtLoopHead(s) && |s.frames.items| > 100
    ensures longer == steps + [DECODE, DECODE] && Reaches(longer, s)
  {
    hide Run, Conserved, Fifo, SleepsForCause;
    longer := Then(steps, s, DECODE);
    longer := Then(longer, Next(s, DECODE), DECODE);
  }

  /** While playing, a callback with a frame queued takes the first one, uses it and releases it. */
  lemma PlaysNext(steps: seq<Step>, s: State) returns (longer: seq<Step>, used: State, t: State)
    requires Reaches(steps, s) && s.control == Started && s.player == Idle && s.frames.items != []
    ensures longer == steps + [Pcm, Pcm, Pcm, Pcm]
    ensures Reaches(longer[..|steps| + 3], used) && used.player == Using && used.frames.held == Some(s.frames.items[0])
    ensures Reaches(longer, t) && t.player == Idle && t.frames.items == s.frames.items[1..]
    ensures t.frames.released == s.frames.released + [s.frames.items[0]]
  {
    hide Run, Conserved, Fifo, SleepsForCause;
    longer := Then(steps, s, Pcm);
    var popping := Next(s, Pcm);
    longer := Then(longer, popping, Pcm);
    var popped := Next(popping, Pcm);
    longer := Then(longer, popped, Pcm);
    used := Next(popped, Pcm);
    longer := Then(longer, used, Pcm);
    assert longer[..|steps| + 3] == steps + [Pcm, Pcm, Pcm];
    t := Next(used, Pcm);
  }

  // ---------------------------------------------------------------- the bound is met

  lemma StartedRun() returns (steps: seq<Step>, s: State)
    ensures Reaches(steps, s) && AtLoopHead(s) && s.player == Idle && s.packets.offered.None?
    ensures s.packets.items == [] && s.frames.items == []
  {
    hide Run, LaneInv;
    Nothing();
    steps := Then([], INITIAL, ControlStep);
    s := Next(INITIAL, ControlStep);
    steps := Then(steps, s, ControlStep);
    s := Next(s, ControlStep);
    steps := Then(steps, s, ControlStep);
    s := Next(s, ControlStep);
    steps := Then(steps, s, ControlStep);
    s := Next(s, ControlStep);
  }

  lemma OnePacket(steps: seq<Step>, s: State) returns (longer: seq<Step>, t: State)
    requires Reaches(steps, s) && AtLoopHead(s) && s.packets.offered.None?
    ensures Reaches(longer, t) && AtLoopHead(t) && t.packets.offered.None? && t.player == s.player
    ensures t.packets.items == s.packets.items + [s.packets.made] && t.frames == s.frames
  {
    hide Run, Conserved, Fifo, SleepsForCause;
    longer := Then(steps, s, ReadPacket);
    var read := Next(s, ReadPacket);
    longer := Then(longer, read, PushPacket);
    t := Next(read, PushPacket);
  }

  /** Every number of frames up to the bound is reached: 101 frames is the exact bound. */
  lemma {:induction false} FramesReached(n: nat) returns (steps: seq<Step>, s: State)
    requires n <= 101
    ensures Reaches(steps, s) && AtLoopHead(s) && s.player == Idle && |s.frames.items| == n
    ensures s.packets.offered.None? && s.packets.items == []
  {
    hide Run, Inv;
    if n == 0 {
      steps, s := StartedRun();
    } else {
      steps, s := FramesReached(n - 1);
      steps, s := OnePacket(steps, s);
      steps, s := DecodesNext(steps, s);
    }
  }

  /** The bound of `FramesBounded` is met. */
  lemma BoundIsExact()
    ensures exists steps: seq<Step> :: Run(steps).Some? && |Run(steps).value.frames.items| == 101
  {
    hide Run;
    var steps, s := FramesReached(101);
  }

  // ---------------------------------------------------------------- every run can end

  /** How many steps the control thread has left. */
  function ControlLeft(c: Control): (n: nat)
  {
    match c
    case Fresh => 10 case Playing => 9 case PacketsOn => 8 case FramesOn => 7 case Started => 6 case NotPlaying => 5
    case PacketsOff => 4 case FramesOff => 3 case Joined => 2 case FramesCleared => 1 case Cleared => 0
  }

  /** Nobody is ever stuck: every run, wherever its threads are, has a continuation that ends with the destructor
      done. */
  lemma {:induction false} CanEnd(steps: seq<Step>, s: State)
    requires Reaches(steps, s)
    ensures exists longer: seq<Step> ::
              steps <= longer && Run(longer).Some? && Run(longer).value.control == Cleared
    decreases ControlLeft(s.control), DecoderRank(s.decoder), PlayerRank(s.player)
  {
    hide Run, Inv;
    if s.control == Cleared {
      assert steps <= steps;
    } else {
      var step := Forward(s);
      ForwardWorks(steps, s);
      var longer := Then(steps, s, step);
      CanEnd(longer, Next(s, step));
      var end: seq<Step> :| longer <= end && Run(end).Some? && Run(end).value.control == Cleared;
      assert end[..|steps|] == longer[..|steps|] == steps;
    }
  }

  /** While `stop` waits in its joins, let the two threads go on; else let the control thread go on. */
  function Forward(s: State): (step: Step)
  {
    if s.control != FramesOff then ControlStep
    else if s.decoder != Done then DECODE
    else if s.player != Idle then Pcm
    else ControlStep
  }

  lemma ForwardWorks(steps: seq<Step>, s: State)
    requires Reaches(steps, s) && s.control != Cleared
    ensures Inv(s) && Enabled(s, Forward(s))
    ensures var t := Next(s, Forward(s));
            || ControlLeft(t.control) < ControlLeft(s.control)
            || (t.control == s.control && DecoderRank(t.decoder) < DecoderRank(s.decoder))
            || (t.control == s.control && t.decoder == s.decoder && PlayerRank(t.player) < PlayerRank(s.player))
  {
    hide Run, Conserved, Fifo, SleepsForCause;
    if s.control == FramesOff {
      StopEnds(steps, true, Frame);
    }
  }
}
