/** `AudioChannel` as the client of its two queues: the demuxer, the decode thread, the player's
    callback and the thread that calls `start` and `stop`, interleaved step by step. */
module AudioPipeline {
  import opened Text
  import opened MessageQueues

  /** How far `start`, `stop` and the destructor have come. */
  datatype Control =
    Fresh | Playing | PacketsOn | FramesOn | Started | NotPlaying | PacketsOff | FramesOff
    | Joined | FramesCleared | Cleared

  /** Where the decode thread is in `decode`. */
  datatype Decoder =
    Unborn | Testing | Sizing | Popping | Sleeping | After(got: bool) | Sending | Receiving | Pushing | Leaving | Done

  /** Where the callback thread is in `getPcm`. */
  datatype Player = Idle | PcmPopping | PcmSleeping | PcmAfter(got: bool) | Using

  datatype State = State(packets: Lane, frames: Lane,
                       isPlaying: bool, control: Control, decoder: Decoder, player: Player)

  const INITIAL := State(EMPTY, EMPTY, false, Fresh, Unborn, Idle)

  /** What `avcodec_receive_frame` says: a frame, try again, or an error. */
  datatype Received = Frame | Again | Error

  datatype Step =
    | ControlStep
    | ReadPacket | PushPacket
    | Decode(ok: bool, received: Received)
    | Pcm

  // ---------------------------------------------------------------- control

  predicate ControlEnabled(s: State)
  {
    match s.control
    case FramesOff => s.decoder == Done && s.player == Idle // pthread_join, and the player is destroyed
    case Cleared => false
    case _ => true
  }

  function ControlNext(s: State): (r: State)
  {
    match s.control
    case Fresh => s.(isPlaying := true, control := Playing)
    case Playing => s.(packets := SetWorking(s.packets, true), control := PacketsOn)
    case PacketsOn => s.(frames := SetWorking(s.frames, true), control := FramesOn)
    case FramesOn => s.(decoder := Testing, control := Started) // pthread_create
    case Started => s.(isPlaying := false, control := NotPlaying)
    case NotPlaying => s.(packets := SetWorking(s.packets, false), control := PacketsOff)
    case PacketsOff => s.(frames := SetWorking(s.frames, false), control := FramesOff)
    case FramesOff => s.(control := Joined)
    case Joined => s.(frames := Clear(s.frames), control := FramesCleared)
    case FramesCleared => s.(packets := Clear(s.packets), control := Cleared)
    case Cleared => s
  }

  /** The threads exist: from `pthread_create` to `pthread_join`. */
  predicate Alive(c: Control) { c in {Started, NotPlaying, PacketsOff, FramesOff} }

  // ---------------------------------------------------------------- the decode thread

  predicate DecodeEnabled(s: State) { s.decoder != Unborn && s.decoder != Done }

  function DecodeNext(s: State, ok: bool, received: Received): (r: State)
    requires s.decoder == Popping ==> s.packets.held.None?
    requires s.decoder == Sending ==> s.frames.offered.None?
    requires s.decoder == Receiving || s.decoder == Pushing ==> s.frames.offered.Some?
  {
    match s.decoder
    case Unborn => s
    case Testing => s.(decoder := if s.isPlaying then Sizing else Leaving)
    case Sizing => s.(decoder := if s.isPlaying && |s.frames.items| > 100 then Testing else Popping)
    case Popping =>
      s.(packets := TryPop(s.packets),
         decoder := if s.packets.items != [] then After(true) else if s.packets.working then Sleeping else After(false))
    case Sleeping => s.(packets := Wake(s.packets), decoder := Popping)
    case After(got) => s.(decoder := if !s.isPlaying then Leaving else if !got then Testing else Sending)
    case Sending =>
      if ok then s.(packets := Release(s.packets), frames := Make(s.frames), decoder := Receiving)
      else s.(packets := Release(s.packets), decoder := Leaving)
    case Receiving =>
      if received == Frame then s.(decoder := Pushing)
      else s.(frames := Discard(s.frames), decoder := if received == Again then Testing else Leaving)
    case Pushing => s.(frames := Push(s.frames), decoder := Testing)
    case Leaving => s.(packets := Release(s.packets), decoder := Done)
    case Done => s
  }

  // ---------------------------------------------------------------- the callback thread

  predicate PcmEnabled(s: State) { s.player == Idle ==> Alive(s.control) }

  function PcmNext(s: State): (r: State)
    requires s.player == PcmPopping ==> s.frames.held.None?
  {
    match s.player
    case Idle => s.(player := PcmPopping)
    case PcmPopping =>
      s.(frames := TryPop(s.frames),
         player := if s.frames.items != [] then PcmAfter(true) else if s.frames.working then PcmSleeping
                   else PcmAfter(false))
    case PcmSleeping => s.(frames := Wake(s.frames), player := PcmPopping)
    case PcmAfter(got) =>
      if s.isPlaying then s.(player := Using)
      else s.(frames := if got then Release(s.frames) else s.frames, player := Idle)
    case Using => s.(frames := Release(s.frames), player := Idle)
  }

  // ---------------------------------------------------------------- the invariant

  /** The flags as `start` and `stop` leave them. */
  predicate Flags(s: State)
  {
    && (s.isPlaying <==> s.control in {Playing, PacketsOn, FramesOn, Started})
    && (s.packets.working <==> s.control in {PacketsOn, FramesOn, Started, NotPlaying})
    && (s.frames.working <==> s.control in {FramesOn, Started, NotPlaying, PacketsOff})
    && (s.decoder == Unborn <==> s.control in {Fresh, Playing, PacketsOn, FramesOn})
    && (s.control in {Joined, FramesCleared, Cleared} ==> s.decoder == Done)
    && (s.player != Idle ==> Alive(s.control))
    && (s.control in {FramesCleared, Cleared} ==> s.frames.items == [])
    && (s.control == Cleared ==> s.packets.items == [])
  }

  /** The decode thread holds a packet exactly where its program says, and a `pop` that returned 0
      means that playing has ended. */
  predicate DecoderOk(s: State)
  {
    && (match s.decoder
        case After(got) => got == s.packets.held.Some? && (!got ==> !s.isPlaying)
        case Sending => s.packets.held.Some?
        case Leaving => true
        case _ => s.packets.held.None?)
    && (s.frames.offered.Some? <==> s.decoder in {Receiving, Pushing})
    && (s.packets.asleep ==> s.decoder == Sleeping)
  }

  predicate PlayerOk(s: State)
  {
    && (match s.player
        case PcmAfter(got) => got == s.frames.held.Some? && (!got ==> !s.isPlaying)
        case Using => s.frames.held.Some?
        case _ => s.frames.held.None?)
    && (s.frames.asleep ==> s.player == PcmSleeping)
  }

  ghost predicate Inv(s: State)
  {
    LaneInv(s.packets) && LaneInv(s.frames) && Flags(s) && DecoderOk(s) && PlayerOk(s)
  }

  predicate Enabled(s: State, step: Step)
  {
    match step
    case ControlStep => ControlEnabled(s)
    case ReadPacket => s.packets.offered.None?
    case PushPacket => s.packets.offered.Some?
    case Decode(_, _) => DecodeEnabled(s)
    case Pcm => PcmEnabled(s)
  }

  ghost function Next(s: State, step: Step): (r: State)
    requires Inv(s) && Enabled(s, step)
  {
    match step
    case ControlStep => ControlNext(s)
    case ReadPacket => s.(packets := Make(s.packets))
    case PushPacket => s.(packets := Push(s.packets))
    case Decode(ok, received) => DecodeNext(s, ok, received)
    case Pcm => PcmNext(s)
  }

  lemma ControlInv(s: State)
    requires Inv(s) && ControlEnabled(s)
    ensures Inv(ControlNext(s))
  {
    hide Everything, Conserved, SleepsForCause, Fifo;
    hide LaneInv;
    WorkingInv(s.packets, true);
    WorkingInv(s.packets, false);
    WorkingInv(s.frames, true);
    WorkingInv(s.frames, false);
    ClearInv(s.packets);
    ClearInv(s.frames);
  }

  /** The turns of the decode loop that work on packets. */
  lemma DecodePacketInv(s: State, ok: bool, received: Received)
    requires Inv(s) && s.decoder in {Popping, Sleeping, Leaving}
    ensures Inv(DecodeNext(s, ok, received))
  {
    hide LaneInv;
    match s.decoder
    case Popping => TryPopInv(s.packets);
    case Sleeping => WorkingInv(s.packets, true);
    case _ => ReleaseInv(s.packets);
  }

  /** The turns that touch the frame queue. */
  lemma DecodeFrameInv(s: State, ok: bool, received: Received)
    requires Inv(s) && s.decoder in {Sending, Receiving, Pushing}
    ensures Inv(DecodeNext(s, ok, received))
  {
    hide LaneInv;
    match s.decoder
    case Sending => ReleaseInv(s.packets); MakeInv(s.frames);
    case _ => PushInv(s.frames);
  }

  lemma DecodeInv(s: State, ok: bool, received: Received)
    requires Inv(s) && DecodeEnabled(s)
    ensures Inv(DecodeNext(s, ok, received))
  {
    hide LaneInv;
    match s.decoder
    case Popping => DecodePacketInv(s, ok, received);
    case Sleeping => DecodePacketInv(s, ok, received);
    case Leaving => DecodePacketInv(s, ok, received);
    case Sending => DecodeFrameInv(s, ok, received);
    case Receiving => DecodeFrameInv(s, ok, received);
    case Pushing => DecodeFrameInv(s, ok, received);
    case _ =>
  }

  lemma PcmInv(s: State)
    requires Inv(s) && PcmEnabled(s)
    ensures Inv(PcmNext(s))
  {
    hide LaneInv;
    match s.player
    case PcmPopping => TryPopInv(s.frames);
    case PcmSleeping => WorkingInv(s.frames, true);
    case PcmAfter(_) => ReleaseInv(s.frames);
    case Using => ReleaseInv(s.frames);
    case _ =>
  }

  lemma NextInv(s: State, step: Step)
    requires Inv(s) && Enabled(s, step)
    ensures Inv(Next(s, step))
  {
    hide LaneInv, DecodeNext, ControlNext, PcmNext;
    match step
    case ControlStep => ControlInv(s);
    case ReadPacket => MakeInv(s.packets);
    case PushPacket => PushInv(s.packets);
    case Decode(ok, received) => DecodeInv(s, ok, received);
    case Pcm => PcmInv(s);
  }

  // ---------------------------------------------------------------- every run

  lemma InitialInv()
    ensures Inv(INITIAL)
  {
  }

  /** The state after a sequence of steps; `None` when a step is not possible. */
  ghost function Run(steps: seq<Step>): (r: Option<State>)
    ensures r.Some? ==> Inv(r.value)
  {
    if steps == [] then InitialInv(); Some(INITIAL)
    else
      var before := Run(steps[..|steps| - 1]);
      if before.None? || !Enabled(before.value, steps[|steps| - 1]) then None
      else
        NextInv(before.value, steps[|steps| - 1]);
        Some(Next(before.value, steps[|steps| - 1]))
  }

  /** How often item `x` of a lane is released, and how often it is in each other place. */
  function Releases(l: Lane, x: nat): (n: nat) { multiset(l.released)[x] }

  function Elsewhere(l: Lane, x: nat): (n: nat)
  {
    multiset(l.items)[x] + (if l.offered == Some(x) then 1 else 0) + (if l.held == Some(x) then 1 else 0)
  }

  lemma OnePlace(l: Lane, x: nat)
    requires LaneInv(l)
    ensures x < l.made ==> Releases(l, x) + Elsewhere(l, x) == 1
    ensures l.accepted == l.gone + l.items
  {
    assert Everything(l)[x] == if x < l.made then 1 else 0;
    assert Hand(l.offered)[x] == if l.offered == Some(x) then 1 else 0;
    assert Hand(l.held)[x] == if l.held == Some(x) then 1 else 0;
  }

  /** In every interleaving, each packet and each frame ever made is in exactly one of: its maker's
      hand, the queue, its consumer's hand, released; so it is never released twice nor used after
      release, and never lost. Items leave each queue in the order they entered it. */
  lemma NothingLostOrFreedTwice(steps: seq<Step>, x: nat)
    requires Run(steps).Some?
    ensures var s := Run(steps).value;
            && (x < s.packets.made ==> Releases(s.packets, x) + Elsewhere(s.packets, x) == 1)
            && (x < s.frames.made ==> Releases(s.frames, x) + Elsewhere(s.frames, x) == 1)
            && s.packets.accepted == s.packets.gone + s.packets.items
            && s.frames.accepted == s.frames.gone + s.frames.items
  {
    hide Run, Flags, DecoderOk, PlayerOk, LaneInv, Releases, Elsewhere;
    OnePlace(Run(steps).value.packets, x);
    OnePlace(Run(steps).value.frames, x);
  }

  /** In every interleaving: a thread asleep in `pop` has an empty working queue; a `pop` that returned
      0 finds `isPlaying` already 0, so the decode loop never goes round for that reason; a packet
      sent to the decoder and the frame that `getPcm` resamples were really popped. */
  lemma PopProtocol(steps: seq<Step>)
    requires Run(steps).Some?
    ensures var s := Run(steps).value;
            && (s.decoder == Sleeping && s.packets.asleep ==> s.packets.working && s.packets.items == [])
            && (s.player == PcmSleeping && s.frames.asleep ==> s.frames.working && s.frames.items == [])
            && (s.decoder == After(false) || s.player == PcmAfter(false) ==> !s.isPlaying)
            && (s.decoder == Sending ==> s.packets.held.Some? && s.packets.held.value !in s.packets.released)
            && (s.player == Using ==> s.frames.held.Some? && s.frames.held.value !in s.frames.released)
  {
    hide Run, Flags;
    var s := Run(steps).value;
    HeldNotReleased(s.packets);
    HeldNotReleased(s.frames);
  }

  lemma HeldNotReleased(l: Lane)
    requires LaneInv(l)
    ensures l.held.Some? ==> l.held.value !in l.released
  {
    if l.held.Some? && l.held.value in l.released {
      var i :| 0 <= i < |l.released| && l.released[i] == l.held.value;
      ReleasedOnce(l, i);
      assert false;
    }
  }

  /** While `isPlaying` is set, the decode thread goes for a packet only with at most 100 frames queued. */
  predicate FramesOk(s: State)
  {
    && |s.frames.items| <= 101
    && (s.decoder in {Popping, Sleeping, After(true), After(false)} && s.isPlaying ==> |s.frames.items| <= 100)
    && (s.decoder in {Sending, Receiving, Pushing} ==> |s.frames.items| <= 100)
  }

  lemma FramesStep(s: State, step: Step)
    requires Inv(s) && Enabled(s, step) && FramesOk(s)
    ensures FramesOk(Next(s, step))
  {
    hide Conserved, Fifo;
  }

  /** In every interleaving the frame queue never holds more than 101 frames. */
  lemma {:induction false} FramesBounded(steps: seq<Step>)
    requires Run(steps).Some?
    ensures FramesOk(Run(steps).value) && |Run(steps).value.frames.items| <= 101
  {
    hide Next, Inv, Enabled;
    if steps != [] {
      FramesBounded(steps[..|steps| - 1]);
      FramesStep(Run(steps[..|steps| - 1]).value, steps[|steps| - 1]);
    }
  }

  /** After the destructor, every frame ever made has been released exactly once, and so has every
      packet but the one the demuxer may have in its hand. */
  lemma EverythingReleased(steps: seq<Step>, x: nat)
    requires Run(steps).Some? && Run(steps).value.control == Cleared
    ensures var s := Run(steps).value;
            && (x < s.frames.made ==> Releases(s.frames, x) == 1)
            && (x < s.packets.made && s.packets.offered != Some(x) ==> Releases(s.packets, x) == 1)
  {
    hide Run, LaneInv;
    NothingLostOrFreedTwice(steps, x);
  }

  // ---------------------------------------------------------------- stop ends

  function DecoderRank(d: Decoder): (n: nat)
  {
    match d
    case Unborn => 0 case Done => 0 case Leaving => 1 case Testing => 2 case Sending => 6 case Receiving => 5
    case Pushing => 4 case After(_) => 7 case Popping => 8 case Sleeping => 9 case Sizing => 10
  }

  function PlayerRank(p: Player): (n: nat)
  {
    match p
    case Idle => 0 case Using => 1 case PcmAfter(_) => 2 case PcmPopping => 3 case PcmSleeping => 4
  }

  /** Once `stop` has switched both queues off nobody is left asleep, each step of the decode thread
      brings it nearer its end, and so does each step of a `getPcm` under way: the joins return. */
  lemma StopEnds(steps: seq<Step>, ok: bool, received: Received)
    requires Run(steps).Some? && Run(steps).value.control == FramesOff
    ensures var s := Run(steps).value;
            && !s.packets.asleep && !s.frames.asleep
            && (s.decoder != Done ==>
                  && DecodeEnabled(s)
                  && DecoderRank(DecodeNext(s, ok, received).decoder) < DecoderRank(s.decoder))
            && (s.player != Idle ==> PcmEnabled(s) && PlayerRank(PcmNext(s).player) < PlayerRank(s.player))
            && (s.decoder == Done && s.player == Idle ==> ControlEnabled(s))
  {
    hide Run, Conserved, Fifo;
  }

  // ---------------------------------------------------------------- runs inside stop

  ghost function RunFrom(s: State, steps: seq<Step>): (r: Option<State>)
    requires Inv(s)
    ensures r.Some? ==> Inv(r.value)
    decreases |steps|
  {
    if steps == [] then Some(s)
    else if !Enabled(s, steps[0]) then None
    else
      NextInv(s, steps[0]);
      RunFrom(Next(s, steps[0]), steps[1..])
  }

  function DecodeSteps(steps: seq<Step>): (n: nat)
  {
    if steps == [] then 0 else (if steps[0].Decode? then 1 else 0) + DecodeSteps(steps[1..])
  }

  function PcmSteps(steps: seq<Step>): (n: nat)
  {
    if steps == [] then 0 else (if steps[0].Pcm? then 1 else 0) + PcmSteps(steps[1..])
  }

  /** How many calls of `getPcm` begin in a run from `s`. */
  ghost function PcmCalls(s: State, steps: seq<Step>): (n: nat)
    requires Inv(s) && RunFrom(s, steps).Some?
    decreases |steps|
  {
    if steps == [] then 0
    else
      NextInv(s, steps[0]);
      (if steps[0].Pcm? && s.player == Idle then 1 else 0) + PcmCalls(Next(s, steps[0]), steps[1..])
  }

  /** Inside `stop`, up to the joins, the decode thread takes at most as many steps as its rank, and the
      callback at most as many as its rank and four more for each call that still begins; when both
      have taken theirs, the joins return. */
  lemma {:induction false} JoinsReturn(s: State, steps: seq<Step>)
    requires Inv(s) && s.control == FramesOff && RunFrom(s, steps).Some?
    requires forall i :: 0 <= i < |steps| ==> !steps[i].ControlStep?
    ensures var t := RunFrom(s, steps).value;
            && t.control == FramesOff
            && DecodeSteps(steps) + DecoderRank(t.decoder) <= DecoderRank(s.decoder)
            && PcmSteps(steps) + PlayerRank(t.player) <= PlayerRank(s.player) + 4 * PcmCalls(s, steps)
            && (DecodeSteps(steps) == DecoderRank(s.decoder)
                 && PcmSteps(steps) == PlayerRank(s.player) + 4 * PcmCalls(s, steps) ==>
                  Enabled(t, ControlStep))
    decreases |steps|
  {
    hide LaneInv, DecodeNext, PcmNext, DecoderOk, PlayerOk;
    if steps == [] {
      if DecoderRank(s.decoder) == 0 && PlayerRank(s.player) == 0 {
        JoinEnabled(s);
      }
    } else {
      var next := Next(s, steps[0]);
      NextInv(s, steps[0]);
      StopStep(s, steps[0]);
      JoinsReturn(next, steps[1..]);
    }
  }

  lemma JoinEnabled(s: State)
    requires Inv(s) && s.control == FramesOff && DecoderRank(s.decoder) == 0 && PlayerRank(s.player) == 0
    ensures ControlEnabled(s)
  {
    hide LaneInv, DecoderOk, PlayerOk;
  }

  lemma StopStep(s: State, step: Step)
    requires Inv(s) && Enabled(s, step) && s.control == FramesOff && !step.ControlStep?
    ensures var t := Next(s, step);
            && t.control == FramesOff
            && DecoderRank(t.decoder) + (if step.Decode? then 1 else 0) <= DecoderRank(s.decoder)
            && PlayerRank(t.player) + (if step.Pcm? then 1 else 0)
               <= PlayerRank(s.player) + (if step.Pcm? && s.player == Idle then 4 else 0)
  {
    hide Conserved, Fifo;
  }
}
