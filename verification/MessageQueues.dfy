/** `message_queue`: a queue behind a mutex and a condition variable. A `Lane` is such a queue with
    everything its producer and its consumer hold, so that each item can be accounted for. */
module MessageQueues {
  import opened Text

  /** One queue, its producer's hand, its consumer's hand, and what has been released. Items are named
      in the order they were made. */
  datatype Lane = Lane(
    items: seq<nat>, working: bool,
    asleep: bool,            // the consumer sleeps on the condition variable and has not been signalled
    offered: Option<nat>,    // made by the producer, not pushed yet
    held: Option<nat>,       // popped by the consumer, not released yet
    released: seq<nat>,      // every call of the release callback, in order
    made: nat,
    accepted: seq<nat>, gone: seq<nat>) // pushed into the queue; popped or cleared from it

  const EMPTY := Lane([], false, false, None, None, [], 0, [], [])

  function Make(l: Lane): (r: Lane)
    requires l.offered.None?
  {
    l.(offered := Some(l.made), made := l.made + 1)
  }

  /** The producer gives up an item that it made. */
  function Discard(l: Lane): (r: Lane)
    requires l.offered.Some?
  {
    l.(offered := None, released := l.released + [l.offered.value])
  }

  function Push(l: Lane): (r: Lane)
    requires l.offered.Some?
  {
    var x := l.offered.value;
    if l.working then l.(items := l.items + [x], asleep := false, offered := None, accepted := l.accepted + [x])
    else l.(offered := None, released := l.released + [x])
  }

  /** One evaluation of the loop in `pop` under the mutex: take an item, sleep, or give up. */
  function TryPop(l: Lane): (r: Lane)
    requires l.held.None?
  {
    if l.items != [] then l.(items := l.items[1..], held := Some(l.items[0]), gone := l.gone + [l.items[0]])
    else if l.working then l.(asleep := true)
    else l
  }

  function Wake(l: Lane): (r: Lane) { l.(asleep := false) }

  /** `releaseAvPacket` and `releaseAvFrame`: a null is left alone, and the variable is null
      afterwards. */
  function Release(l: Lane): (r: Lane)
  {
    if l.held.Some? then l.(held := None, released := l.released + [l.held.value]) else l
  }

  function SetWorking(l: Lane, on: bool): (r: Lane) { l.(working := on, asleep := false) }

  function Clear(l: Lane): (r: Lane) { l.(items := [], released := l.released + l.items, gone := l.gone + l.items) }

  // ---------------------------------------------------------------- conservation

  function Hand(o: Option<nat>): (r: multiset<nat>) { if o.Some? then multiset{o.value} else multiset{} }

  /** Where every item is, with multiplicity. */
  function Everything(l: Lane): (r: multiset<nat>)
  {
    multiset(l.items) + multiset(l.released) + Hand(l.offered) + Hand(l.held)
  }

  /** Every item made is in exactly one place, once, and nothing else is anywhere. */
  ghost predicate Conserved(l: Lane)
  {
    forall x: nat :: Everything(l)[x] == if x < l.made then 1 else 0
  }

  /** The consumer sleeps only while the queue works and is empty. */
  predicate SleepsForCause(l: Lane) { l.asleep ==> l.working && l.items == [] }

  /** Items leave in the order they came. */
  predicate Fifo(l: Lane) { l.accepted == l.gone + l.items }

  ghost predicate LaneInv(l: Lane) { Conserved(l) && SleepsForCause(l) && Fifo(l) }

  lemma SameItems(l: Lane, m: Lane)
    requires Conserved(l) && Everything(m) == Everything(l) && m.made == l.made
    ensures Conserved(m)
  {
  }

  lemma MakeInv(l: Lane)
    requires LaneInv(l) && l.offered.None?
    ensures LaneInv(Make(l))
  {
    forall x: nat
      ensures Everything(Make(l))[x] == if x < l.made + 1 then 1 else 0
    {
      assert Everything(l)[x] == if x < l.made then 1 else 0;
    }
  }

  lemma PushInv(l: Lane)
    requires LaneInv(l) && l.offered.Some?
    ensures LaneInv(Discard(l)) && LaneInv(Push(l))
  {
    SameItems(l, Discard(l));
    SameItems(l, Push(l));
    hide Conserved;
    assert l.gone + (l.items + [l.offered.value]) == l.gone + l.items + [l.offered.value];
  }

  lemma TryPopInv(l: Lane)
    requires LaneInv(l) && l.held.None? && !l.asleep
    ensures LaneInv(TryPop(l))
  {
    if l.items != [] {
      assert l.items == [l.items[0]] + l.items[1..];
      assert l.gone + l.items == l.gone + [l.items[0]] + l.items[1..];
    }
    SameItems(l, TryPop(l));
  }

  lemma ReleaseInv(l: Lane)
    requires LaneInv(l)
    ensures LaneInv(Release(l))
  {
    SameItems(l, Release(l));
  }

  lemma WorkingInv(l: Lane, on: bool)
    requires LaneInv(l)
    ensures LaneInv(SetWorking(l, on)) && LaneInv(Wake(l))
  {
    SameItems(l, SetWorking(l, on));
    SameItems(l, Wake(l));
  }

  lemma ClearInv(l: Lane)
    requires LaneInv(l)
    ensures LaneInv(Clear(l))
  {
    SameItems(l, Clear(l));
  }

  /** An item is released at most once, and never while it is queued or held. */
  lemma ReleasedOnce(l: Lane, i: nat)
    requires LaneInv(l) && i < |l.released|
    ensures l.released[i] < l.made && l.released[i] !in l.items
    ensures l.held != Some(l.released[i]) && l.offered != Some(l.released[i])
    ensures forall j :: 0 <= j < |l.released| && j != i ==> l.released[j] != l.released[i]
  {
    var x := l.released[i];
    assert x in multiset(l.released) && Everything(l)[x] == 1;
    forall j | 0 <= j < |l.released| && j != i
      ensures l.released[j] != x
    {
      if l.released[j] == x {
        Twice(l.released, if i < j then i else j, if i < j then j else i);
        assert false;
      }
    }
  }

  lemma Twice(s: seq<nat>, i: nat, j: nat)
    requires i < j < |s| && s[i] == s[j]
    ensures multiset(s)[s[i]] >= 2
  {
    assert s == s[..i + 1] + s[i + 1..];
    assert s[..i + 1][i] in s[..i + 1] && s[i + 1..][j - i - 1] in s[i + 1..];
  }

  /** When nothing is queued or in a hand, everything made has been released. */
  lemma AllReleased(l: Lane, x: nat)
    requires LaneInv(l) && l.items == [] && l.offered.None? && l.held.None? && x < l.made
    ensures x in l.released
  {
    assert Everything(l)[x] == 1;
  }

  // ---------------------------------------------------------------- the object

  /** What one evaluation of the loop in `pop` decides. */
  datatype Popped = Got(value: nat) | Sleeps | Stopped

  /** The bodies that run under the mutex, on items named by numbers. The condition variable is whether its
      one consumer sleeps on it; a signal wakes it. The release callback is a list of what it was called
      with. Each method is proved against the step of a lane that it carries out. */
  class MessageQueue {
    var queue: seq<nat>
    var state: bool
    var asleep: bool
    var released: seq<nat>

    ghost predicate Mirrors(l: Lane)
      reads this
    {
      queue == l.items && state == l.working && asleep == l.asleep && released == l.released
    }

    constructor ()
      ensures Mirrors(EMPTY)
    {
      queue, state, asleep, released := [], false, false, [];
    }

    /** `pthread_cond_signal`. */
    method Signal()
      modifies this`asleep
      ensures !asleep
    {
      asleep := false;
    }

    method PushValue(value: nat, ghost l: Lane)
      requires Mirrors(l) && l.offered == Some(value)
      modifies this
      ensures Mirrors(Push(l))
    {
      if state {
        queue := queue + [value];
        Signal();
      } else {
        released := released + [value];
      }
    }

    method PopValue(ghost l: Lane) returns (r: Popped)
      requires Mirrors(l) && l.held.None? && !l.asleep
      modifies this`queue, this`asleep
      ensures Mirrors(TryPop(l))
      ensures TryPop(l).held == if r.Got? then Some(r.value) else None
      ensures r.Sleeps? <==> TryPop(l).asleep
    {
      if state && |queue| == 0 {
        asleep := true; // pthread_cond_wait
        return Sleeps;
      }
      if |queue| > 0 {
        r := Got(queue[0]);
        queue := queue[1..];
      } else {
        r := Stopped;
      }
    }

    method ClearAll(ghost l: Lane)
      requires Mirrors(l)
      modifies this
      ensures Mirrors(Clear(l))
    {
      while |queue| > 0
        invariant state == l.working && asleep == l.asleep && released + queue == l.released + l.items
      {
        ghost var was := queue;
        var value := queue[0];
        released := released + [value];
        queue := queue[1..];
        assert was == [value] + queue;
      }
    }

    method GotoWork(ghost l: Lane)
      requires Mirrors(l)
      modifies this`state, this`asleep
      ensures Mirrors(SetWorking(l, true))
    {
      state := true;
      Signal();
    }

    method BackWork(ghost l: Lane)
      requires Mirrors(l)
      modifies this`state, this`asleep
      ensures Mirrors(SetWorking(l, false))
    {
      state := false;
      Signal();
    }
  }
}
