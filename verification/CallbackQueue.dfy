/**
 One client's event queue: bounded, and when it is full the oldest event makes room for
 the newest.  The class is the queue itself; `QueueState` adds the history of what went in
 and what came out, so that exactly what is lost can be said.
 */
module CallbackQueue {
  import opened Basics
  import opened Traces

  datatype EventKind = NewImage | NewStatistics | RenderFailure | ProjectChanged | TileBlended

  datatype Event = Event(kind: EventKind, userData: nat)

  /** The queue after a push: at most the newest `depth - 1` events, then the new one. */
  function Pushed(queue: seq<Event>, depth: nat, e: Event): seq<Event>
    requires depth >= 1
  {
    (if |queue| < depth then queue else queue[|queue| - depth + 1..]) + [e]
  }

  class CallbackSubscription {
    const maxDepth: nat
    var queue: seq<Event>

    ghost predicate Valid()
      reads this
    {
      1 <= maxDepth && |queue| <= maxDepth
    }

    constructor (maxQueueDepth: nat)
      requires maxQueueDepth >= 1
      ensures Valid() && maxDepth == maxQueueDepth && queue == []
    {
      maxDepth := maxQueueDepth;
      queue := [];
    }

    method Push(e: Event)
      requires Valid()
      modifies this`queue
      ensures Valid()
      ensures queue == Pushed(old(queue), maxDepth, e)
    {
      while |queue| >= maxDepth
        invariant |queue| <= |old(queue)|
        invariant queue == old(queue)[|old(queue)| - |queue|..]
        invariant queue == old(queue) || |queue| >= maxDepth - 1
      {
        queue := queue[1..];
      }
      queue := queue + [e];
    }

    /** Answers `None` when the wait times out, which happens only on an empty queue. */
    method WaitAndPop() returns (out: Option<Event>)
      requires Valid()
      modifies this`queue
      ensures Valid()
      ensures out.Some? <==> old(queue) != []
      ensures out.Some? ==> [out.value] + queue == old(queue)
      ensures out.None? ==> queue == []
    {
      if queue != [] {
        out := Some(queue[0]);
        queue := queue[1..];
      } else {
        out := None;
      }
    }

    method QueueDepth() returns (depth: nat)
      requires Valid()
      ensures depth == |queue| <= maxDepth
    {
      depth := |queue|;
    }
  }

  // ---------------------------------------------------------------- the queue with its history

  datatype QueueOp = Push(e: Event) | Pop

  /**
   The queue, everything pushed to it and everything popped from it.  `taken[k]` is the
   place in `pushed` of the k-th popped event.
   */
  datatype QueueState = QueueState(queue: seq<Event>, pushed: seq<Event>, popped: seq<Event>, taken: seq<int>) {

    /** Events that have left the queue, one way or the other. */
    function Gone(): int {
      |pushed| - |queue|
    }

    /** Event number `i` was pushed, is no longer queued, and was never handed out. */
    ghost predicate Lost(i: nat) {
      i < Gone() && i !in taken
    }

    ghost predicate Lossless() {
      forall i: nat :: !Lost(i)
    }
  }

  const EMPTY_QUEUE := QueueState([], [], [], [])

  function ApplyOp(s: QueueState, depth: nat, op: QueueOp): QueueState
    requires depth >= 1
  {
    match op
    case Push(e) =>
      s.(queue := Pushed(s.queue, depth, e), pushed := s.pushed + [e])
    case Pop =>
      if s.queue == [] then s
      else s.(queue := s.queue[1..], popped := s.popped + [s.queue[0]], taken := s.taken + [s.Gone()])
  }

  function RunQueue(ops: Trace<QueueOp>, depth: nat): QueueState
    requires depth >= 1
  {
    match ops
    case Start => EMPTY_QUEUE
    case After(prev, op) => ApplyOp(RunQueue(prev, depth), depth, op)
  }

  ghost predicate Increasing(ix: seq<int>) {
    forall j, k :: 0 <= j < k < |ix| ==> ix[j] < ix[k]
  }

  /** `picks` are the elements of `source` at the places `ix`, taken in order. */
  ghost predicate PicksInOrder<T>(source: seq<T>, ix: seq<int>, picks: seq<T>) {
    && |ix| == |picks|
    && Increasing(ix)
    && forall k :: 0 <= k < |ix| ==> 0 <= ix[k] < |source| && picks[k] == source[ix[k]]
  }

  ghost predicate QueueInv(s: QueueState, depth: nat) {
    && |s.queue| <= depth
    && |s.queue| <= |s.pushed|
    && s.queue == s.pushed[s.Gone()..]
    && PicksInOrder(s.pushed, s.taken, s.popped)
    && forall k :: 0 <= k < |s.taken| ==> s.taken[k] < s.Gone()
  }

  lemma OpKeepsInv(s: QueueState, depth: nat, op: QueueOp)
    requires depth >= 1 && QueueInv(s, depth)
    ensures QueueInv(ApplyOp(s, depth, op), depth)
  {
    var s' := ApplyOp(s, depth, op);
    if op.Push? {
      assert s'.queue == s'.pushed[s'.Gone()..];
    }
  }

  /**
   In every run the queue is a suffix of what was pushed, no longer than its depth, and
   what was popped was taken from the pushed events in order.
   */
  lemma {:induction false} QueueIsRecentSuffix(ops: Trace<QueueOp>, depth: nat)
    requires depth >= 1
    ensures QueueInv(RunQueue(ops, depth), depth)
  {
    match ops
    case Start =>
    case After(prev, op) =>
      QueueIsRecentSuffix(prev, depth);
      OpKeepsInv(RunQueue(prev, depth), depth, op);
  }

  /** One step loses event `i` exactly when it is push number `i + depth` and `i` is still queued. */
  lemma StepLoss(s: QueueState, depth: nat, op: QueueOp, i: nat)
    requires depth >= 1 && QueueInv(s, depth)
    ensures ApplyOp(s, depth, op).Lost(i)
       <==> s.Lost(i) || (op.Push? && |s.pushed| == i + depth && i >= s.Gone())
  {
    var s' := ApplyOp(s, depth, op);
    if op.Pop? && s.queue != [] {
      assert s'.taken == s.taken + [s.Gone()];
    }
  }

  /** Event `i` is displaced when push number `i + depth` arrives before `i` was popped. */
  ghost predicate Displaced(ops: Trace<QueueOp>, depth: nat, i: nat)
    requires depth >= 1
  {
    exists before: Trace<QueueOp>, e ::
      && After(before, Push(e)).IsPrefixOf(ops)
      && |RunQueue(before, depth).pushed| == i + depth
      && i !in RunQueue(before, depth).taken
  }

  /** Exactly what is lost: event `i` is, if and only if it was still there at push `i + depth`. */
  lemma {:induction false} LostIffDisplaced(ops: Trace<QueueOp>, depth: nat, i: nat)
    requires depth >= 1
    ensures RunQueue(ops, depth).Lost(i) <==> Displaced(ops, depth, i)
  {
    match ops
    case Start =>
    case After(prev, op) =>
      LostIffDisplaced(prev, depth, i);
      var s := RunQueue(prev, depth);
      QueueIsRecentSuffix(prev, depth);
      StepLoss(s, depth, op, i);
      if op.Push? && |s.pushed| == i + depth && i >= s.Gone() {
        assert i !in s.taken;
        assert After(prev, Push(op.e)).IsPrefixOf(ops);
      }
      if Displaced(prev, depth, i) {
        var before: Trace<QueueOp>, e :|
          && After(before, Push(e)).IsPrefixOf(prev)
          && |RunQueue(before, depth).pushed| == i + depth
          && i !in RunQueue(before, depth).taken;
        assert After(before, Push(e)).IsPrefixOf(ops);
      }
      if Displaced(ops, depth, i) && !Displaced(prev, depth, i) {
        assert op.Push? && |s.pushed| == i + depth && i !in s.taken;
        if i < s.Gone() {
          assert s.Lost(i);
        }
      }
  }

  // ---------------------------------------------------------------- against an unbounded queue

  /** The same operations on a queue that never drops anything. */
  datatype Fifo = Fifo(queue: seq<Event>, popped: seq<Event>)

  function RunFifo(ops: Trace<QueueOp>): Fifo {
    match ops
    case Start => Fifo([], [])
    case After(prev, Push(e)) => var f := RunFifo(prev); f.(queue := f.queue + [e])
    case After(prev, Pop) =>
      var f := RunFifo(prev);
      if f.queue == [] then f else Fifo(f.queue[1..], f.popped + [f.queue[0]])
  }

  /** At no time did the consumer have more than `depth` events waiting. */
  ghost predicate KeepsUp(ops: Trace<QueueOp>, depth: nat) {
    match ops
    case Start => true
    case After(prev, _) => KeepsUp(prev, depth) && |RunFifo(ops).queue| <= depth
  }

  /**
   The bounded queue loses nothing exactly for the runs in which an unbounded one would
   never hold more than `depth` events, and on those the two cannot be told apart.
   */
  lemma {:induction false} LosslessIffKeepsUp(ops: Trace<QueueOp>, depth: nat)
    requires depth >= 1
    ensures RunQueue(ops, depth).Lossless() <==> KeepsUp(ops, depth)
    ensures KeepsUp(ops, depth) ==>
              && RunQueue(ops, depth).queue == RunFifo(ops).queue
              && RunQueue(ops, depth).popped == RunFifo(ops).popped
  {
    match ops
    case Start =>
    case After(prev, op) =>
      LosslessIffKeepsUp(prev, depth);
      var s, s' := RunQueue(prev, depth), RunQueue(ops, depth);
      QueueIsRecentSuffix(prev, depth);
      forall i: nat
        ensures s'.Lost(i) <==> s.Lost(i) || (op.Push? && |s.pushed| == i + depth && i >= s.Gone())
      {
        StepLoss(s, depth, op, i);
      }
      if i: nat :| s.Lost(i) {
        assert s'.Lost(i);
      } else if op.Push? && |s.queue| == depth {
        assert s'.Lost(s.Gone());
      }
  }

  // ---------------------------------------------------------------- conservation

  ghost function Below(n: nat): (r: set<int>)
    ensures forall i :: i in r <==> 0 <= i < n
    ensures |r| == n
  {
    if n == 0 then {} else Below(n - 1) + {n - 1}
  }

  ghost function Elements(ix: seq<int>): set<int> {
    set x | x in ix
  }

  ghost function LostEvents(s: QueueState): set<int>
    requires s.Gone() >= 0
  {
    set i | i in Below(s.Gone()) && i !in s.taken
  }

  lemma {:induction false} IncreasingIsInjective(ix: seq<int>)
    requires Increasing(ix)
    ensures |Elements(ix)| == |ix|
  {
    if ix == [] {
      assert Elements(ix) == {};
    } else {
      var last, rest := ix[|ix| - 1], ix[..|ix| - 1];
      IncreasingIsInjective(rest);
      assert ix == rest + [last];
      assert Elements(ix) == Elements(rest) + {last};
      assert last !in Elements(rest);
    }
  }

  /** Every event pushed is still queued, was handed out once, or is lost. */
  lemma EventsAreConserved(s: QueueState, depth: nat)
    requires QueueInv(s, depth)
    ensures |s.pushed| == |s.queue| + |s.popped| + |LostEvents(s)|
  {
    IncreasingIsInjective(s.taken);
    assert Below(s.Gone()) == Elements(s.taken) + LostEvents(s);
  }

  /** With nothing lost, what was popped is the pushed history up to the queue, gap-free. */
  lemma NothingLostMeansPrefix(s: QueueState, depth: nat)
    requires QueueInv(s, depth)
    requires s.Lossless()
    ensures s.popped == s.pushed[..s.Gone()]
  {
    forall i | i in LostEvents(s)
      ensures false
    {
      assert s.Lost(i);
    }
    assert LostEvents(s) == {};
    EventsAreConserved(s, depth);
    IncreasingFillsUp(s.taken, s.Gone());
  }

  /** An increasing sequence of `n` numbers below `n` counts 0, 1, 2, ... */
  lemma {:induction false} IncreasingFillsUp(ix: seq<int>, n: nat)
    requires Increasing(ix) && |ix| == n
    requires forall k :: 0 <= k < |ix| ==> 0 <= ix[k] < n
    ensures forall k :: 0 <= k < n ==> ix[k] == k
  {
    if n > 0 {
      var rest := ix[..n - 1];
      assert forall k :: 0 <= k < n - 1 ==> rest[k] == ix[k] < ix[n - 1];
      IncreasingFillsUp(rest, n - 1);
      assert n > 1 ==> rest[n - 2] == n - 2;
      assert forall k :: 0 <= k < n - 1 ==> ix[k] == rest[k];
    }
  }
}
