/**
 * What one call of the lock-free queue does when it is left alone: from any state that any interleaving can reach, an
 * enqueue appends its argument, and, once nobody is between a swap and the store that belongs to it, a dequeue hands
 * out the oldest value or finds the queue empty exactly if it is.
 */
module LockFreeSolo {
  import opened Types
  import opened LockFreeQueue
  import opened LockFreeDelivery
  import opened LockFreeValues

  /** A `_tail` left behind by the removal of the last node is about to be cleared. */
  ghost predicate Clearing(s: State) {
    !Live(s) && s.tail.Some? ==> Storing(s, DeqClearTail(s.tail.value))
  }

  lemma FrameClearing(s: State, a: Action)
    requires Inv(s) && Clearing(s) && Enabled(s, a) && Sound(s, a.thread) && Passive(s, a)
    requires !s.threads[a.thread].DeqClearTail?
    ensures Clearing(Step(s, a))
  {
    PassiveStepFrame(s, a);
    var s' := Step(s, a);
    if !Live(s') && s'.tail.Some? {
      StoringStays(s, s', a.thread, s'.threads[a.thread], DeqClearTail(s.tail.value));
    }
  }

  lemma PushClears(s: State, t: Thread, x: Node)
    requires Inv(s) && Clearing(s) && t in s.threads && s.threads[t].EnqSwap? && s.threads[t].node == x
    ensures Clearing(Pushed(s, t, x))
  {
    var s' := Pushed(s, t, x);
    assert ThreadOk(s, s.threads[t]);
    PushKeepsShared(s, t, x);
    if !Live(s') && s'.tail.Some? {
      StoringStays(s, s', t, s'.threads[t], DeqClearTail(s.tail.value));
    }
  }

  lemma LinkClears(s: State, t: Thread, x: Node, prev: Node)
    requires Clearing(s) && t in s.threads && s.threads[t] == EnqLink(x, prev) && prev in s.cells
    ensures Clearing(Linked(s, t, x, prev))
  {
    if !Live(s) && s.tail.Some? {
      StoringStays(s, Linked(s, t, x, prev), t, Idle, DeqClearTail(s.tail.value));
    }
  }

  lemma RemovalClears(s: State, a: Action)
    requires Inv(s) && Enabled(s, a) && Sound(s, a.thread)
    requires var l := s.threads[a.thread];
             (l.DeqAdvance? && s.tail == Some(l.last)) || (l.DeqClear? && s.head == Some(l.last))
    ensures Clearing(Step(s, a))
  {
    var l, s' := s.threads[a.thread], Step(s, a);
    assert ThreadOk(s, l);
    if l.DeqAdvance? {
      AdvanceRemovesOldest(s, l.last, l.next);
      assert Live(s');
    } else {
      ClearRemovesSole(s, l.last);
      assert s'.threads[a.thread] == DeqClearTail(l.last);
    }
  }

  lemma ClearTailClears(s: State, a: Action)
    requires Inv(s) && Clearing(s) && Enabled(s, a) && Sound(s, a.thread) && s.threads[a.thread].DeqClearTail?
    ensures Clearing(Step(s, a))
  {
    var l, s' := s.threads[a.thread], Step(s, a);
    if !Live(s') && s'.tail.Some? {
      StoringStays(s, s', a.thread, s'.threads[a.thread], DeqClearTail(s.tail.value));
    }
  }

  lemma StepKeepsClearing(s: State, a: Action)
    requires Inv(s) && Clearing(s) && Enabled(s, a) && Sound(s, a.thread)
    ensures Clearing(Step(s, a))
  {
    var t := a.thread;
    var l := s.threads[t];
    if l.EnqSwap? && s.head == l.oldHead {
      PushClears(s, t, l.node);
    } else if l.EnqTail? {
      assert ThreadOk(s, l);
      assert Live(Step(s, a));
    } else if l.EnqLink? {
      LinkClears(s, t, l.node, l.prev);
    } else if (l.DeqAdvance? && s.tail == Some(l.last)) || (l.DeqClear? && s.head == Some(l.last)) {
      RemovalClears(s, a);
    } else if l.DeqClearTail? {
      ClearTailClears(s, a);
    } else {
      FrameClearing(s, a);
    }
  }

  lemma {:induction false} RunKeepsClearing(s: State, run: seq<Action>)
    requires Inv(s) && Clearing(s) && AllowedRun(s, run)
    ensures Clearing(Run(s, run))
    decreases |run|
  {
    if run != [] {
      StepKeepsClearing(s, run[0]);
      StepKeepsInv(s, run[0]);
      RunKeepsClearing(Step(s, run[0]), run[1..]);
    }
  }

  /** Nobody is between a swap and the store that belongs to it. */
  ghost predicate Settled(s: State) {
    Quiet(s) && forall t :: t in s.threads ==> !s.threads[t].DeqClearTail?
  }

  /** `n` steps of one thread, alone. */
  ghost function Solo(s: State, a: Action, n: nat): State
    decreases n
  {
    if n == 0 || !Enabled(s, a) || !Sound(s, a.thread) then s else Solo(Step(s, a), a, n - 1)
  }

  lemma SoloStep(s: State, a: Action, n: nat, s': State)
    requires Enabled(s, a) && Sound(s, a.thread) && Step(s, a) == s'
    ensures Solo(s, a, n + 1) == Solo(s', a, n)
  {
  }

  lemma MoveAgain(s: State, t: Thread, l: Local, l': Local)
    ensures Move(Move(s, t, l), t, l') == Move(s, t, l')
  {
    assert s.threads[t := l][t := l'] == s.threads[t := l'];
  }

  /** The state in which the oldest node has been removed and handed out by thread `t`. */
  ghost function Taken(s: State, t: Thread): State
    requires |s.deq| < |s.enq| && s.enq[|s.deq|] in s.cells
  {
    var x := s.enq[|s.deq|];
    Move(s, t, Idle).(
      deq := s.deq + [x], returned := s.returned + [x], values := s.values + [s.cells[x].value],
      tail := if |s.deq| + 1 == |s.enq| then None else s.cells[x].next,
      head := if |s.deq| + 1 == |s.enq| then None else s.head)
  }

  /** `_tail` is at the oldest node, whose next pointer is set if there is another; if not, `_head` is at it too. */
  ghost predicate OldestOk(s: State) {
    && |s.deq| < |s.enq| && s.enq[|s.deq|] in s.cells && s.tail == Some(s.enq[|s.deq|])
    && (s.cells[s.enq[|s.deq|]].next.Some? <==> |s.deq| + 1 < |s.enq|)
    && (|s.deq| + 1 == |s.enq| ==> s.head == Some(s.enq[|s.deq|]))
  }

  lemma ChainedOldest(s: State)
    requires SharedOk(s) && Chained(s) && |s.deq| < |s.enq|
    ensures OldestOk(s)
  {
    var i := |s.deq|;
    assert s.enq[i] in s.cells;
    assert s.cells[s.enq[i]].next.Some? ==> i + 1 < |s.enq|;
    assert i < |s.enq| - 1 ==> s.cells[s.enq[i]].next == Some(s.enq[i + 1]);
  }

  lemma SoloLook(s: State, a: Action, n: nat)
    requires OldestOk(s) && a.thread in s.threads && s.threads[a.thread] == Idle && a.command == Dequeue
    ensures var x := s.enq[|s.deq|];
            Solo(s, a, n + 4)
            == Solo(Move(s, a.thread, if |s.deq| + 1 < |s.enq| then DeqNext(x) else DeqClear(x)), a, n)
  {
    var t, x := a.thread, s.enq[|s.deq|];
    var s1, s2, s3 := Move(s, t, DeqTail), Move(s, t, DeqHead(s.tail)), Move(s, t, DeqTest(x, s.head));
    var s4 := Move(s, t, if |s.deq| + 1 < |s.enq| then DeqNext(x) else DeqClear(x));
    MoveAgain(s, t, DeqTail, DeqHead(s.tail));
    MoveAgain(s, t, DeqHead(s.tail), DeqTest(x, s.head));
    MoveAgain(s, t, DeqTest(x, s.head), s4.threads[t]);
    SoloStep(s, a, n + 3, s1);
    SoloStep(s1, a, n + 2, s2);
    SoloStep(s2, a, n + 1, s3);
    SoloStep(s3, a, n, s4);
  }

  lemma SoloAdvance(s: State, a: Action, n: nat)
    requires OldestOk(s) && |s.deq| + 1 < |s.enq| && a.thread in s.threads && n == 3
    ensures Solo(Move(s, a.thread, DeqNext(s.enq[|s.deq|])), a, n) == Taken(s, a.thread)
  {
    var t, x := a.thread, s.enq[|s.deq|];
    var next := s.cells[x].next;
    var s4, s5 := Move(s, t, DeqNext(x)), Move(s, t, DeqAdvance(x, next));
    var s6 := Move(s, t, DeqRead(x)).(tail := next, deq := s.deq + [x]);
    MoveAgain(s, t, DeqNext(x), DeqAdvance(x, next));
    MoveAgain(s, t, DeqAdvance(x, next), DeqRead(x));
    MoveAgain(s, t, DeqRead(x), Idle);
    SoloStep(s4, a, 2, s5);
    SoloStep(s5, a, 1, s6);
    SoloStep(s6, a, 0, Taken(s, t));
  }

  lemma SoloClear(s: State, a: Action, n: nat)
    requires OldestOk(s) && |s.deq| + 1 == |s.enq| && a.thread in s.threads && n == 3
    ensures Solo(Move(s, a.thread, DeqClear(s.enq[|s.deq|])), a, n) == Taken(s, a.thread)
  {
    var t, x := a.thread, s.enq[|s.deq|];
    var s4, s5 := Move(s, t, DeqClear(x)), Move(s, t, DeqClearTail(x)).(head := None, deq := s.deq + [x]);
    var s6 := Move(s, t, DeqRead(x)).(head := None, tail := None, deq := s.deq + [x]);
    MoveAgain(s, t, DeqClear(x), DeqClearTail(x));
    MoveAgain(s, t, DeqClearTail(x), DeqRead(x));
    MoveAgain(s, t, DeqRead(x), Idle);
    SoloStep(s4, a, 2, s5);
    SoloStep(s5, a, 1, s6);
    SoloStep(s6, a, 0, Taken(s, t));
  }

  lemma SoloEmpty(s: State, a: Action, n: nat)
    requires a.thread in s.threads && s.threads[a.thread] == Idle && a.command == Dequeue && s.tail.None? && n == 3
    ensures Solo(s, a, n) == s
  {
    var t := a.thread;
    var s1, s2 := Move(s, t, DeqTail), Move(s, t, DeqHead(None));
    MoveAgain(s, t, DeqTail, DeqHead(None));
    MoveAgain(s, t, DeqHead(None), Idle);
    assert s.threads[t := Idle] == s.threads;
    SoloStep(s, a, 2, s1);
    SoloStep(s1, a, 1, s2);
    SoloStep(s2, a, 0, s);
  }

  lemma ReachableSettled(threads: set<Thread>, run: seq<Action>)
    requires AllowedRun(Init(threads), run) && Settled(Run(Init(threads), run))
    ensures var s := Run(Init(threads), run); SharedOk(s) && Chained(s) && (|s.deq| == |s.enq| ==> s.tail.None?)
  {
    var s := Run(Init(threads), run);
    StartIsOk(threads);
    RunKeepsInv(Init(threads), run);
    RunKeepsClearing(Init(threads), run);
    ReachableWhenQuiet(threads, run);
  }

  lemma SoloTakes(s: State, a: Action, n: nat)
    requires OldestOk(s) && a.thread in s.threads && s.threads[a.thread] == Idle && a.command == Dequeue && n == 3
    ensures Solo(s, a, n + 4) == Taken(s, a.thread)
  {
    SoloLook(s, a, n);
    if |s.deq| + 1 < |s.enq| { SoloAdvance(s, a, n); } else { SoloClear(s, a, n); }
  }

  /** A dequeue that `a.thread` makes alone hands out the oldest of `put` that is still queued, if there is one. */
  ghost predicate DequeuesOldest(s: State, put: seq<int>, a: Action) {
    if |s.deq| >= |s.enq| then forall n: nat :: n == 3 ==> Solo(s, a, n) == s
    else
      forall n: nat :: n == 7 ==>
        var s' := Solo(s, a, n);
        && |s.deq| < |put| && s'.values == s.values + [put[|s.deq|]]
        && s'.enq == s.enq && s'.deq == s.deq + [s.enq[|s.deq|]] && s'.threads == s.threads
  }

  lemma SoloDequeue(s: State, put: seq<int>, a: Action)
    requires a.thread in s.threads && s.threads[a.thread] == Idle && a.command == Dequeue && PutOk(s, put)
    requires if |s.deq| >= |s.enq| then s.tail.None? else OldestOk(s)
    ensures DequeuesOldest(s, put, a)
  {
    if |s.deq| >= |s.enq| {
      forall n: nat | n == 3 ensures Solo(s, a, n) == s {
        SoloEmpty(s, a, n);
      }
    } else {
      assert s.threads[a.thread := Idle] == s.threads;
      forall n: nat | n == 7 ensures Solo(s, a, n) == Taken(s, a.thread) {
        SoloTakes(s, a, n - 4);
      }
    }
  }

  /**
   * From any reachable state in which nobody is between a swap and its store, an idle thread that dequeues alone is
   * back in seven steps with the value that was enqueued longest ago among those still queued, and in three, with
   * nothing changed, if none is.
   */
  lemma SoloDequeueTakesOldest(threads: set<Thread>, run: seq<Action>, a: Action)
    requires AllowedRun(Init(threads), run) && Settled(Run(Init(threads), run)) && a.command == Dequeue
    requires var s := Run(Init(threads), run); a.thread in s.threads && s.threads[a.thread] == Idle
    ensures var s, put := Run(Init(threads), run), ObserveAll(Seen(map[], []), Init(threads), run).put;
            DequeuesOldest(s, put, a)
  {
    var s, put := Run(Init(threads), run), ObserveAll(Seen(map[], []), Init(threads), run).put;
    ReachableSettled(threads, run);
    ReachableValues(threads, run);
    if |s.deq| < |s.enq| { ChainedOldest(s); }
    SoloDequeue(s, put, a);
  }

  /** An enqueue that thread `a.thread` makes alone puts one node with the argument at the end of the queue. */
  ghost predicate EnqueuesLast(s: State, a: Action)
    requires a.command.Enqueue?
  {
    forall n: nat :: n == 4 ==>
      var s' := Solo(s, a, n);
      && s'.enq == s.enq + [a.node] && s'.deq == s.deq && s'.threads == s.threads
      && a.node in s'.cells && s'.cells[a.node].value == a.command.value
  }

  lemma SoloPush(s: State, a: Action, n: nat)
    requires Enabled(s, a) && s.threads[a.thread] == Idle && a.command.Enqueue?
    ensures var s0 := s.(cells := s.cells[a.node := Cell(a.command.value, None)]);
            Solo(s, a, n + 3) == Solo(Pushed(s0, a.thread, a.node), a, n)
  {
    var t, x := a.thread, a.node;
    var s0 := s.(cells := s.cells[x := Cell(a.command.value, None)]);
    var s1, s2 := Move(s0, t, EnqLoad(x)), Move(s0, t, EnqSwap(x, s.head));
    MoveAgain(s0, t, EnqLoad(x), EnqSwap(x, s.head));
    MoveAgain(s0, t, EnqSwap(x, s.head), Pushed(s0, t, x).threads[t]);
    SoloStep(s, a, n + 2, s1);
    SoloStep(s1, a, n + 1, s2);
    SoloStep(s2, a, n, Pushed(s0, t, x));
  }

  lemma SoloStore(s: State, a: Action, n: nat)
    requires a.thread in s.threads && s.threads[a.thread] == Idle && a.node in s.cells && n == 1
    requires s.head.Some? ==> s.head.value in s.cells
    ensures var s' := Solo(Pushed(s, a.thread, a.node), a, n);
            && s'.enq == s.enq + [a.node] && s'.deq == s.deq && s'.threads == s.threads
            && a.node in s'.cells && s'.cells[a.node].value == s.cells[a.node].value
  {
    var s1 := Pushed(s, a.thread, a.node);
    MoveAgain(s, a.thread, s1.threads[a.thread], Idle);
    assert s.threads[a.thread := Idle] == s.threads;
    SoloStep(s1, a, 0, Step(s1, a));
  }

  lemma SoloEnqueue(s: State, a: Action)
    requires Enabled(s, a) && s.threads[a.thread] == Idle && a.command.Enqueue?
    requires s.head.Some? ==> s.head.value in s.cells
    ensures EnqueuesLast(s, a)
  {
    var s0 := s.(cells := s.cells[a.node := Cell(a.command.value, None)]);
    forall n: nat | n == 4 ensures Solo(s, a, n) == Solo(Pushed(s0, a.thread, a.node), a, n - 3) {
      SoloPush(s, a, n - 3);
      SoloStore(s0, a, n - 3);
    }
  }

  /** From any reachable state, an idle thread that enqueues alone appends its argument and is back in four steps. */
  lemma SoloEnqueueAppends(threads: set<Thread>, run: seq<Action>, a: Action)
    requires AllowedRun(Init(threads), run) && a.command.Enqueue?
    requires var s := Run(Init(threads), run); Enabled(s, a) && s.threads[a.thread] == Idle
    ensures EnqueuesLast(Run(Init(threads), run), a)
  {
    var s := Run(Init(threads), run);
    RunKeepsInv(Init(threads), run);
    if s.head.Some? { HeadIsAllocated(s); }
    SoloEnqueue(s, a);
  }

  lemma HeadIsAllocated(s: State)
    requires SharedOk(s) && s.head.Some?
    ensures s.head.value in s.cells
  {
  }
}
