/**
 * What the lock-free queue delivers: each node to one caller at most, and nothing stays out of reach once enqueuers are
 * done.
 */
module LockFreeDelivery {
  import opened Types
  import opened LockFreeQueue

  /** The node a thread has removed and not yet handed out. */
  function Holding(l: Local): Option<Node> {
    match l
    case DeqClearTail(x) => Some(x)
    case DeqRead(x) => Some(x)
    case _ => None
  }

  /** Each removed node is either handed out once or held by one thread. */
  ghost predicate SingleDelivery(s: State) {
    && (forall i, j :: 0 <= i < j < |s.returned| ==> s.returned[i] != s.returned[j])
    && (forall x :: x in s.returned ==> x in s.deq)
    && (forall t :: t in s.threads && Holding(s.threads[t]).Some? ==> Holding(s.threads[t]).value !in s.returned)
    && (forall t, u :: t in s.threads && u in s.threads && t != u && Holding(s.threads[t]).Some? ==>
          Holding(s.threads[t]) != Holding(s.threads[u]))
  }

  ghost predicate Storing(s: State, l: Local) {
    exists t :: t in s.threads && s.threads[t] == l
  }

  /** What is missing from the chain of queued nodes is exactly what some enqueuer is about to store. */
  ghost predicate Mending(s: State) {
    && (|s.deq| < |s.enq| && !Live(s) ==> Storing(s, EnqTail(s.enq[|s.deq|])))
    && (forall i {:trigger s.enq[i]} ::
          |s.deq| <= i < |s.enq| - 1 && s.enq[i] in s.cells && s.cells[s.enq[i]].next.None? ==>
          Storing(s, EnqLink(s.enq[i + 1], s.enq[i])))
  }

  lemma NewlyRemoved(s: State, x: Node)
    requires Inv(s) && SingleDelivery(s) && |s.deq| < |s.enq| && x == s.enq[|s.deq|]
    ensures x !in s.returned
    ensures forall t :: t in s.threads ==> Holding(s.threads[t]) != Some(x)
  {
    assert x !in s.deq;
    forall t | t in s.threads ensures Holding(s.threads[t]) != Some(x) {
      assert ThreadOk(s, s.threads[t]);
    }
  }

  lemma FrameDelivery(s: State, s': State, t: Thread, l: Local)
    requires SingleDelivery(s) && t in s.threads && s'.threads == s.threads[t := l]
    requires s'.returned == s.returned && s.deq <= s'.deq
    requires Holding(l).None? || Holding(l) == Holding(s.threads[t])
    ensures SingleDelivery(s')
  {
  }

  lemma RemovalDelivery(s: State, s': State, t: Thread, l: Local, x: Node)
    requires SingleDelivery(s) && t in s.threads && s'.threads == s.threads[t := l] && Holding(l) == Some(x)
    requires s'.returned == s.returned && s'.deq == s.deq + [x] && x !in s.returned
    requires forall u :: u in s.threads ==> Holding(s.threads[u]) != Some(x)
    ensures SingleDelivery(s')
  {
  }

  lemma HandOutDelivery(s: State, s': State, t: Thread, x: Node)
    requires SingleDelivery(s) && t in s.threads && s.threads[t] == DeqRead(x) && x in s.deq
    requires s'.threads == s.threads[t := Idle] && s'.deq == s.deq && s'.returned == s.returned + [x]
    ensures SingleDelivery(s')
  {
    assert Holding(s.threads[t]) == Some(x);
  }

  lemma RemovalStepDelivery(s: State, a: Action)
    requires Inv(s) && SingleDelivery(s) && Enabled(s, a) && Sound(s, a.thread)
    requires var l := s.threads[a.thread];
             (l.DeqAdvance? && s.tail == Some(l.last)) || (l.DeqClear? && s.head == Some(l.last))
    ensures SingleDelivery(Step(s, a))
  {
    var t := a.thread;
    var l, s' := s.threads[t], Step(s, a);
    assert ThreadOk(s, l);
    if l.DeqAdvance? { AdvanceRemovesOldest(s, l.last, l.next); } else { ClearRemovesSole(s, l.last); }
    NewlyRemoved(s, l.last);
    RemovalDelivery(s, s', t, s'.threads[t], l.last);
  }

  /** The steps that neither remove nor hand out a node. */
  lemma OtherStepFrame(s: State, a: Action)
    requires Enabled(s, a) && Sound(s, a.thread) && !s.threads[a.thread].DeqRead?
    requires var l := s.threads[a.thread];
             !(l.DeqAdvance? && s.tail == Some(l.last)) && !(l.DeqClear? && s.head == Some(l.last))
    ensures var s' := Step(s, a);
            && s'.returned == s.returned && s'.deq == s.deq
            && a.thread in s'.threads && s'.threads == s.threads[a.thread := s'.threads[a.thread]]
            && var l := s'.threads[a.thread]; Holding(l).None? || Holding(l) == Holding(s.threads[a.thread])
  {
  }

  lemma StepKeepsDelivery(s: State, a: Action)
    requires Inv(s) && SingleDelivery(s) && Enabled(s, a) && Sound(s, a.thread)
    ensures SingleDelivery(Step(s, a))
  {
    var t := a.thread;
    var l := s.threads[t];
    if (l.DeqAdvance? && s.tail == Some(l.last)) || (l.DeqClear? && s.head == Some(l.last)) {
      RemovalStepDelivery(s, a);
    } else if l.DeqRead? {
      assert ThreadOk(s, l);
      HandOutDelivery(s, Step(s, a), t, l.last);
    } else {
      OtherStepFrame(s, a);
      FrameDelivery(s, Step(s, a), t, Step(s, a).threads[t]);
    }
  }

  lemma StoringStays(s: State, s': State, t: Thread, l: Local, k: Local)
    requires Storing(s, k) && t in s.threads && s.threads[t] != k && s'.threads == s.threads[t := l]
    ensures Storing(s', k)
  {
    var u :| u in s.threads && s.threads[u] == k;
    assert u in s'.threads && s'.threads[u] == k;
  }

  /** Steps that store nothing and remove nothing, and removals that leave `_tail` live. */
  lemma FrameMending(s: State, s': State, t: Thread, l: Local)
    requires Mending(s) && Logged(s) && t in s.threads && s'.threads == s.threads[t := l]
    requires !s.threads[t].EnqTail? && !s.threads[t].EnqLink?
    requires s'.enq == s.enq && s.deq <= s'.deq && (Live(s') || (s'.deq == s.deq && !Live(s)))
    requires forall x :: x in s.cells ==> x in s'.cells && s'.cells[x] == s.cells[x]
    ensures Mending(s')
  {
    if |s'.deq| < |s'.enq| && !Live(s') {
      StoringStays(s, s', t, l, EnqTail(s.enq[|s.deq|]));
    }
    forall i | |s'.deq| <= i < |s'.enq| - 1 && s'.enq[i] in s'.cells && s'.cells[s'.enq[i]].next.None?
      ensures Storing(s', EnqLink(s'.enq[i + 1], s'.enq[i]))
    {
      StoringStays(s, s', t, l, EnqLink(s.enq[i + 1], s.enq[i]));
    }
  }

  lemma PushMends(s: State, t: Thread, x: Node)
    requires Inv(s) && Mending(s) && t in s.threads && s.threads[t].EnqSwap? && s.threads[t].node == x
    ensures Mending(Pushed(s, t, x))
  {
    var s' := Pushed(s, t, x);
    var l := s'.threads[t];
    if |s'.deq| < |s'.enq| && !Live(s') {
      if |s.deq| < |s.enq| { StoringStays(s, s', t, l, EnqTail(s.enq[|s.deq|])); }
    }
    forall i | |s'.deq| <= i < |s'.enq| - 1 && s'.enq[i] in s'.cells && s'.cells[s'.enq[i]].next.None?
      ensures Storing(s', EnqLink(s'.enq[i + 1], s'.enq[i]))
    {
      if i < |s.enq| - 1 {
        assert s.enq[i] == s'.enq[i] && s.enq[i + 1] == s'.enq[i + 1];
        StoringStays(s, s', t, l, EnqLink(s.enq[i + 1], s.enq[i]));
      }
    }
  }

  lemma StoreMends(s: State, t: Thread, x: Node)
    requires Inv(s) && Mending(s) && t in s.threads && s.threads[t] == EnqTail(x)
    ensures Mending(Move(s, t, Idle).(tail := Some(x)))
  {
    var s' := Move(s, t, Idle).(tail := Some(x));
    assert ThreadOk(s, s.threads[t]);
    assert Live(s');
    forall i | |s'.deq| <= i < |s'.enq| - 1 && s'.enq[i] in s'.cells && s'.cells[s'.enq[i]].next.None?
      ensures Storing(s', EnqLink(s'.enq[i + 1], s'.enq[i]))
    {
      StoringStays(s, s', t, Idle, EnqLink(s.enq[i + 1], s.enq[i]));
    }
  }

  lemma LinkMends(s: State, t: Thread, x: Node, prev: Node)
    requires Inv(s) && Mending(s) && t in s.threads && s.threads[t] == EnqLink(x, prev) && prev in s.cells
    ensures Mending(Linked(s, t, x, prev))
  {
    var s' := Linked(s, t, x, prev);
    if |s'.deq| < |s'.enq| && !Live(s') {
      StoringStays(s, s', t, Idle, EnqTail(s.enq[|s.deq|]));
    }
    forall i | |s'.deq| <= i < |s'.enq| - 1 && s'.enq[i] in s'.cells && s'.cells[s'.enq[i]].next.None?
      ensures Storing(s', EnqLink(s'.enq[i + 1], s'.enq[i]))
    {
      assert s.enq[i] != prev;
      StoringStays(s, s', t, Idle, EnqLink(s.enq[i + 1], s.enq[i]));
    }
  }

  lemma ClearMends(s: State, s': State, x: Node)
    requires Mending(s) && |s.deq| + 1 == |s.enq| && s'.enq == s.enq && s'.deq == s.deq + [x]
    ensures Mending(s')
  {
  }

  /** The steps that store, remove and enqueue nothing. */
  ghost predicate Passive(s: State, a: Action)
    requires a.thread in s.threads
  {
    var l := s.threads[a.thread];
    && !l.EnqTail? && !l.EnqLink? && !(l.EnqSwap? && s.head == l.oldHead)
    && !(l.DeqAdvance? && s.tail == Some(l.last)) && !(l.DeqClear? && s.head == Some(l.last))
  }

  lemma PassiveStepFrame(s: State, a: Action)
    requires Enabled(s, a) && Sound(s, a.thread) && Passive(s, a)
    ensures var s' := Step(s, a);
            && s'.enq == s.enq && s'.deq == s.deq && (s.threads[a.thread].DeqClearTail? || s'.tail == s.tail)
            && a.thread in s'.threads && s'.threads == s.threads[a.thread := s'.threads[a.thread]]
            && forall x :: x in s.cells ==> x in s'.cells && s'.cells[x] == s.cells[x]
  {
  }

  lemma PassiveStepStaysLive(s: State, a: Action)
    requires Inv(s) && Enabled(s, a) && Sound(s, a.thread) && Passive(s, a) && Live(s)
    ensures Live(Step(s, a))
  {
    PassiveStepFrame(s, a);
    var l := s.threads[a.thread];
    if l.DeqClearTail? {
      assert ThreadOk(s, l);
      ClearTailKeepsShared(s, Step(s, a), l.last);
    }
  }

  lemma OtherStepMends(s: State, a: Action)
    requires Inv(s) && Mending(s) && Enabled(s, a) && Sound(s, a.thread) && Passive(s, a)
    ensures Mending(Step(s, a))
  {
    PassiveStepFrame(s, a);
    if Live(s) { PassiveStepStaysLive(s, a); }
    FrameMending(s, Step(s, a), a.thread, Step(s, a).threads[a.thread]);
  }

  lemma RemovalStepMends(s: State, a: Action)
    requires Inv(s) && Mending(s) && Enabled(s, a) && Sound(s, a.thread)
    requires var l := s.threads[a.thread];
             (l.DeqAdvance? && s.tail == Some(l.last)) || (l.DeqClear? && s.head == Some(l.last))
    ensures Mending(Step(s, a))
  {
    var t := a.thread;
    var l, s' := s.threads[t], Step(s, a);
    assert ThreadOk(s, l);
    if l.DeqAdvance? {
      AdvanceRemovesOldest(s, l.last, l.next);
      FrameMending(s, s', t, s'.threads[t]);
    } else {
      ClearRemovesSole(s, l.last);
      ClearMends(s, s', l.last);
    }
  }

  lemma StepKeepsMending(s: State, a: Action)
    requires Inv(s) && Mending(s) && Enabled(s, a) && Sound(s, a.thread)
    ensures Mending(Step(s, a))
  {
    var t := a.thread;
    var l := s.threads[t];
    if l.EnqSwap? && s.head == l.oldHead {
      PushMends(s, t, l.node);
    } else if l.EnqTail? {
      StoreMends(s, t, l.node);
    } else if l.EnqLink? {
      LinkMends(s, t, l.node, l.prev);
    } else if (l.DeqAdvance? && s.tail == Some(l.last)) || (l.DeqClear? && s.head == Some(l.last)) {
      RemovalStepMends(s, a);
    } else {
      OtherStepMends(s, a);
    }
  }

  lemma {:induction false} RunKeepsBoth(s: State, run: seq<Action>)
    requires Inv(s) && SingleDelivery(s) && Mending(s) && AllowedRun(s, run)
    ensures Inv(Run(s, run)) && SingleDelivery(Run(s, run)) && Mending(Run(s, run))
    decreases |run|
  {
    if run != [] {
      StepKeepsDelivery(s, run[0]);
      StepKeepsMending(s, run[0]);
      StepKeepsInv(s, run[0]);
      RunKeepsBoth(Step(s, run[0]), run[1..]);
    }
  }

  lemma StartIsOk(threads: set<Thread>)
    ensures Inv(Init(threads)) && SingleDelivery(Init(threads)) && Mending(Init(threads))
  {
  }

  /** No node is handed out twice, and only removed nodes are handed out. */
  lemma DeliveredAtMostOnce(threads: set<Thread>, run: seq<Action>)
    requires AllowedRun(Init(threads), run)
    ensures SingleDelivery(Run(Init(threads), run))
  {
    StartIsOk(threads);
    RunKeepsBoth(Init(threads), run);
  }

  ghost predicate Quiet(s: State) {
    forall t :: t in s.threads ==> !s.threads[t].EnqTail? && !s.threads[t].EnqLink?
  }

  /** `_tail` is at the oldest queued node and the next pointers lead through all the others in order. */
  ghost predicate Chained(s: State) {
    && (|s.deq| < |s.enq| ==> s.tail == Some(s.enq[|s.deq|]))
    && forall i :: |s.deq| <= i < |s.enq| - 1 ==> s.enq[i] in s.cells && s.cells[s.enq[i]].next == Some(s.enq[i + 1])
  }

  lemma QuietIsChained(s: State)
    requires SharedOk(s) && Mending(s) && Quiet(s)
    ensures Chained(s)
  {
    forall i | |s.deq| <= i < |s.enq| - 1 ensures s.enq[i] in s.cells && s.cells[s.enq[i]].next == Some(s.enq[i + 1]) {
      assert s.enq[i] in s.cells;
    }
  }

  /** Once no enqueuer is between its swap of `_head` and its store, everything queued can be reached. */
  lemma ReachableWhenQuiet(threads: set<Thread>, run: seq<Action>)
    requires AllowedRun(Init(threads), run) && Quiet(Run(Init(threads), run))
    ensures Chained(Run(Init(threads), run))
  {
    StartIsOk(threads);
    RunKeepsBoth(Init(threads), run);
    QuietIsChained(Run(Init(threads), run));
  }
}
