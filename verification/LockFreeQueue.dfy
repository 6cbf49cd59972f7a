/**
 * `LockfreeQueue` as interleaved loads, stores and compare-and-swaps of any number of threads. Nodes are never reused.
 * The nodes removed, in the order of the compare-and-swaps that remove them, are always a prefix of the nodes
 * enqueued, in the order of the compare-and-swaps on `_head`.
 */
module LockFreeQueue {
  import opened Types

  type Node = nat
  type Thread = nat

  datatype Cell = Cell(value: int, next: Option<Node>)

  /** Where a thread stands in `enqueue` or `dequeue`, with the locals it will still use. */
  datatype Local =
    | Idle
    | EnqLoad(node: Node)                                // old_head = _head
    | EnqSwap(node: Node, oldHead: Option<Node>)         // CAS(_head, old_head, new_head)
    | EnqTail(node: Node)                                // _tail = new_head
    | EnqLink(node: Node, prev: Node)                    // old_head->next = new_head
    | DeqTail                                            // old_tail = _tail
    | DeqHead(oldTail: Option<Node>)                     // old_head = _head, then the test for empty
    | DeqTest(last: Node, oldHead: Option<Node>)         // old_tail->next != NULL ?
    | DeqNext(last: Node)                                // load old_tail->next again
    | DeqAdvance(last: Node, next: Option<Node>)         // CAS(_tail, old_tail, old_tail->next)
    | DeqClear(last: Node)                               // CAS(_head, old_tail, NULL)
    | DeqClearTail(last: Node)                           // CAS(_tail, old_tail, NULL)
    | DeqRead(last: Node)                                // value = old_tail->value

  datatype Command = Enqueue(value: int) | Dequeue

  datatype State = State(
    cells: map<Node, Cell>,
    head: Option<Node>,
    tail: Option<Node>,
    threads: map<Thread, Local>,
    enq: seq<Node>,         // in the order of the successful swaps of _head
    deq: seq<Node>,         // in the order of the successful removing swaps
    returned: seq<Node>,    // the nodes whose value dequeue has handed out, in the order it returns
    values: seq<int>)       // those values

  function Init(threads: set<Thread>): State {
    State(map[], None, None, map t | t in threads :: Idle, [], [], [], [])
  }

  /** One step of a thread. `command` matters to an idle thread only; `node` is what malloc returns for an Enqueue. */
  datatype Action = Action(thread: Thread, command: Command, node: Node)

  ghost predicate Enabled(s: State, a: Action) {
    && a.thread in s.threads
    && (s.threads[a.thread] == Idle && a.command.Enqueue? ==> a.node !in s.cells)
  }

  /** The node whose fields the thread's next step touches, if any. */
  function Touches(l: Local): Option<Node> {
    match l
    case EnqLink(_, prev) => Some(prev)
    case DeqTest(last, _) => Some(last)
    case DeqNext(last) => Some(last)
    case DeqRead(last) => Some(last)
    case _ => None
  }

  /** The next step touches a node that has been allocated. */
  ghost predicate Sound(s: State, t: Thread) {
    t in s.threads && (Touches(s.threads[t]).Some? ==> Touches(s.threads[t]).value in s.cells)
  }

  function Move(s: State, t: Thread, l: Local): State {
    s.(threads := s.threads[t := l])
  }

  ghost function Step(s: State, a: Action): State
    requires Enabled(s, a) && Sound(s, a.thread)
  {
    var t := a.thread;
    match s.threads[t]
    case Idle =>
      if a.command.Enqueue?
      then Move(s, t, EnqLoad(a.node)).(cells := s.cells[a.node := Cell(a.command.value, None)])
      else Move(s, t, DeqTail)
    case EnqLoad(x) => Move(s, t, EnqSwap(x, s.head))
    case EnqSwap(x, seen) =>
      if s.head != seen then Move(s, t, EnqLoad(x))
      else Move(s, t, if seen.None? then EnqTail(x) else EnqLink(x, seen.value)).(head := Some(x), enq := s.enq + [x])
    case EnqTail(x) => Move(s, t, Idle).(tail := Some(x))
    case EnqLink(x, prev) => Move(s, t, Idle).(cells := s.cells[prev := s.cells[prev].(next := Some(x))])
    case DeqTail => Move(s, t, DeqHead(s.tail))
    case DeqHead(seen) => Move(s, t, if seen.None? then Idle else DeqTest(seen.value, s.head))
    case DeqTest(x, oldHead) =>
      Move(s, t, if s.cells[x].next.Some? then DeqNext(x) else if oldHead == Some(x) then DeqClear(x) else DeqTail)
    case DeqNext(x) => Move(s, t, DeqAdvance(x, s.cells[x].next))
    case DeqAdvance(x, next) =>
      if s.tail != Some(x) then Move(s, t, DeqTail)
      else Move(s, t, DeqRead(x)).(tail := next, deq := s.deq + [x])
    case DeqClear(x) =>
      if s.head != Some(x) then Move(s, t, DeqTail)
      else Move(s, t, DeqClearTail(x)).(head := None, deq := s.deq + [x])
    case DeqClearTail(x) => Move(s, t, DeqRead(x)).(tail := if s.tail == Some(x) then None else s.tail)
    case DeqRead(x) => Move(s, t, Idle).(returned := s.returned + [x], values := s.values + [s.cells[x].value])
  }

  ghost predicate AllowedRun(s: State, run: seq<Action>)
    decreases |run|
  {
    run == [] || (Enabled(s, run[0]) && Sound(s, run[0].thread) && AllowedRun(Step(s, run[0]), run[1..]))
  }

  ghost function Run(s: State, run: seq<Action>): State
    requires AllowedRun(s, run)
    decreases |run|
  {
    if run == [] then s else Run(Step(s, run[0]), run[1..])
  }

  /** `_tail` points at the next node to be removed. */
  ghost predicate Live(s: State) {
    |s.deq| < |s.enq| && s.tail == Some(s.enq[|s.deq|])
  }

  /** The last removal emptied the queue, and no store to `_tail` has followed yet. */
  ghost predicate Stale(s: State) {
    && (s.tail.None? || (|s.deq| > 0 && s.tail == Some(s.deq[|s.deq| - 1])))
    && (|s.deq| > 0 && s.deq[|s.deq| - 1] in s.cells ==> s.cells[s.deq[|s.deq| - 1]].next.None?)
  }

  ghost predicate Logged(s: State) {
    && s.deq <= s.enq
    && (forall i, j :: 0 <= i < j < |s.enq| ==> s.enq[i] != s.enq[j])
    && (forall i :: 0 <= i < |s.enq| ==> s.enq[i] in s.cells)
  }

  ghost predicate HeadOk(s: State) {
    if |s.deq| == |s.enq| then s.head.None? else s.enq != [] && s.head == Some(s.enq[|s.enq| - 1])
  }

  /** A next pointer, once set, leads to the node enqueued right after; the newest node has none. */
  ghost predicate LinksOk(s: State) {
    forall i :: 0 <= i < |s.enq| && s.enq[i] in s.cells && s.cells[s.enq[i]].next.Some? ==>
      i + 1 < |s.enq| && s.cells[s.enq[i]].next == Some(s.enq[i + 1])
  }

  /** `x` is where `_tail` points, or has pointed before. */
  ghost predicate Passed(s: State, x: Node) {
    exists j :: 0 <= j < |s.enq| && s.enq[j] == x && (j < |s.deq| || (j == |s.deq| && Live(s)))
  }

  ghost predicate Removed(s: State, x: Node) {
    x in s.deq
  }

  /** A pending link joins two neighbours that are both still queued. */
  ghost predicate LinkPending(s: State, prev: Node, x: Node) {
    && prev in s.cells && s.cells[prev].next.None?
    && exists i :: |s.deq| <= i < |s.enq| - 1 && s.enq[i] == prev && s.enq[i + 1] == x
  }

  ghost predicate ThreadOk(s: State, l: Local) {
    match l
    case Idle => true
    case EnqLoad(x) => x in s.cells && x !in s.enq && s.cells[x].next.None?
    case EnqSwap(x, seen) => x in s.cells && x !in s.enq && s.cells[x].next.None?
    case EnqTail(x) => |s.deq| < |s.enq| && x == s.enq[|s.deq|] && Stale(s)
    case EnqLink(x, prev) => LinkPending(s, prev, x)
    case DeqTail => true
    case DeqHead(seen) => seen.Some? ==> Passed(s, seen.value)
    case DeqTest(x, _) => Passed(s, x)
    case DeqNext(x) => Passed(s, x) && x in s.cells && s.cells[x].next.Some?
    case DeqAdvance(x, next) => Passed(s, x) && x in s.cells && next.Some? && s.cells[x].next == next
    case DeqClear(x) => Passed(s, x)
    case DeqClearTail(x) => Removed(s, x)
    case DeqRead(x) => Removed(s, x)
  }

  /** The node a thread is enqueuing, if any. */
  function Own(l: Local): Option<Node> {
    match l
    case EnqLoad(x) => Some(x)
    case EnqSwap(x, _) => Some(x)
    case EnqTail(x) => Some(x)
    case EnqLink(x, _) => Some(x)
    case _ => None
  }

  ghost predicate OwnNodes(s: State) {
    forall t, u :: t in s.threads && u in s.threads && t != u && Own(s.threads[t]).Some? ==>
      Own(s.threads[t]) != Own(s.threads[u])
  }

  /** Everything but the threads' own facts. */
  ghost predicate SharedOk(s: State) {
    Logged(s) && HeadOk(s) && LinksOk(s) && (Live(s) || Stale(s))
  }

  ghost predicate Inv(s: State) {
    SharedOk(s) && OwnNodes(s) && forall t :: t in s.threads ==> ThreadOk(s, s.threads[t])
  }

  /** How the shared part may change: logs only grow, `_tail` only moves on, queued links stay. */
  ghost predicate Advances(s: State, s': State) {
    && s.enq <= s'.enq && s.deq <= s'.deq
    && (Live(s) ==> Live(s') || |s.deq| < |s'.deq|)
    && (forall x :: x in s.cells ==> x in s'.cells && (s.cells[x].next.Some? ==> s'.cells[x].next == s.cells[x].next))
  }

  lemma PassedStays(s: State, s': State, x: Node)
    requires Logged(s) && Logged(s') && Advances(s, s') && Passed(s, x)
    ensures Passed(s', x)
  {
    var j :| 0 <= j < |s.enq| && s.enq[j] == x && (j < |s.deq| || (j == |s.deq| && Live(s)));
    assert s'.enq[j] == x;
  }

  lemma DequeuerStays(s: State, s': State, l: Local)
    requires Logged(s) && Logged(s') && Advances(s, s') && ThreadOk(s, l) && Own(l).None?
    ensures ThreadOk(s', l)
  {
    match l
    case DeqHead(seen) => if seen.Some? { PassedStays(s, s', seen.value); }
    case DeqTest(x, _) => PassedStays(s, s', x);
    case DeqNext(x) => PassedStays(s, s', x);
    case DeqAdvance(x, _) => PassedStays(s, s', x);
    case DeqClear(x) => PassedStays(s, s', x);
    case _ =>
  }

  lemma LinkPendingStays(s: State, s': State, prev: Node, x: Node)
    requires LinkPending(s, prev, x) && s.enq <= s'.enq && |s'.deq| == |s.deq|
    requires prev in s'.cells && s'.cells[prev].next.None?
    ensures LinkPending(s', prev, x)
  {
    var i :| |s.deq| <= i < |s.enq| - 1 && s.enq[i] == prev && s.enq[i + 1] == x;
    assert s'.enq[i] == prev && s'.enq[i + 1] == x;
  }

  /** Steps that touch only the thread's own locals. */
  lemma LocalStepKeepsInv(s: State, t: Thread, l: Local)
    requires Inv(s) && t in s.threads && ThreadOk(s, l)
    requires Own(l).None? || Own(l) == Own(s.threads[t])
    ensures Inv(Move(s, t, l))
  {
    var s' := Move(s, t, l);
    SameShared(s, s');
    SameSharedSameThread(s, s', l);
    forall u | u in s.threads && u != t ensures ThreadOk(s', s.threads[u]) {
      SameSharedSameThread(s, s', s.threads[u]);
    }
  }

  lemma SameShared(s: State, s': State)
    requires SharedOk(s) && s' == s.(threads := s'.threads, returned := s'.returned, values := s'.values)
    ensures SharedOk(s')
  {
  }

  lemma SameSharedSameThread(s: State, s': State, l: Local)
    requires ThreadOk(s, l) && s' == s.(threads := s'.threads, returned := s'.returned, values := s'.values)
    ensures ThreadOk(s', l)
  {
    match l
    case EnqLink(x, prev) => LinkPendingStays(s, s', prev, x);
    case DeqHead(seen) => if seen.Some? { SamePassed(s, s', seen.value); }
    case DeqTest(x, _) => SamePassed(s, s', x);
    case DeqNext(x) => SamePassed(s, s', x);
    case DeqAdvance(x, _) => SamePassed(s, s', x);
    case DeqClear(x) => SamePassed(s, s', x);
    case _ =>
  }

  lemma SamePassed(s: State, s': State, x: Node)
    requires Passed(s, x) && s'.enq == s.enq && s'.deq == s.deq && s'.tail == s.tail
    ensures Passed(s', x)
  {
  }

  /** `s'` is `s` with one new node, which no other node or pointer mentions. */
  ghost predicate Allocated(s: State, s': State, x: Node, value: int) {
    x !in s.cells && s' == s.(threads := s'.threads, cells := s.cells[x := Cell(value, None)])
  }

  lemma AllocateKeepsShared(s: State, s': State, x: Node, value: int)
    requires SharedOk(s) && Allocated(s, s', x, value)
    ensures SharedOk(s') && Advances(s, s') && x !in s.enq
  {
  }

  lemma AllocateKeepsOwn(s: State, s': State, t: Thread, x: Node)
    requires Inv(s) && t in s.threads && x !in s.cells && s'.threads == s.threads[t := EnqLoad(x)]
    ensures OwnNodes(s')
  {
    forall u | u in s.threads && Own(s.threads[u]).Some? ensures Own(s.threads[u]) != Some(x) {}
  }

  lemma AllocateKeepsInv(s: State, t: Thread, x: Node, value: int)
    requires Inv(s) && t in s.threads && s.threads[t] == Idle && x !in s.cells
    ensures Inv(Move(s, t, EnqLoad(x)).(cells := s.cells[x := Cell(value, None)]))
  {
    var s' := Move(s, t, EnqLoad(x)).(cells := s.cells[x := Cell(value, None)]);
    AllocateKeepsShared(s, s', x, value);
    AllocateKeepsOwn(s, s', t, x);
    forall u | u in s.threads && u != t ensures ThreadOk(s', s.threads[u]) {}
  }

  ghost function Pushed(s: State, t: Thread, x: Node): State {
    Move(s, t, if s.head.None? then EnqTail(x) else EnqLink(x, s.head.value)).(head := Some(x), enq := s.enq + [x])
  }

  lemma PushKeepsShared(s: State, t: Thread, x: Node)
    requires SharedOk(s) && x in s.cells && x !in s.enq && s.cells[x].next.None?
    ensures SharedOk(Pushed(s, t, x)) && Advances(s, Pushed(s, t, x))
  {
    var s' := Pushed(s, t, x);
    assert forall i :: 0 <= i < |s.enq| ==> s'.enq[i] == s.enq[i];
  }

  lemma PushKeepsPusher(s: State, t: Thread, x: Node)
    requires SharedOk(s) && SharedOk(Pushed(s, t, x)) && x in s.cells && x !in s.enq
    ensures ThreadOk(Pushed(s, t, x), Pushed(s, t, x).threads[t])
  {
    var s' := Pushed(s, t, x);
    if s.head.Some? {
      var i := |s.enq| - 1;
      assert s'.enq[i] == s.head.value && s'.enq[i + 1] == x;
      assert LinkPending(s', s.head.value, x);
    }
  }

  lemma PushKeepsThread(s: State, t: Thread, x: Node, l: Local)
    requires SharedOk(s) && SharedOk(Pushed(s, t, x)) && Advances(s, Pushed(s, t, x))
    requires ThreadOk(s, l) && Own(l) != Some(x)
    ensures ThreadOk(Pushed(s, t, x), l)
  {
    var s' := Pushed(s, t, x);
    match l
    case EnqLink(y, prev) => LinkPendingStays(s, s', prev, y);
    case EnqLoad(_) =>
    case EnqSwap(_, _) =>
    case EnqTail(_) =>
    case _ => DequeuerStays(s, s', l);
  }

  lemma PushKeepsInv(s: State, t: Thread, x: Node)
    requires Inv(s) && t in s.threads && s.threads[t].EnqSwap? && s.threads[t].node == x
    ensures Inv(Pushed(s, t, x))
  {
    var s' := Pushed(s, t, x);
    assert ThreadOk(s, s.threads[t]);
    PushKeepsShared(s, t, x);
    PushKeepsPusher(s, t, x);
    forall u | u in s.threads && u != t ensures ThreadOk(s', s.threads[u]) {
      assert Own(s.threads[u]) != Own(s.threads[t]);
      PushKeepsThread(s, t, x, s.threads[u]);
    }
  }

  /** A store to `_tail` leaves the facts of the other threads standing. */
  lemma TailStoreSparesThread(s: State, s': State, l: Local)
    requires Logged(s) && Logged(s') && Advances(s, s') && ThreadOk(s, l)
    requires s'.enq == s.enq && s'.deq == s.deq && s'.cells == s.cells && (l.EnqTail? ==> Stale(s'))
    ensures ThreadOk(s', l)
  {
    match l
    case EnqLink(y, prev) => LinkPendingStays(s, s', prev, y);
    case EnqLoad(_) =>
    case EnqSwap(_, _) =>
    case EnqTail(_) =>
    case _ => DequeuerStays(s, s', l);
  }

  lemma StoreTailKeepsInv(s: State, t: Thread, x: Node)
    requires Inv(s) && t in s.threads && s.threads[t] == EnqTail(x)
    ensures Inv(Move(s, t, Idle).(tail := Some(x)))
  {
    var s' := Move(s, t, Idle).(tail := Some(x));
    assert ThreadOk(s, s.threads[t]);
    forall u | u in s.threads && u != t ensures ThreadOk(s', s.threads[u]) {
      assert Own(s.threads[u]) != Own(s.threads[t]);
      TailStoreSparesThread(s, s', s.threads[u]);
    }
  }

  ghost function Linked(s: State, t: Thread, x: Node, prev: Node): State
    requires prev in s.cells
  {
    Move(s, t, Idle).(cells := s.cells[prev := s.cells[prev].(next := Some(x))])
  }

  lemma LinkKeepsLinks(s: State, t: Thread, x: Node, prev: Node)
    requires SharedOk(s) && LinkPending(s, prev, x)
    ensures LinksOk(Linked(s, t, x, prev)) && prev !in s.deq && prev in s.enq
  {
    var i :| |s.deq| <= i < |s.enq| - 1 && s.enq[i] == prev && s.enq[i + 1] == x;
    var s' := Linked(s, t, x, prev);
    forall j | 0 <= j < |s.enq| && s.enq[j] in s'.cells && s'.cells[s.enq[j]].next.Some?
      ensures j + 1 < |s.enq| && s'.cells[s.enq[j]].next == Some(s.enq[j + 1])
    {
      assert j != i ==> s.enq[j] != prev;
    }
  }

  lemma LinkKeepsShared(s: State, t: Thread, x: Node, prev: Node)
    requires SharedOk(s) && LinkPending(s, prev, x)
    ensures SharedOk(Linked(s, t, x, prev)) && Advances(s, Linked(s, t, x, prev))
    ensures prev !in s.deq && prev in s.enq
  {
    LinkKeepsLinks(s, t, x, prev);
    var s' := Linked(s, t, x, prev);
    assert Logged(s') && HeadOk(s');
    assert Stale(s) ==> |s.deq| == 0 || s.deq[|s.deq| - 1] in s.deq;
  }

  lemma LinkKeepsInv(s: State, t: Thread, x: Node, prev: Node)
    requires Inv(s) && t in s.threads && s.threads[t] == EnqLink(x, prev) && prev in s.cells
    ensures Inv(Linked(s, t, x, prev))
  {
    var s' := Linked(s, t, x, prev);
    assert ThreadOk(s, s.threads[t]);
    LinkKeepsShared(s, t, x, prev);
    forall u | u in s.threads && u != t ensures ThreadOk(s', s.threads[u]) {
      assert Own(s.threads[u]) != Own(s.threads[t]);
    }
  }

  /** Only the oldest queued node can be removed by moving `_tail` on. */
  lemma AdvanceRemovesOldest(s: State, x: Node, next: Option<Node>)
    requires SharedOk(s) && ThreadOk(s, DeqAdvance(x, next)) && s.tail == Some(x)
    ensures Live(s) && |s.deq| + 1 < |s.enq| && x == s.enq[|s.deq|] && next == Some(s.enq[|s.deq| + 1])
  {
  }

  /** Only the sole queued node can be removed by clearing `_head`. */
  lemma ClearRemovesSole(s: State, x: Node)
    requires SharedOk(s) && ThreadOk(s, DeqClear(x)) && s.head == Some(x)
    ensures Live(s) && |s.deq| + 1 == |s.enq| && x == s.enq[|s.deq|]
  {
  }

  /** `s'` is `s` with the oldest queued node removed. */
  ghost predicate RemovedOldest(s: State, s': State, x: Node) {
    && Live(s) && x == s.enq[|s.deq|] && s'.enq == s.enq && s'.deq == s.deq + [x] && s'.cells == s.cells
    && x in s.cells && (s.cells[x].next.Some? || |s'.deq| == |s.enq|)
  }

  lemma AdvanceKeepsShared(s: State, s': State, x: Node, next: Option<Node>)
    requires SharedOk(s) && ThreadOk(s, DeqAdvance(x, next)) && s.tail == Some(x)
    requires s' == s.(threads := s'.threads, tail := next, deq := s.deq + [x])
    ensures SharedOk(s') && Advances(s, s') && RemovedOldest(s, s', x)
  {
    AdvanceRemovesOldest(s, x, next);
    assert Live(s');
  }

  lemma AdvanceKeepsInv(s: State, t: Thread, x: Node, next: Option<Node>)
    requires Inv(s) && t in s.threads && s.threads[t] == DeqAdvance(x, next) && s.tail == Some(x)
    ensures Inv(Move(s, t, DeqRead(x)).(tail := next, deq := s.deq + [x]))
  {
    var s' := Move(s, t, DeqRead(x)).(tail := next, deq := s.deq + [x]);
    assert ThreadOk(s, s.threads[t]);
    AdvanceKeepsShared(s, s', x, next);
    forall u | u in s.threads && u != t ensures ThreadOk(s', s.threads[u]) {}
  }

  lemma ClearKeepsInv(s: State, t: Thread, x: Node)
    requires Inv(s) && t in s.threads && s.threads[t] == DeqClear(x) && s.head == Some(x)
    ensures Inv(Move(s, t, DeqClearTail(x)).(head := None, deq := s.deq + [x]))
  {
    var s' := Move(s, t, DeqClearTail(x)).(head := None, deq := s.deq + [x]);
    assert ThreadOk(s, s.threads[t]);
    forall u | u in s.threads && u != t ensures ThreadOk(s', s.threads[u]) {}
  }

  lemma ClearTailKeepsShared(s: State, s': State, x: Node)
    requires SharedOk(s) && Removed(s, x)
    requires s' == s.(threads := s'.threads, tail := if s.tail == Some(x) then None else s.tail)
    ensures SharedOk(s') && Advances(s, s') && (Stale(s) ==> Stale(s'))
  {
    assert Live(s) ==> s.tail != Some(x);
  }

  lemma ClearTailKeepsInv(s: State, t: Thread, x: Node)
    requires Inv(s) && t in s.threads && s.threads[t] == DeqClearTail(x)
    ensures Inv(Move(s, t, DeqRead(x)).(tail := if s.tail == Some(x) then None else s.tail))
  {
    var s' := Move(s, t, DeqRead(x)).(tail := if s.tail == Some(x) then None else s.tail);
    assert ThreadOk(s, s.threads[t]);
    ClearTailKeepsShared(s, s', x);
    forall u | u in s.threads && u != t ensures ThreadOk(s', s.threads[u]) {
      TailStoreSparesThread(s, s', s.threads[u]);
    }
  }

  /** Looking around, up to the point where a node may be removed. */
  lemma LookStepKeepsInv(s: State, a: Action)
    requires Inv(s) && Enabled(s, a) && Sound(s, a.thread)
    requires var l := s.threads[a.thread]; l.DeqTail? || l.DeqHead? || l.DeqTest? || l.DeqNext?
    ensures Inv(Step(s, a))
  {
    var t := a.thread;
    assert ThreadOk(s, s.threads[t]);
    match s.threads[t]
    case DeqTail =>
      if s.tail.Some? { TailIsPassed(s); }
      LocalStepKeepsInv(s, t, DeqHead(s.tail));
    case DeqHead(seen) => LocalStepKeepsInv(s, t, if seen.None? then Idle else DeqTest(seen.value, s.head));
    case DeqTest(x, oldHead) =>
      LocalStepKeepsInv(s, t,
        if s.cells[x].next.Some? then DeqNext(x) else if oldHead == Some(x) then DeqClear(x) else DeqTail);
    case DeqNext(x) => LocalStepKeepsInv(s, t, DeqAdvance(x, s.cells[x].next));
  }

  lemma DequeuerStepKeepsInv(s: State, a: Action)
    requires Inv(s) && Enabled(s, a) && Sound(s, a.thread)
    requires Own(s.threads[a.thread]).None? && s.threads[a.thread] != Idle
    ensures Inv(Step(s, a))
  {
    var t := a.thread;
    assert ThreadOk(s, s.threads[t]);
    match s.threads[t]
    case DeqTail => LookStepKeepsInv(s, a);
    case DeqHead(_) => LookStepKeepsInv(s, a);
    case DeqTest(_, _) => LookStepKeepsInv(s, a);
    case DeqNext(_) => LookStepKeepsInv(s, a);
    case DeqAdvance(x, next) =>
      if s.tail != Some(x) { LocalStepKeepsInv(s, t, DeqTail); } else { AdvanceKeepsInv(s, t, x, next); }
    case DeqClear(x) =>
      if s.head != Some(x) { LocalStepKeepsInv(s, t, DeqTail); } else { ClearKeepsInv(s, t, x); }
    case DeqClearTail(x) => ClearTailKeepsInv(s, t, x);
    case DeqRead(x) =>
      LocalStepKeepsInv(s, t, Idle);
      ReturnsDoNotMatter(Move(s, t, Idle), Step(s, a));
  }

  lemma ReturnsDoNotMatter(s: State, s': State)
    requires Inv(s) && s' == s.(returned := s'.returned, values := s'.values)
    ensures Inv(s')
  {
    forall t | t in s'.threads ensures ThreadOk(s', s'.threads[t]) {
      SameSharedSameThread(s, s', s.threads[t]);
    }
  }

  lemma TailIsPassed(s: State)
    requires Logged(s) && (Live(s) || Stale(s)) && s.tail.Some?
    ensures Passed(s, s.tail.value)
  {
    if !Live(s) {
      assert s.enq[|s.deq| - 1] == s.tail.value;
    }
  }

  lemma EnqueuerStepKeepsInv(s: State, a: Action)
    requires Inv(s) && Enabled(s, a) && Sound(s, a.thread)
    requires (Own(s.threads[a.thread]).Some? || s.threads[a.thread] == Idle)
    ensures Inv(Step(s, a))
  {
    var t := a.thread;
    assert ThreadOk(s, s.threads[t]);
    match s.threads[t]
    case Idle =>
      if a.command.Enqueue? {
        AllocateKeepsInv(s, t, a.node, a.command.value);
      } else {
        LocalStepKeepsInv(s, t, DeqTail);
      }
    case EnqLoad(x) => LocalStepKeepsInv(s, t, EnqSwap(x, s.head));
    case EnqSwap(x, seen) =>
      if s.head != seen { LocalStepKeepsInv(s, t, EnqLoad(x)); } else { PushKeepsInv(s, t, x); }
    case EnqTail(x) => StoreTailKeepsInv(s, t, x);
    case EnqLink(x, prev) => LinkKeepsInv(s, t, x, prev);
  }

  lemma StepKeepsInv(s: State, a: Action)
    requires Inv(s) && Enabled(s, a) && Sound(s, a.thread)
    ensures Inv(Step(s, a))
  {
    if Own(s.threads[a.thread]).Some? || s.threads[a.thread] == Idle {
      EnqueuerStepKeepsInv(s, a);
    } else {
      DequeuerStepKeepsInv(s, a);
    }
  }

  lemma {:induction false} RunKeepsInv(s: State, run: seq<Action>)
    requires Inv(s) && AllowedRun(s, run)
    ensures Inv(Run(s, run))
    decreases |run|
  {
    if run != [] {
      StepKeepsInv(s, run[0]);
      RunKeepsInv(Step(s, run[0]), run[1..]);
    }
  }

  /**
   * Queue order: in every interleaving, the nodes removed are a prefix of the nodes enqueued, each node once, so
   * nothing is lost, duplicated or reordered.
   */
  lemma RemovedIsPrefixOfEnqueued(threads: set<Thread>, run: seq<Action>)
    requires AllowedRun(Init(threads), run)
    ensures var s := Run(Init(threads), run);
            && s.deq <= s.enq
            && forall i, j :: 0 <= i < j < |s.enq| ==> s.enq[i] != s.enq[j]
  {
    RunKeepsInv(Init(threads), run);
  }

  lemma NeverDangling(s: State, t: Thread)
    requires Inv(s) && t in s.threads
    ensures Sound(s, t)
  {
    assert ThreadOk(s, s.threads[t]);
  }

  /** In every interleaving, no thread ever follows a pointer to a node that was not allocated. */
  lemma PointersAreSound(threads: set<Thread>, run: seq<Action>, t: Thread)
    requires AllowedRun(Init(threads), run) && t in Run(Init(threads), run).threads
    ensures Sound(Run(Init(threads), run), t)
  {
    RunKeepsInv(Init(threads), run);
    NeverDangling(Run(Init(threads), run), t);
  }
}
