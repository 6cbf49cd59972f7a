/** The values that pass through the lock-free queue: what a caller is handed is what some caller put in, in order. */
module LockFreeValues {
  import opened Types
  import opened LockFreeQueue
  import opened LockFreeDelivery

  /**
   * What is seen from outside: the argument of each thread's latest enqueue, and the arguments of the enqueues whose
   * swap of `_head` has succeeded, in that order.
   */
  datatype Seen = Seen(args: map<Thread, int>, put: seq<int>)

  ghost function Observe(seen: Seen, s: State, a: Action): Seen
    requires Enabled(s, a) && Sound(s, a.thread)
  {
    Seen(
      if s.threads[a.thread] == Idle && a.command.Enqueue? then seen.args[a.thread := a.command.value] else seen.args,
      if |s.enq| < |Step(s, a).enq| && a.thread in seen.args then seen.put + [seen.args[a.thread]] else seen.put)
  }

  ghost function ObserveAll(seen: Seen, s: State, run: seq<Action>): Seen
    requires AllowedRun(s, run)
    decreases |run|
  {
    if run == [] then seen else ObserveAll(Observe(seen, s, run[0]), Step(s, run[0]), run[1..])
  }

  /** The node a thread has made and not yet put on the queue. */
  function Making(l: Local): Option<Node> {
    match l
    case EnqLoad(x) => Some(x)
    case EnqSwap(x, _) => Some(x)
    case _ => None
  }

  ghost predicate MakingOk(s: State, seen: Seen, t: Thread) {
    t in s.threads && Making(s.threads[t]).Some? ==>
      && t in seen.args && Making(s.threads[t]).value in s.cells
      && s.cells[Making(s.threads[t]).value].value == seen.args[t]
  }

  ghost predicate PutOk(s: State, put: seq<int>) {
    |put| == |s.enq| && forall i :: 0 <= i < |s.enq| ==> s.enq[i] in s.cells && s.cells[s.enq[i]].value == put[i]
  }

  ghost predicate ReturnedOk(s: State) {
    && |s.values| == |s.returned|
    && forall i :: 0 <= i < |s.returned| ==> s.returned[i] in s.cells && s.cells[s.returned[i]].value == s.values[i]
  }

  ghost predicate ValuesOk(s: State, seen: Seen) {
    PutOk(s, seen.put) && ReturnedOk(s) && forall t :: MakingOk(s, seen, t)
  }

  /** No step changes the value of a node. */
  lemma CellsKeepValues(s: State, a: Action, x: Node)
    requires Enabled(s, a) && Sound(s, a.thread) && x in s.cells
    ensures x in Step(s, a).cells && Step(s, a).cells[x].value == s.cells[x].value
  {
  }

  lemma AllKeepValues(s: State, a: Action)
    requires Enabled(s, a) && Sound(s, a.thread)
    ensures forall x :: x in s.cells ==> x in Step(s, a).cells && Step(s, a).cells[x].value == s.cells[x].value
  {
    forall x | x in s.cells ensures x in Step(s, a).cells && Step(s, a).cells[x].value == s.cells[x].value {
      CellsKeepValues(s, a, x);
    }
  }

  lemma PutStep(s: State, seen: Seen, a: Action)
    requires Enabled(s, a) && Sound(s, a.thread) && PutOk(s, seen.put) && MakingOk(s, seen, a.thread)
    ensures PutOk(Step(s, a), Observe(seen, s, a).put)
  {
    AllKeepValues(s, a);
    var s', put' := Step(s, a), Observe(seen, s, a).put;
    EnqGrows(s, a);
    forall i | 0 <= i < |s'.enq| ensures s'.enq[i] in s'.cells && s'.cells[s'.enq[i]].value == put'[i] {
      if i < |s.enq| {
        assert s'.enq[i] == s.enq[i] && put'[i] == seen.put[i];
      }
    }
  }

  /** Only a thread that has made a node can put one on the queue, and it is that node. */
  lemma EnqGrows(s: State, a: Action)
    requires Enabled(s, a) && Sound(s, a.thread)
    ensures var s' := Step(s, a);
            s'.enq == s.enq ||
            (Making(s.threads[a.thread]).Some? && s'.enq == s.enq + [Making(s.threads[a.thread]).value])
  {
  }

  lemma ReturnedGrows(s: State, a: Action)
    requires Enabled(s, a) && Sound(s, a.thread)
    ensures var s' := Step(s, a);
            || (s'.returned == s.returned && s'.values == s.values)
            || exists x :: x in s.cells && s'.returned == s.returned + [x] && s'.values == s.values + [s.cells[x].value]
  {
    if s.threads[a.thread].DeqRead? {
      assert s.threads[a.thread].last in s.cells;
    }
  }

  lemma ReturnedStep(s: State, a: Action)
    requires Enabled(s, a) && Sound(s, a.thread) && ReturnedOk(s)
    ensures ReturnedOk(Step(s, a))
  {
    AllKeepValues(s, a);
    ReturnedGrows(s, a);
  }

  lemma MakingStep(s: State, seen: Seen, a: Action, t: Thread)
    requires Enabled(s, a) && Sound(s, a.thread) && MakingOk(s, seen, t)
    ensures MakingOk(Step(s, a), Observe(seen, s, a), t)
  {
    AllKeepValues(s, a);
  }

  lemma StepKeepsValues(s: State, seen: Seen, a: Action)
    requires Enabled(s, a) && Sound(s, a.thread) && ValuesOk(s, seen)
    ensures ValuesOk(Step(s, a), Observe(seen, s, a))
  {
    PutStep(s, seen, a);
    ReturnedStep(s, a);
    forall t ensures MakingOk(Step(s, a), Observe(seen, s, a), t) {
      MakingStep(s, seen, a, t);
    }
  }

  lemma {:induction false} RunKeepsValues(s: State, seen: Seen, run: seq<Action>)
    requires ValuesOk(s, seen) && AllowedRun(s, run)
    ensures ValuesOk(Run(s, run), ObserveAll(seen, s, run))
    decreases |run|
  {
    if run != [] {
      StepKeepsValues(s, seen, run[0]);
      RunKeepsValues(Step(s, run[0]), Observe(seen, s, run[0]), run[1..]);
    }
  }

  /** The value a removed node was made with. */
  ghost function RemovedValues(s: State): seq<int>
    requires forall x :: x in s.deq ==> x in s.cells
  {
    seq(|s.deq|, i requires 0 <= i < |s.deq| => assert s.deq[i] in s.deq; s.cells[s.deq[i]].value)
  }

  lemma RemovedArePrefix(s: State, put: seq<int>)
    requires Logged(s) && PutOk(s, put)
    ensures (forall x :: x in s.deq ==> x in s.cells) && RemovedValues(s) <= put
  {
    forall j | 0 <= j < |s.deq| ensures s.deq[j] in s.cells && s.cells[s.deq[j]].value == put[j] {
      assert s.enq[j] == s.deq[j];
    }
  }

  /** The `i`th value handed out is the argument enqueued at the place of the node removed. */
  ghost predicate HandedOutInPlace(s: State, put: seq<int>, i: nat) {
    i < |s.returned| && i < |s.values| &&
    exists j :: 0 <= j < |s.deq| && j < |put| && s.deq[j] == s.returned[i] && s.values[i] == put[j]
  }

  lemma HandedOutIsPut(s: State, put: seq<int>, i: nat)
    requires Logged(s) && PutOk(s, put) && ReturnedOk(s) && i < |s.returned| && s.returned[i] in s.deq
    ensures HandedOutInPlace(s, put, i)
  {
    var j :| 0 <= j < |s.deq| && s.deq[j] == s.returned[i];
    assert s.enq[j] == s.deq[j];
  }

  lemma ReachableValues(threads: set<Thread>, run: seq<Action>)
    requires AllowedRun(Init(threads), run)
    ensures var s, put := Run(Init(threads), run), ObserveAll(Seen(map[], []), Init(threads), run).put;
            Logged(s) && SingleDelivery(s) && PutOk(s, put) && ReturnedOk(s)
  {
    StartIsOk(threads);
    RunKeepsBoth(Init(threads), run);
    RunKeepsValues(Init(threads), Seen(map[], []), run);
  }

  /**
   * Queue order, for values: in every interleaving, the values removed are a prefix of the arguments enqueued, and
   * every value that a caller has been handed is the argument enqueued at the place of the node the caller removed.
   */
  lemma ValuesRemovedArePrefix(threads: set<Thread>, run: seq<Action>)
    requires AllowedRun(Init(threads), run)
    ensures var s, put := Run(Init(threads), run), ObserveAll(Seen(map[], []), Init(threads), run).put;
            && |put| == |s.enq| && |s.values| == |s.returned|
            && (forall x :: x in s.deq ==> x in s.cells) && RemovedValues(s) <= put
            && forall i :: 0 <= i < |s.returned| ==> HandedOutInPlace(s, put, i)
  {
    var s, put := Run(Init(threads), run), ObserveAll(Seen(map[], []), Init(threads), run).put;
    ReachableValues(threads, run);
    RemovedArePrefix(s, put);
    forall i | 0 <= i < |s.returned| ensures HandedOutInPlace(s, put, i) {
      HandedOutIsPut(s, put, i);
    }
  }
}
