/**
 * The lock-ready handshake between `acquire_locks` on the lock thread and `lock_release` on the worker threads, one
 * atomic operation at a time. For every interleaving exactly one party starts the transaction, with every lock held.
 */
module CalvinDispatch {
  import opened Types

  /** How far one requested lock has come. From Popped on, the transaction is an owner of the row. */
  datatype Lock =
    | NotAsked
    | Waiting      // in the row's waiter list
    | Popped       // moved to the owners by a releaser that has not yet called decr_lr
    | Zeroed       // that releaser's decr_lr returned 0; its compare-and-swap is still to come
    | Held

  /** The program counter of `acquire_locks`, and of the scheduling loop after it. */
  datatype Pc =
    | Start
    | Next(i: nat)       // about to ask for lock i, or to leave the loop
    | Queued(i: nat)     // lock i's entry is in the list, the row latch still held
    | Cleared(i: nat)    // lock_ready has been cleared, the row latch still held
    | Test(zero: bool)   // the closing decr_lr has returned
    | Return
    | Done

  datatype State = State(
    locks: seq<Lock>,
    pc: Pc,
    rc: RC,
    ready: bool,         // lock_ready
    cnt: nat,            // lock_ready_cnt
    starts: nat)         // how often the transaction has been handed to a worker

  datatype Action =
    | LockThread(granted: bool)   // `granted` says whether a lock asked for is free
    | Pop(i: nat)
    | Decrement(i: nat)
    | Swap(i: nat)

  function Init(n: nat): State {
    State(seq(n, _ => NotAsked), Start, RCOK, false, 0, 0)
  }

  predicate Enabled(s: State, a: Action) {
    match a
    case LockThread(_) => s.pc != Done
    case Pop(i) => i < |s.locks| && s.locks[i] == Waiting
    case Decrement(i) => i < |s.locks| && s.locks[i] == Popped && s.cnt > 0
    case Swap(i) => i < |s.locks| && s.locks[i] == Zeroed
  }

  function Decr(n: nat): nat {
    if n == 0 then 0 else n - 1
  }

  function StepLockThread(s: State, granted: bool): State {
    match s.pc
    case Start => s.(cnt := s.cnt + 1, pc := Next(0))
    case Next(i) =>
      if i >= |s.locks| then s.(cnt := Decr(s.cnt), pc := Test(Decr(s.cnt) == 0))
      else if granted then s.(locks := s.locks[i := Held], pc := Next(i + 1))
      else s.(pc := Queued(i))
    case Queued(i) => s.(ready := false, pc := Cleared(i))
    case Cleared(i) =>
      if i >= |s.locks| then s
      else s.(locks := s.locks[i := Waiting], cnt := s.cnt + 1, rc := WAIT, pc := Next(i + 1))
    case Test(zero) =>
      if zero && !s.ready then s.(ready := true, rc := RCOK, pc := Return) else s.(pc := Return)
    case Return => s.(pc := Done, starts := if s.rc == RCOK then s.starts + 1 else s.starts)
    case Done => s
  }

  function Step(s: State, a: Action): State
    requires Enabled(s, a)
  {
    match a
    case LockThread(granted) => StepLockThread(s, granted)
    case Pop(i) => s.(locks := s.locks[i := Popped])
    case Decrement(i) => s.(cnt := s.cnt - 1, locks := s.locks[i := if s.cnt == 1 then Zeroed else Held])
    case Swap(i) =>
      if s.ready then s.(locks := s.locks[i := Held])
      else s.(locks := s.locks[i := Held], ready := true, starts := s.starts + 1)
  }

  ghost predicate AllowedRun(s: State, run: seq<Action>)
    decreases |run|
  {
    run == [] || (Enabled(s, run[0]) && AllowedRun(Step(s, run[0]), run[1..]))
  }

  ghost function Run(s: State, run: seq<Action>): State
    requires AllowedRun(s, run)
    decreases |run|
  {
    if run == [] then s else Run(Step(s, run[0]), run[1..])
  }

  predicate Outstanding(l: Lock) {
    l == Waiting || l == Popped
  }

  function Count(locks: seq<Lock>): (n: nat)
    ensures n == 0 <==> forall i :: 0 <= i < |locks| ==> !Outstanding(locks[i])
  {
    if locks == [] then 0 else (if Outstanding(locks[0]) then 1 else 0) + Count(locks[1..])
  }

  lemma {:induction false} CountUpdate(locks: seq<Lock>, i: nat, l: Lock)
    requires i < |locks|
    ensures Count(locks[i := l])
            == Count(locks) - (if Outstanding(locks[i]) then 1 else 0) + (if Outstanding(l) then 1 else 0)
  {
    if i > 0 {
      assert locks[i := l][1..] == locks[1..][i - 1 := l];
      CountUpdate(locks[1..], i - 1, l);
    }
  }

  /** The lock thread still holds the count it took on entry. */
  predicate Guarded(pc: Pc) {
    pc.Next? || pc.Queued? || pc.Cleared?
  }

  function Asked(s: State): nat {
    match s.pc
    case Start => 0
    case Next(i) => i
    case Queued(i) => i
    case Cleared(i) => i
    case _ => |s.locks|
  }

  ghost predicate Counted(s: State) {
    && s.cnt == Count(s.locks) + (if Guarded(s.pc) then 1 else 0)
    && Asked(s) <= |s.locks|
    && (s.pc.Queued? || s.pc.Cleared? ==> Asked(s) < |s.locks|)
    && (forall i :: 0 <= i < |s.locks| ==> (s.locks[i] == NotAsked <==> Asked(s) <= i))
    && (Guarded(s.pc) && Count(s.locks) > 0 ==> s.rc == WAIT)
  }

  ghost predicate NoneZeroed(s: State) {
    forall i :: 0 <= i < |s.locks| ==> s.locks[i] != Zeroed
  }

  /** Nobody has seen the count reach zero yet. */
  ghost predicate Open(s: State) {
    && !s.ready && s.starts == 0 && NoneZeroed(s)
    && (Guarded(s.pc) || s.pc == Start || Count(s.locks) > 0)
    && s.pc != Test(true)
    && (s.pc == Test(false) || s.pc == Return || s.pc == Done ==> s.rc == WAIT)
  }

  /** The lock thread saw zero and will hand the transaction over. */
  ghost predicate LockThreadWins(s: State) {
    && Count(s.locks) == 0 && s.starts == 0 && NoneZeroed(s)
    && ((s.pc == Test(true) && !s.ready) || (s.pc == Return && s.rc == RCOK && s.ready))
  }

  /** One releaser saw zero and will hand the transaction over. */
  ghost predicate ReleaserWins(s: State) {
    && Count(s.locks) == 0 && s.starts == 0 && !s.ready && s.rc == WAIT
    && (s.pc == Test(false) || s.pc == Return || s.pc == Done)
    && exists i ::
         && 0 <= i < |s.locks| && s.locks[i] == Zeroed
         && forall j :: 0 <= j < |s.locks| && s.locks[j] == Zeroed ==> j == i
  }

  ghost predicate Handed(s: State) {
    && Count(s.locks) == 0 && s.starts == 1 && s.ready && NoneZeroed(s)
    && (s.pc == Done || ((s.pc == Test(false) || s.pc == Return) && s.rc == WAIT))
  }

  ghost predicate Inv(s: State) {
    Counted(s) && (Open(s) || LockThreadWins(s) || ReleaserWins(s) || Handed(s))
  }

  lemma AskingKeepsInv(s: State, granted: bool)
    requires Inv(s) && s.pc.Next? && s.pc.i < |s.locks|
    ensures Inv(StepLockThread(s, granted))
  {
    if granted {
      CountUpdate(s.locks, s.pc.i, Held);
      assert Open(StepLockThread(s, granted));
    } else {
      assert Open(StepLockThread(s, granted));
    }
  }

  lemma QueueingKeepsInv(s: State)
    requires Inv(s) && s.pc.Cleared?
    ensures Inv(StepLockThread(s, false))
  {
    CountUpdate(s.locks, s.pc.i, Waiting);
    assert Open(StepLockThread(s, false));
  }

  lemma LeavingKeepsInv(s: State)
    requires Inv(s) && s.pc.Next? && s.pc.i >= |s.locks|
    ensures Inv(StepLockThread(s, false))
  {
    var s' := StepLockThread(s, false);
    assert if Count(s.locks) == 0 then LockThreadWins(s') else Open(s');
  }

  lemma ReturningKeepsInv(s: State)
    requires Inv(s) && (s.pc.Test? || s.pc == Return)
    ensures Inv(StepLockThread(s, false))
  {
    var s' := StepLockThread(s, false);
    if Open(s) {
      assert Open(s');
    } else if ReleaserWins(s) {
      assert ReleaserWins(s');
    } else if LockThreadWins(s) && s.pc.Test? {
      assert LockThreadWins(s');
    } else {
      assert Handed(s');
    }
  }

  lemma LockThreadKeepsInv(s: State, granted: bool)
    requires Inv(s) && s.pc != Done
    ensures Inv(StepLockThread(s, granted))
  {
    match s.pc {
      case Start => assert Open(StepLockThread(s, granted));
      case Next(i) => if i < |s.locks| { AskingKeepsInv(s, granted); } else { LeavingKeepsInv(s); }
      case Queued(_) => assert Open(StepLockThread(s, granted));
      case Cleared(_) => QueueingKeepsInv(s);
      case _ => ReturningKeepsInv(s);
    }
  }

  lemma PopKeepsInv(s: State, i: nat)
    requires Inv(s) && i < |s.locks| && s.locks[i] == Waiting
    ensures Inv(s.(locks := s.locks[i := Popped])) && !s.ready
  {
    CountUpdate(s.locks, i, Popped);
  }

  lemma DecrementKeepsInv(s: State, i: nat)
    requires Inv(s) && i < |s.locks| && s.locks[i] == Popped
    ensures s.cnt > 0 && Inv(Step(s, Decrement(i)))
  {
    assert Count(s.locks) > 0;
    if s.cnt == 1 { LastDecrementKeepsInv(s, i); } else { EarlyDecrementKeepsInv(s, i); }
  }

  lemma EarlyDecrementKeepsInv(s: State, i: nat)
    requires Inv(s) && i < |s.locks| && s.locks[i] == Popped && s.cnt > 1
    ensures Inv(Step(s, Decrement(i)))
  {
    CountUpdate(s.locks, i, Held);
    assert Open(s) && Open(Step(s, Decrement(i)));
  }

  lemma LastDecrementKeepsInv(s: State, i: nat)
    requires Inv(s) && i < |s.locks| && s.locks[i] == Popped && s.cnt == 1
    ensures Inv(Step(s, Decrement(i)))
  {
    CountUpdate(s.locks, i, Zeroed);
    var s' := Step(s, Decrement(i));
    assert Open(s) && s'.locks[i] == Zeroed;
    assert ReleaserWins(s');
  }

  lemma SwapKeepsInv(s: State, i: nat)
    requires Inv(s) && i < |s.locks| && s.locks[i] == Zeroed
    ensures Inv(Step(s, Swap(i))) && !s.ready
  {
    CountUpdate(s.locks, i, Held);
  }

  lemma StepKeepsInv(s: State, a: Action)
    requires Inv(s) && Enabled(s, a)
    ensures Inv(Step(s, a))
  {
    match a
    case LockThread(granted) => LockThreadKeepsInv(s, granted);
    case Pop(i) => PopKeepsInv(s, i);
    case Decrement(i) => DecrementKeepsInv(s, i);
    case Swap(i) => SwapKeepsInv(s, i);
  }

  lemma {:induction false} RunKeepsInv(s: State, run: seq<Action>)
    requires Inv(s) && AllowedRun(s, run)
    ensures Inv(Run(s, run)) && |Run(s, run).locks| == |s.locks|
    decreases |run|
  {
    if run != [] {
      StepKeepsInv(s, run[0]);
      RunKeepsInv(Step(s, run[0]), run[1..]);
    }
  }

  /** The transaction is never started twice, and once it is started it owns every lock it asked for. */
  lemma StartedOnceWithAllLocks(n: nat, run: seq<Action>)
    requires AllowedRun(Init(n), run)
    ensures var s := Run(Init(n), run);
            && s.starts <= 1
            && (s.starts == 1 ==> |s.locks| == n && forall i :: 0 <= i < n ==> s.locks[i] == Held)
  {
    RunKeepsInv(Init(n), run);
    var s := Run(Init(n), run);
    if s.starts == 1 {
      forall i | 0 <= i < n ensures s.locks[i] == Held {
        assert !Outstanding(s.locks[i]);
      }
    }
  }

  /** Nobody forgets to start it: when all parties have finished and no lock is outstanding, it has been started. */
  lemma StartedWhenQuiet(n: nat, run: seq<Action>)
    requires AllowedRun(Init(n), run)
    requires var s := Run(Init(n), run); s.pc == Done && forall i :: 0 <= i < |s.locks| ==> s.locks[i] == Held
    ensures Run(Init(n), run).starts == 1
  {
    RunKeepsInv(Init(n), run);
  }

  /** The source's own assertion: a waiter being moved to the owners always has `lock_ready` false. */
  lemma NotReadyWhenPopped(n: nat, run: seq<Action>, i: nat)
    requires AllowedRun(Init(n), run)
    requires var s := Run(Init(n), run);
             i < |s.locks| && (s.locks[i] == Waiting || s.locks[i] == Popped || s.locks[i] == Zeroed)
    ensures !Run(Init(n), run).ready
    ensures Run(Init(n), run).locks[i] == Popped ==> Run(Init(n), run).cnt > 0
  {
    RunKeepsInv(Init(n), run);
    var s := Run(Init(n), run);
    if Outstanding(s.locks[i]) {
      assert Count(s.locks) > 0;
    }
  }

  /** What is left to do for one lock, for all of them, and for the lock thread. */
  function LockWork(l: Lock): nat {
    match l
    case NotAsked => 7
    case Waiting => 3
    case Popped => 2
    case Zeroed => 1
    case Held => 0
  }

  function LocksWork(locks: seq<Lock>): nat {
    if locks == [] then 0 else LockWork(locks[0]) + LocksWork(locks[1..])
  }

  function PcWork(pc: Pc): nat {
    match pc
    case Start => 4
    case Next(_) => 3
    case Queued(_) => 2
    case Cleared(_) => 1
    case Test(_) => 2
    case Return => 1
    case Done => 0
  }

  function Work(s: State): nat {
    PcWork(s.pc) + LocksWork(s.locks)
  }

  lemma {:induction false} LocksWorkUpdate(locks: seq<Lock>, i: nat, l: Lock)
    requires i < |locks|
    ensures LocksWork(locks[i := l]) == LocksWork(locks) - LockWork(locks[i]) + LockWork(l)
  {
    if i > 0 {
      assert locks[i := l][1..] == locks[1..][i - 1 := l];
      LocksWorkUpdate(locks[1..], i - 1, l);
    }
  }

  /** Every step leaves less to do. */
  lemma StepDoesWork(s: State, a: Action)
    requires Counted(s) && Enabled(s, a)
    ensures Work(Step(s, a)) < Work(s)
  {
    match a
    case LockThread(_) => LockThreadDoesWork(s, a.granted);
    case Pop(i) => LocksWorkUpdate(s.locks, i, Popped);
    case Decrement(i) =>
      LocksWorkUpdate(s.locks, i, Zeroed);
      LocksWorkUpdate(s.locks, i, Held);
    case Swap(i) => LocksWorkUpdate(s.locks, i, Held);
  }

  lemma LockThreadDoesWork(s: State, granted: bool)
    requires Counted(s) && s.pc != Done
    ensures Work(StepLockThread(s, granted)) < Work(s)
  {
    if s.pc.Next? && s.pc.i < |s.locks| { LocksWorkUpdate(s.locks, s.pc.i, Held); }
    if s.pc.Cleared? { LocksWorkUpdate(s.locks, s.pc.i, Waiting); }
  }

  lemma {:induction false} RunIsBounded(s: State, run: seq<Action>)
    requires Inv(s) && AllowedRun(s, run)
    ensures |run| + Work(Run(s, run)) <= Work(s)
    decreases |run|
  {
    if run != [] {
      StepDoesWork(s, run[0]);
      StepKeepsInv(s, run[0]);
      RunIsBounded(Step(s, run[0]), run[1..]);
    }
  }

  lemma {:induction false} FreshWork(n: nat)
    ensures LocksWork(seq(n, _ => NotAsked)) == 7 * n
  {
    if n > 0 {
      assert seq(n, _ => NotAsked)[1..] == seq(n - 1, _ => NotAsked);
      FreshWork(n - 1);
    }
  }

  /**
   * The handshake comes to an end, with the transaction started: no interleaving takes more than 7n + 4 steps for n
   * locks, and one that cannot go on has started the transaction, once, with every lock held.
   */
  lemma EndsStarted(n: nat, run: seq<Action>)
    requires AllowedRun(Init(n), run)
    ensures |run| <= 7 * n + 4
    ensures (forall a :: !Enabled(Run(Init(n), run), a)) ==> Run(Init(n), run).starts == 1
  {
    RunKeepsInv(Init(n), run);
    RunIsBounded(Init(n), run);
    FreshWork(n);
    var s := Run(Init(n), run);
    if forall a :: !Enabled(s, a) {
      assert s.pc == Done by {
        assert !Enabled(s, LockThread(true));
      }
      forall i | 0 <= i < n ensures s.locks[i] == Held {
        NothingLeft(s, i);
      }
      StartedWhenQuiet(n, run);
    }
  }

  lemma NothingLeft(s: State, i: nat)
    requires Inv(s) && s.pc == Done && i < |s.locks| && !Enabled(s, Pop(i)) && !Enabled(s, Decrement(i))
    requires !Enabled(s, Swap(i))
    ensures s.locks[i] == Held
  {
    if s.locks[i] == Popped {
      DecrementKeepsInv(s, i);
    }
  }

  /** The lock thread asking for free locks only. */
  function Unhindered(s: State, steps: nat): State
    decreases steps
  {
    if steps == 0 then s else Unhindered(StepLockThread(s, true), steps - 1)
  }

  lemma {:induction false} UnhinderedFrom(s: State, i: nat, steps: nat)
    requires s.pc == Next(i) && i <= |s.locks| && s.cnt == 1 && s.rc == RCOK && !s.ready && s.starts == 0
    requires (forall j :: 0 <= j < i ==> s.locks[j] == Held) && steps == |s.locks| - i + 3
    ensures var s' := Unhindered(s, steps);
            && s'.pc == Done && s'.rc == RCOK && s'.starts == 1 && |s'.locks| == |s.locks|
            && forall j :: 0 <= j < |s.locks| ==> s'.locks[j] == Held
    decreases |s.locks| - i
  {
    var s1 := StepLockThread(s, true);
    if i < |s.locks| {
      UnhinderedFrom(s1, i + 1, steps - 1);
    } else {
      var s2 := StepLockThread(s1, true);
      assert Unhindered(s1, steps - 1) == Unhindered(s2, steps - 2);
      assert Unhindered(s2, steps - 2) == Unhindered(StepLockThread(s2, true), steps - 3);
    }
  }

  /** Where every lock is free the lock thread starts the transaction by itself, after n + 4 steps. */
  lemma FreeLocksStartAtOnce(n: nat)
    ensures var s := Unhindered(Init(n), n + 4);
            && s.pc == Done && s.rc == RCOK && s.starts == 1 && |s.locks| == n
            && forall j :: 0 <= j < n ==> s.locks[j] == Held
  {
    UnhinderedFrom(StepLockThread(Init(n), true), 0, n + 3);
  }
}
