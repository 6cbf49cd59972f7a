/** WAIT_DIE over any number of rows: no cycle of waits in any reachable state, and always an owner that can run. */
module WaitDie {
  import opened Types
  import opened LockSpec
  import opened LockLog

  type Key = int

  type System = map<Key, State>

  datatype Action = Acquire(txn: nat, key: Key, kind: LockType) | Release(txn: nat, key: Key)

  ghost predicate Waiting(sys: System, txn: nat) {
    exists k :: k in sys && Waits(sys[k], txn)
  }

  /** A transaction asks for a row it does not own, and only while it is not waiting; it gives back a row it owns. */
  ghost predicate Admissible(sys: System, a: Action) {
    && a.key in sys
    && match a
       case Acquire(txn, key, kind) => kind != NONE && !Owns(sys[key], txn) && !Waiting(sys, txn)
       case Release(txn, key) => Owns(sys[key], txn)
  }

  ghost function Step(sys: System, a: Action): System
    requires a.key in sys
  {
    match a
    case Acquire(txn, key, kind) => sys[key := LockGet(LockSpec.WaitDie, sys[key], LockEntry(txn, kind)).state]
    case Release(txn, key) => sys[key := LockRelease(sys[key], txn)]
  }

  ghost predicate AdmissibleRun(sys: System, run: seq<Action>)
    decreases |run|
  {
    run == [] || (Admissible(sys, run[0]) && AdmissibleRun(Step(sys, run[0]), run[1..]))
  }

  ghost function Run(sys: System, run: seq<Action>): System
    requires AdmissibleRun(sys, run)
    decreases |run|
  {
    if run == [] then sys else Run(Step(sys, run[0]), run[1..])
  }

  function AllUnlocked(keys: set<Key>): System {
    map k | k in keys :: Unlocked
  }

  /** Waiters stand youngest first, and every one of them is older than every owner. */
  ghost predicate AgeOrdered(s: State) {
    && (forall i, j :: 0 <= i < j < |s.waiters| ==> s.waiters[i].txn > s.waiters[j].txn)
    && (forall i, j :: 0 <= i < |s.waiters| && 0 <= j < |s.owners| ==> s.waiters[i].txn < s.owners[j].txn)
  }

  ghost predicate RowInv(s: State) {
    Safe(s) && AgeOrdered(s)
  }

  lemma EnqueueKeepsOrder(s: State, e: LockEntry)
    requires AgeOrdered(s) && !Owns(s, e.txn) && !Waits(s, e.txn) && CanWait(s, e.txn)
    ensures AgeOrdered(s.(waiters := Enqueue(s.waiters, e)))
  {
    assert forall i :: 0 <= i < |s.owners| ==> s.owners[i].txn != e.txn;
    assert forall i :: 0 <= i < |s.waiters| ==> s.waiters[i].txn != e.txn;
    EnqueueDescends(s.waiters, e);
  }

  lemma EnqueueDescends(q: seq<LockEntry>, e: LockEntry)
    requires forall i, j :: 0 <= i < j < |q| ==> q[i].txn > q[j].txn
    requires forall i :: 0 <= i < |q| ==> q[i].txn != e.txn
    ensures forall i, j :: 0 <= i < j < |Enqueue(q, e)| ==> Enqueue(q, e)[i].txn > Enqueue(q, e)[j].txn
  {
  }

  lemma AcquireKeepsOrder(s: State, e: LockEntry)
    requires AgeOrdered(s) && !Owns(s, e.txn) && !Waits(s, e.txn)
    ensures AgeOrdered(LockGet(LockSpec.WaitDie, s, e).state)
  {
    if MustQueue(LockSpec.WaitDie, s, e) && CanWait(s, e.txn) {
      EnqueueKeepsOrder(s, e);
    }
  }

  lemma PromoteKeepsOrder(s: State)
    requires AgeOrdered(s)
    ensures AgeOrdered(Promote(s))
    decreases |s.waiters|
  {
  }

  lemma ReleaseKeepsOrder(s: State, txn: nat)
    requires AgeOrdered(s)
    ensures AgeOrdered(LockRelease(s, txn))
  {
    var rest := Disown(s.owners, txn);
    DisownMembers(s.owners, txn);
    forall i, j | 0 <= i < |s.waiters| && 0 <= j < |rest| ensures s.waiters[i].txn < rest[j].txn {
      assert rest[j] in s.owners;
    }
    PromoteKeepsOrder(Released(s, txn));
  }

  lemma {:induction false} RunKeepsInv(sys: System, run: seq<Action>)
    requires (forall k :: k in sys ==> RowInv(sys[k])) && AdmissibleRun(sys, run)
    ensures forall k :: k in Run(sys, run) ==> RowInv(Run(sys, run)[k])
    decreases |run|
  {
    if run != [] {
      var s := sys[run[0].key];
      match run[0] {
        case Acquire(txn, key, kind) =>
          LockGetIsSafe(LockSpec.WaitDie, s, LockEntry(txn, kind));
          AcquireKeepsOrder(s, LockEntry(txn, kind));
        case Release(txn, key) =>
          LockReleaseIsSafe(s, txn);
          ReleaseKeepsOrder(s, txn);
      }
      RunKeepsInv(Step(sys, run[0]), run[1..]);
    }
  }

  /** `a` waits on a row where `b` is an owner, or a waiter that will be served first. */
  ghost predicate WaitsBehind(s: State, a: nat, b: nat) {
    exists i :: 0 <= i < |s.waiters| && s.waiters[i].txn == a &&
      (Owns(s, b) || exists j :: 0 <= j < i && s.waiters[j].txn == b)
  }

  ghost predicate WaitsFor(sys: System, a: nat, b: nat) {
    exists k :: k in sys && WaitsBehind(sys[k], a, b)
  }

  /** Each transaction of the path waits for the next one. */
  ghost predicate WaitPath(sys: System, path: seq<nat>) {
    |path| >= 2 ==> WaitsFor(sys, path[0], path[1]) && WaitPath(sys, path[1..])
  }

  lemma {:induction false} WaitPathAscends(sys: System, path: seq<nat>)
    requires (forall k :: k in sys ==> RowInv(sys[k])) && |path| >= 2 && WaitPath(sys, path)
    ensures path[0] < path[|path| - 1]
    decreases |path|
  {
    var k :| k in sys && WaitsBehind(sys[k], path[0], path[1]);
    if |path| > 2 {
      WaitPathAscends(sys, path[1..]);
    }
  }

  /** Deadlock freedom: from unlocked rows, no admissible run reaches a state with a cycle of waits. */
  lemma NoDeadlock(keys: set<Key>, run: seq<Action>, path: seq<nat>)
    requires AdmissibleRun(AllUnlocked(keys), run)
    requires |path| >= 2 && path[0] == path[|path| - 1]
    ensures !WaitPath(Run(AllUnlocked(keys), run), path)
  {
    RunKeepsInv(AllUnlocked(keys), run);
    if WaitPath(Run(AllUnlocked(keys), run), path) {
      WaitPathAscends(Run(AllUnlocked(keys), run), path);
    }
  }

  /** Row safety in every reachable state, and no waiter is stranded on a row it could have been given. */
  lemma RowsStaySafe(keys: set<Key>, run: seq<Action>, k: Key)
    requires AdmissibleRun(AllUnlocked(keys), run) && k in Run(AllUnlocked(keys), run)
    ensures Safe(Run(AllUnlocked(keys), run)[k]) && AgeOrdered(Run(AllUnlocked(keys), run)[k])
  {
    RunKeepsInv(AllUnlocked(keys), run);
  }

  lemma {:induction false} YoungestOf(s: set<nat>) returns (m: nat)
    requires s != {}
    ensures m in s && forall t :: t in s ==> t <= m
  {
    m :| m in s;
    if s != {m} {
      var m' := YoungestOf(s - {m});
      assert forall t :: t in s ==> t == m || t in s - {m};
      if m < m' { m := m'; }
    }
  }

  function WaitingSet(sys: System): set<nat> {
    set k, e | k in sys && e in sys[k].waiters :: e.txn
  }

  lemma WaitingSetIsExact(sys: System, txn: nat)
    ensures Waiting(sys, txn) <==> txn in WaitingSet(sys)
  {
    if Waiting(sys, txn) {
      var k :| k in sys && Waits(sys[k], txn);
      var i :| 0 <= i < |sys[k].waiters| && sys[k].waiters[i].txn == txn;
      assert sys[k].waiters[i] in sys[k].waiters;
    }
    if txn in WaitingSet(sys) {
      var k, e :| k in sys && e in sys[k].waiters && e.txn == txn;
      assert Waits(sys[k], txn);
    }
  }

  /** `b` owns a row somebody waits on, and can go on: it waits nowhere itself. */
  ghost predicate BlocksAndRuns(sys: System, k: Key, b: nat) {
    k in sys && Owns(sys[k], b) && sys[k].waiters != [] && !Waiting(sys, b)
  }

  lemma YoungestWaiterIsBlockedByRunner(sys: System, txn: nat)
    requires (forall k :: k in sys ==> RowInv(sys[k])) && Waiting(sys, txn)
    ensures exists k, b :: BlocksAndRuns(sys, k, b)
  {
    WaitingSetIsExact(sys, txn);
    var a := YoungestOf(WaitingSet(sys));
    var k, e :| k in sys && e in sys[k].waiters && e.txn == a;
    var b := sys[k].owners[0].txn;
    assert a < b;
    WaitingSetIsExact(sys, b);
    assert Owns(sys[k], b);
    assert BlocksAndRuns(sys, k, b);
  }

  /** Progress: whenever some transaction waits, some owner of a contended row is not waiting anywhere. */
  lemma SomeOwnerCanRun(keys: set<Key>, run: seq<Action>, txn: nat)
    requires AdmissibleRun(AllUnlocked(keys), run) && Waiting(Run(AllUnlocked(keys), run), txn)
    ensures exists k, b :: BlocksAndRuns(Run(AllUnlocked(keys), run), k, b)
  {
    RunKeepsInv(AllUnlocked(keys), run);
    YoungestWaiterIsBlockedByRunner(Run(AllUnlocked(keys), run), txn);
  }

  /** What row `k` tells its callers in one step, and in a run. */
  ghost function Said(sys: System, a: Action, k: Key): seq<Event>
    requires a.key in sys
  {
    if a.key != k then []
    else
      match a
      case Acquire(txn, key, kind) =>
        [Asked(LockEntry(txn, kind), LockGet(LockSpec.WaitDie, sys[key], LockEntry(txn, kind)).rc)]
      case Release(txn, key) => [GaveBack(txn, Promoted(Released(sys[key], txn)))]
  }

  ghost function Log(sys: System, run: seq<Action>, k: Key): seq<Event>
    requires AdmissibleRun(sys, run)
    decreases |run|
  {
    if run == [] then [] else Said(sys, run[0], k) + Log(Step(sys, run[0]), run[1..], k)
  }

  ghost predicate LogInv(s: State, log: seq<Event>) {
    RowInv(s) && Single(s) && Tells(s, log)
  }

  lemma StepKeepsLog(sys: System, a: Action, k: Key, log: seq<Event>)
    requires k in sys && LogInv(sys[k], log) && Admissible(sys, a)
    ensures LogInv(Step(sys, a)[k], log + Said(sys, a, k))
  {
    var s := sys[k];
    if a.key != k {
      assert log + Said(sys, a, k) == log;
    } else {
      match a
      case Acquire(txn, key, kind) =>
        AskKeepsLog(LockSpec.WaitDie, s, log, LockEntry(txn, kind));
        AskKeepsSingle(LockSpec.WaitDie, s, LockEntry(txn, kind));
        LockGetIsSafe(LockSpec.WaitDie, s, LockEntry(txn, kind));
        AcquireKeepsOrder(s, LockEntry(txn, kind));
      case Release(txn, key) =>
        ReleaseKeepsLog(s, log, txn);
        ReleaseKeepsSingle(s, txn);
        LockReleaseIsSafe(s, txn);
        ReleaseKeepsOrder(s, txn);
    }
  }

  lemma {:induction false} RunKeepsLog(sys: System, run: seq<Action>, k: Key, log: seq<Event>)
    requires k in sys && LogInv(sys[k], log) && AdmissibleRun(sys, run)
    ensures k in Run(sys, run) && LogInv(Run(sys, run)[k], log + Log(sys, run, k))
    decreases |run|
  {
    if run == [] {
      assert log + [] == log;
    } else {
      StepKeepsLog(sys, run[0], k, log);
      RunKeepsLog(Step(sys, run[0]), run[1..], k, log + Said(sys, run[0], k));
      Regroup(log, Said(sys, run[0], k), Log(Step(sys, run[0]), run[1..], k));
    }
  }

  lemma ReachableLog(keys: set<Key>, run: seq<Action>, k: Key)
    requires AdmissibleRun(AllUnlocked(keys), run) && k in keys
    ensures k in Run(AllUnlocked(keys), run)
    ensures LogInv(Run(AllUnlocked(keys), run)[k], Log(AllUnlocked(keys), run, k))
  {
    RunKeepsLog(AllUnlocked(keys), run, k, []);
    assert [] + Log(AllUnlocked(keys), run, k) == Log(AllUnlocked(keys), run, k);
  }

  /** The youngest of those who wait is kept out by those who hold the row, and all who wait are older than those. */
  ghost predicate WaitsRightly(held: multiset<LockEntry>, queued: multiset<LockEntry>) {
    && (forall w :: w in queued && NoneYounger(queued, w.txn) ==> !AllShare(held, w.kind))
    && (forall w, h :: w in queued && h in held ==> w.txn < h.txn)
  }

  lemma LoggedWaitersAreRight(s: State, log: seq<Event>)
    requires LogInv(s, log)
    ensures WaitsRightly(Held(log), Queued(log))
  {
    assert forall h :: h in Held(log) ==> h in s.owners;
    forall w | w in Queued(log) ensures w in s.waiters {}
    forall w | w in Queued(log) && NoneYounger(Queued(log), w.txn) ensures !AllShare(Held(log), w.kind) {
      assert s.waiters[0] in Queued(log);
      ConflictIffNotShared(s, w.kind);
    }
  }

  /**
   * The owners and waiters of every row are, after any run, those that the return codes and the grants of the run say,
   * any two that hold a row at the same time share it, and whoever waits has to.
   */
  lemma HoldersAreThoseTold(keys: set<Key>, run: seq<Action>, k: Key)
    requires AdmissibleRun(AllUnlocked(keys), run) && k in keys
    ensures var log := Log(AllUnlocked(keys), run, k);
            && k in Run(AllUnlocked(keys), run)
            && multiset(Run(AllUnlocked(keys), run)[k].owners) == Held(log)
            && multiset(Run(AllUnlocked(keys), run)[k].waiters) == Queued(log)
            && Compatible(Held(log)) && WaitsRightly(Held(log), Queued(log))
  {
    ReachableLog(keys, run, k);
    var s, log := Run(AllUnlocked(keys), run)[k], Log(AllUnlocked(keys), run, k);
    HoldersAreCompatible(s, log);
    LoggedWaitersAreRight(s, log);
  }

  /**
   * The next request of any run is granted exactly if nobody who holds the row is in its way and no younger transaction
   * waits there; otherwise it waits exactly if it is older than all who hold the row, and dies if not.
   */
  lemma AnswersFollowLog(keys: set<Key>, run: seq<Action>, txn: nat, k: Key, kind: LockType)
    requires AdmissibleRun(AllUnlocked(keys), run) && k in keys
    requires Admissible(Run(AllUnlocked(keys), run), Acquire(txn, k, kind))
    ensures var log := Log(AllUnlocked(keys), run, k);
            Said(Run(AllUnlocked(keys), run), Acquire(txn, k, kind), k)
            == [Asked(LockEntry(txn, kind), WaitDieAnswer(Held(log), Queued(log), LockEntry(txn, kind)))]
  {
    ReachableLog(keys, run, k);
    WaitDieAnswers(Run(AllUnlocked(keys), run)[k], Log(AllUnlocked(keys), run, k), LockEntry(txn, kind));
  }
}
