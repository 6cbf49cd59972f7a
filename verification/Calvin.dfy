/**
 * Calvin's single lock thread over any number of rows. However releases interleave with it, each row grants its lock
 * in scheduling order, so the grants and the waits of a run form no cycle and a blocked run can always go on.
 */
module Calvin {
  import opened Types
  import opened LockSpec
  import opened LockLog

  type Key = int

  /** One lock a transaction asks for; the lock thread asks for no row twice on behalf of one transaction. */
  datatype Need = Need(key: Key, kind: LockType)

  /** The transactions in the order the lock thread takes them off its queue. */
  type Schedule = seq<seq<Need>>

  datatype Arrival = Arrival(key: Key, entry: LockEntry)

  /** The locks of one transaction, in the order `acquire_locks` asks for them. */
  function Asks(txn: nat, needs: seq<Need>): seq<Arrival> {
    if needs == [] then [] else [Arrival(needs[0].key, LockEntry(txn, needs[0].kind))] + Asks(txn, needs[1..])
  }

  /** Everything the lock thread asks for, in order, from transaction `t` on. */
  function Plan(schedule: Schedule, t: nat): seq<Arrival>
    requires t <= |schedule|
    decreases |schedule| - t
  {
    if t == |schedule| then [] else Asks(t, schedule[t]) + Plan(schedule, t + 1)
  }

  /** The part of a plan that concerns one row. */
  function At(plan: seq<Arrival>, k: Key): seq<LockEntry> {
    if plan == [] then [] else (if plan[0].key == k then [plan[0].entry] else []) + At(plan[1..], k)
  }

  ghost predicate WellFormed(schedule: Schedule) {
    forall t, i :: 0 <= t < |schedule| && 0 <= i < |schedule[t]| ==>
      schedule[t][i].kind != NONE && forall j :: 0 <= j < i ==> schedule[t][j].key != schedule[t][i].key
  }

  datatype System = System(
    rows: map<Key, State>,
    grants: map<Key, seq<LockEntry>>,   // what each row has granted so far, in order
    issued: nat)                        // how much of the plan the lock thread has asked for

  datatype Action = Issue | Release(txn: nat, key: Key)

  function Start(keys: set<Key>): System {
    System(map k | k in keys :: Unlocked, map k | k in keys :: [], 0)
  }

  /** Every lock the transaction needs on this node's rows has been asked for and granted: a worker may run it. */
  ghost predicate Dispatched(sys: System, plan: seq<Arrival>, txn: nat) {
    forall j :: 0 <= j < |plan| && plan[j].entry.txn == txn ==>
      j < sys.issued && (plan[j].key in sys.rows ==> !Waits(sys.rows[plan[j].key], txn))
  }

  ghost predicate Admissible(sys: System, plan: seq<Arrival>, a: Action) {
    match a
    case Issue => sys.issued < |plan|
    case Release(txn, key) => key in sys.rows && Owns(sys.rows[key], txn) && Dispatched(sys, plan, txn)
  }

  ghost function Step(sys: System, plan: seq<Arrival>, a: Action): System
    requires Admissible(sys, plan, a) && sys.rows.Keys == sys.grants.Keys
  {
    match a
    case Issue =>
      var Arrival(k, e) := plan[sys.issued];
      if k !in sys.rows then sys.(issued := sys.issued + 1)
      else
        var r := LockGet(LockSpec.Calvin, sys.rows[k], e);
        System(sys.rows[k := r.state],
               sys.grants[k := sys.grants[k] + if r.rc == RCOK then [e] else []],
               sys.issued + 1)
    case Release(txn, k) =>
      var s := Released(sys.rows[k], txn);
      System(sys.rows[k := Promote(s)], sys.grants[k := sys.grants[k] + Promoted(s)], sys.issued)
  }

  ghost predicate AdmissibleRun(sys: System, plan: seq<Arrival>, run: seq<Action>)
    decreases |run|
  {
    sys.rows.Keys == sys.grants.Keys &&
    (run == [] || (Admissible(sys, plan, run[0]) && AdmissibleRun(Step(sys, plan, run[0]), plan, run[1..])))
  }

  ghost function Run(sys: System, plan: seq<Arrival>, run: seq<Action>): System
    requires AdmissibleRun(sys, plan, run)
    decreases |run|
  {
    if run == [] then sys else Run(Step(sys, plan, run[0]), plan, run[1..])
  }

  ghost predicate Ascending(q: seq<LockEntry>) {
    forall i, j :: 0 <= i < j < |q| ==> q[i].txn < q[j].txn
  }

  ghost predicate RowInv(s: State, grants: seq<LockEntry>, arrived: seq<LockEntry>) {
    && Safe(s)
    && grants + s.waiters == arrived
    && forall i :: 0 <= i < |s.owners| ==> s.owners[i] in grants
  }

  ghost predicate Inv(sys: System, plan: seq<Arrival>) {
    && sys.rows.Keys == sys.grants.Keys
    && sys.issued <= |plan|
    && forall k :: k in sys.rows ==> RowInv(sys.rows[k], sys.grants[k], At(plan[..sys.issued], k))
  }

  lemma {:induction false} AtAppend(p: seq<Arrival>, q: seq<Arrival>, k: Key)
    ensures At(p + q, k) == At(p, k) + At(q, k)
  {
    if p == [] {
      assert p + q == q;
    } else {
      assert (p + q)[1..] == p[1..] + q && (p + q)[0] == p[0];
      AtAppend(p[1..], q, k);
      var first := if p[0].key == k then [p[0].entry] else [];
      assert first + (At(p[1..], k) + At(q, k)) == (first + At(p[1..], k)) + At(q, k);
    }
  }

  lemma AtNext(plan: seq<Arrival>, n: nat, k: Key)
    requires n < |plan|
    ensures At(plan[..n + 1], k) == At(plan[..n], k) + if plan[n].key == k then [plan[n].entry] else []
  {
    assert plan[..n + 1] == plan[..n] + [plan[n]];
    AtAppend(plan[..n], [plan[n]], k);
  }

  lemma IssueKeepsRow(s: State, grants: seq<LockEntry>, arrived: seq<LockEntry>, e: LockEntry)
    requires RowInv(s, grants, arrived) && e.kind != NONE
    ensures var r := LockGet(LockSpec.Calvin, s, e);
            RowInv(r.state, grants + (if r.rc == RCOK then [e] else []), arrived + [e])
  {
    LockGetIsSafe(LockSpec.Calvin, s, e);
    var r := LockGet(LockSpec.Calvin, s, e);
    if r.rc == RCOK {
      assert (grants + [e]) + r.state.waiters == arrived + [e];
    } else {
      assert (grants + []) + (s.waiters + [e]) == arrived + [e];
    }
  }

  lemma PromoteSplits(s: State)
    ensures Promoted(s) + Promote(s).waiters == s.waiters
    ensures forall e :: e in Promote(s).owners ==> e in s.owners || e in Promoted(s)
    decreases |s.waiters|
  {
  }

  lemma PromotedWereGranted(s: State, owners: seq<LockEntry>, grants: seq<LockEntry>)
    requires (forall e :: e in s.owners ==> e in owners) && forall e :: e in owners ==> e in grants
    ensures forall e :: e in Promote(s).owners ==> e in grants + Promoted(s)
  {
    PromoteSplits(s);
  }

  lemma PromoteKeepsOrder(s: State, grants: seq<LockEntry>)
    ensures (grants + Promoted(s)) + Promote(s).waiters == grants + s.waiters
  {
    PromoteSplits(s);
    var joined, left := Promoted(s), Promote(s).waiters;
    assert (grants + joined) + left == grants + (joined + left);
  }

  lemma ReleaseKeepsRow(s: State, grants: seq<LockEntry>, arrived: seq<LockEntry>, txn: nat)
    requires RowInv(s, grants, arrived)
    ensures RowInv(LockRelease(s, txn), grants + Promoted(Released(s, txn)), arrived)
  {
    var s1 := Released(s, txn);
    DisownMembers(s.owners, txn);
    PromoteKeepsOrder(s1, grants);
    PromotedWereGranted(s1, s.owners, grants);
    LockReleaseIsSafe(s, txn);
  }

  lemma StepKeepsInv(sys: System, plan: seq<Arrival>, a: Action)
    requires Inv(sys, plan) && Admissible(sys, plan, a)
    requires forall j :: 0 <= j < |plan| ==> plan[j].entry.kind != NONE
    ensures Inv(Step(sys, plan, a), plan)
  {
    var sys' := Step(sys, plan, a);
    forall k | k in sys'.rows ensures RowInv(sys'.rows[k], sys'.grants[k], At(plan[..sys'.issued], k)) {
      match a {
        case Issue =>
          AtNext(plan, sys.issued, k);
          if plan[sys.issued].key == k {
            IssueKeepsRow(sys.rows[k], sys.grants[k], At(plan[..sys.issued], k), plan[sys.issued].entry);
          } else {
            assert At(plan[..sys'.issued], k) == At(plan[..sys.issued], k);
          }
        case Release(txn, key) =>
          if key == k {
            ReleaseKeepsRow(sys.rows[k], sys.grants[k], At(plan[..sys.issued], k), txn);
          }
      }
    }
  }

  lemma {:induction false} RunKeepsInv(sys: System, plan: seq<Arrival>, run: seq<Action>)
    requires Inv(sys, plan) && AdmissibleRun(sys, plan, run)
    requires forall j :: 0 <= j < |plan| ==> plan[j].entry.kind != NONE
    ensures Inv(Run(sys, plan, run), plan)
    decreases |run|
  {
    if run != [] {
      StepKeepsInv(sys, plan, run[0]);
      RunKeepsInv(Step(sys, plan, run[0]), plan, run[1..]);
    }
  }

  lemma AsksShape(txn: nat, needs: seq<Need>)
    ensures |Asks(txn, needs)| == |needs|
    ensures forall i :: 0 <= i < |needs| ==> Asks(txn, needs)[i] == Arrival(needs[i].key, LockEntry(txn, needs[i].kind))
  {
  }

  lemma {:induction false} AsksAt(txn: nat, needs: seq<Need>, k: Key)
    requires forall i, j :: 0 <= j < i < |needs| ==> needs[j].key != needs[i].key
    ensures |At(Asks(txn, needs), k)| <= 1
    ensures At(Asks(txn, needs), k) != [] ==>
              At(Asks(txn, needs), k)[0].txn == txn && exists i :: 0 <= i < |needs| && needs[i].key == k
  {
    if needs != [] {
      AsksAt(txn, needs[1..], k);
      if At(Asks(txn, needs[1..]), k) != [] {
        var i :| 0 <= i < |needs[1..]| && needs[1..][i].key == k;
        assert needs[i + 1].key == k;
      }
    }
  }

  lemma ConsAscends(p: seq<LockEntry>, q: seq<LockEntry>, t: nat)
    requires |p| <= 1 && (p != [] ==> p[0].txn == t)
    requires Ascending(q) && forall i :: 0 <= i < |q| ==> t < q[i].txn
    ensures Ascending(p + q) && forall i :: 0 <= i < |p + q| ==> t <= (p + q)[i].txn
  {
  }

  /** Each row is asked for in strictly increasing scheduling order. */
  lemma {:induction false} ArrivalsAscend(schedule: Schedule, t: nat, k: Key)
    requires WellFormed(schedule) && t <= |schedule|
    ensures Ascending(At(Plan(schedule, t), k))
    ensures forall i :: 0 <= i < |At(Plan(schedule, t), k)| ==> t <= At(Plan(schedule, t), k)[i].txn
    decreases |schedule| - t
  {
    if t < |schedule| {
      ArrivalsAscend(schedule, t + 1, k);
      AsksAt(t, schedule[t], k);
      AtAppend(Asks(t, schedule[t]), Plan(schedule, t + 1), k);
      var mine, later := At(Asks(t, schedule[t]), k), At(Plan(schedule, t + 1), k);
      assert At(Plan(schedule, t), k) == mine + later;
      ConsAscends(mine, later, t);
    }
  }

  lemma {:induction false} PlanShape(schedule: Schedule, t: nat)
    requires WellFormed(schedule) && t <= |schedule|
    ensures forall j :: 0 <= j < |Plan(schedule, t)| ==>
              Plan(schedule, t)[j].entry.kind != NONE && t <= Plan(schedule, t)[j].entry.txn
    ensures forall i, j :: 0 <= i < j < |Plan(schedule, t)| ==>
              Plan(schedule, t)[i].entry.txn <= Plan(schedule, t)[j].entry.txn
    decreases |schedule| - t
  {
    if t < |schedule| {
      PlanShape(schedule, t + 1);
      AsksShape(t, schedule[t]);
    }
  }

  lemma ReachableInv(schedule: Schedule, keys: set<Key>, run: seq<Action>)
    requires WellFormed(schedule) && AdmissibleRun(Start(keys), Plan(schedule, 0), run)
    ensures var sys := Run(Start(keys), Plan(schedule, 0), run);
            Inv(sys, Plan(schedule, 0)) && sys.rows.Keys == keys
  {
    PlanShape(schedule, 0);
    StartIsOk(keys, Plan(schedule, 0));
    RunKeepsInv(Start(keys), Plan(schedule, 0), run);
    KeysStay(Start(keys), Plan(schedule, 0), run);
  }

  lemma StartIsOk(keys: set<Key>, plan: seq<Arrival>)
    ensures Inv(Start(keys), plan)
  {
    assert plan[..0] == [];
  }

  /**
   * Determinism. For every interleaving, what a row has granted, in order, is a prefix of the order in which the
   * schedule mentions the row, and the transactions still queued there are what comes next in that order.
   */
  lemma GrantsFollowSchedule(schedule: Schedule, keys: set<Key>, run: seq<Action>, k: Key)
    requires WellFormed(schedule) && AdmissibleRun(Start(keys), Plan(schedule, 0), run) && k in keys
    ensures var sys := Run(Start(keys), Plan(schedule, 0), run);
            && Inv(sys, Plan(schedule, 0)) && k in sys.rows
            && sys.grants[k] + sys.rows[k].waiters <= At(Plan(schedule, 0), k)
            && Ascending(At(Plan(schedule, 0), k))
  {
    var plan := Plan(schedule, 0);
    ReachableInv(schedule, keys, run);
    var sys := Run(Start(keys), plan, run);
    AtPrefix(plan, sys.issued, k);
    ArrivalsAscend(schedule, 0, k);
  }

  lemma AtPrefix(plan: seq<Arrival>, n: nat, k: Key)
    requires n <= |plan|
    ensures At(plan[..n], k) <= At(plan, k)
  {
    assert plan == plan[..n] + plan[n..];
    AtAppend(plan[..n], plan[n..], k);
  }

  lemma {:induction false} KeysStay(sys: System, plan: seq<Arrival>, run: seq<Action>)
    requires AdmissibleRun(sys, plan, run)
    ensures Run(sys, plan, run).rows.Keys == sys.rows.Keys
    decreases |run|
  {
    if run != [] {
      KeysStay(Step(sys, plan, run[0]), plan, run[1..]);
    }
  }

  /** `b` must be done with some row before `a` can have it, or has already conflicted with `a` there first. */
  ghost predicate DependsAt(s: State, grants: seq<LockEntry>, a: nat, b: nat) {
    || (exists i :: 0 <= i < |s.waiters| && s.waiters[i].txn == a &&
          (Owns(s, b) || exists j :: 0 <= j < i && s.waiters[j].txn == b))
    || (exists i, j :: 0 <= j < i < |grants| && grants[i].txn == a && grants[j].txn == b &&
          ConflictLock(grants[i].kind, grants[j].kind))
  }

  ghost predicate DependsOn(sys: System, a: nat, b: nat) {
    exists k :: k in sys.rows && k in sys.grants && DependsAt(sys.rows[k], sys.grants[k], a, b)
  }

  ghost predicate DependencyPath(sys: System, path: seq<nat>) {
    |path| >= 2 ==> DependsOn(sys, path[0], path[1]) && DependencyPath(sys, path[1..])
  }

  lemma DependencyIsEarlier(s: State, grants: seq<LockEntry>, arrived: seq<LockEntry>, a: nat, b: nat)
    requires RowInv(s, grants, arrived) && Ascending(arrived) && DependsAt(s, grants, a, b)
    ensures b < a
  {
    assert forall i :: 0 <= i < |grants| ==> arrived[i] == grants[i];
    assert forall i :: 0 <= i < |s.waiters| ==> arrived[|grants| + i] == s.waiters[i];
    if i :| 0 <= i < |s.waiters| && s.waiters[i].txn == a && Owns(s, b) {
      var j :| 0 <= j < |s.owners| && s.owners[j].txn == b;
      var g :| 0 <= g < |grants| && grants[g] == s.owners[j];
      assert arrived[g].txn < arrived[|grants| + i].txn;
    }
  }

  ghost predicate AllAscending(sys: System, plan: seq<Arrival>) {
    Inv(sys, plan) && forall k :: k in sys.rows ==> Ascending(At(plan[..sys.issued], k))
  }

  lemma {:induction false} DependencyPathDescends(sys: System, plan: seq<Arrival>, path: seq<nat>)
    requires AllAscending(sys, plan) && |path| >= 2 && DependencyPath(sys, path)
    ensures path[|path| - 1] < path[0]
    decreases |path|
  {
    var k :| k in sys.rows && k in sys.grants && DependsAt(sys.rows[k], sys.grants[k], path[0], path[1]);
    DependencyIsEarlier(sys.rows[k], sys.grants[k], At(plan[..sys.issued], k), path[0], path[1]);
    if |path| > 2 {
      DependencyPathDescends(sys, plan, path[1..]);
    }
  }

  lemma ReachableAscends(schedule: Schedule, keys: set<Key>, run: seq<Action>)
    requires WellFormed(schedule) && AdmissibleRun(Start(keys), Plan(schedule, 0), run)
    ensures AllAscending(Run(Start(keys), Plan(schedule, 0), run), Plan(schedule, 0))
  {
    var plan := Plan(schedule, 0);
    ReachableInv(schedule, keys, run);
    var sys := Run(Start(keys), plan, run);
    forall k | k in sys.rows ensures Ascending(At(plan[..sys.issued], k)) {
      ArrivalsAscend(schedule, 0, k);
      AtPrefix(plan, sys.issued, k);
    }
  }

  /** Conflict edges and wait edges of any reachable state, taken together, form no cycle. */
  lemma NoDependencyCycle(schedule: Schedule, keys: set<Key>, run: seq<Action>, path: seq<nat>)
    requires WellFormed(schedule) && AdmissibleRun(Start(keys), Plan(schedule, 0), run)
    requires |path| >= 2 && path[0] == path[|path| - 1]
    ensures !DependencyPath(Run(Start(keys), Plan(schedule, 0), run), path)
  {
    ReachableAscends(schedule, keys, run);
    if DependencyPath(Run(Start(keys), Plan(schedule, 0), run), path) {
      DependencyPathDescends(Run(Start(keys), Plan(schedule, 0), run), Plan(schedule, 0), path);
    }
  }

  lemma {:induction false} EarliestOf(s: set<nat>) returns (m: nat)
    requires s != {}
    ensures m in s && forall t :: t in s ==> m <= t
  {
    m :| m in s;
    if s != {m} {
      var m' := EarliestOf(s - {m});
      assert forall t :: t in s ==> t == m || t in s - {m};
      if m' < m { m := m'; }
    }
  }

  function WaitingSet(rows: map<Key, State>): set<nat> {
    set k, e | k in rows && e in rows[k].waiters :: e.txn
  }

  lemma WaitsIsInSet(rows: map<Key, State>, k: Key, txn: nat)
    requires k in rows && Waits(rows[k], txn)
    ensures txn in WaitingSet(rows)
  {
    var i :| 0 <= i < |rows[k].waiters| && rows[k].waiters[i].txn == txn;
    assert rows[k].waiters[i] in rows[k].waiters;
  }

  lemma {:induction false} AtSource(plan: seq<Arrival>, k: Key, e: LockEntry)
    requires e in At(plan, k)
    ensures exists j :: 0 <= j < |plan| && plan[j] == Arrival(k, e)
  {
    if plan[0] == Arrival(k, e) {
    } else {
      AtSource(plan[1..], k, e);
      var j :| 0 <= j < |plan[1..]| && plan[1..][j] == Arrival(k, e);
      assert plan[j + 1] == Arrival(k, e);
    }
  }

  lemma EarlierIsIssued(sys: System, plan: seq<Arrival>, k: Key, e: LockEntry, b: nat)
    requires Inv(sys, plan) && k in sys.rows && e in sys.rows[k].waiters && b < e.txn
    requires forall i, j :: 0 <= i < j < |plan| ==> plan[i].entry.txn <= plan[j].entry.txn
    ensures forall j :: 0 <= j < |plan| && plan[j].entry.txn == b ==> j < sys.issued
  {
    assert e in At(plan[..sys.issued], k);
    AtSource(plan[..sys.issued], k, e);
    var i :| 0 <= i < sys.issued && plan[i] == Arrival(k, e);
  }

  ghost predicate BlocksAndRuns(sys: System, plan: seq<Arrival>, k: Key, b: nat) {
    k in sys.rows && Owns(sys.rows[k], b) && sys.rows[k].waiters != [] && Dispatched(sys, plan, b)
  }

  /** Progress: whenever some row has a waiter, some owner of a contended row has all its locks and can run. */
  lemma SomeOwnerCanRun(schedule: Schedule, keys: set<Key>, run: seq<Action>, k0: Key)
    requires WellFormed(schedule) && AdmissibleRun(Start(keys), Plan(schedule, 0), run)
    requires var sys := Run(Start(keys), Plan(schedule, 0), run); k0 in sys.rows && sys.rows[k0].waiters != []
    ensures exists k, b :: BlocksAndRuns(Run(Start(keys), Plan(schedule, 0), run), Plan(schedule, 0), k, b)
  {
    var plan := Plan(schedule, 0);
    var sys := Run(Start(keys), plan, run);
    ReachableAscends(schedule, keys, run);
    PlanShape(schedule, 0);
    EarliestWaiterIsBlockedByRunner(sys, plan, k0);
  }

  lemma EarliestWaiterIsBlockedByRunner(sys: System, plan: seq<Arrival>, k0: Key)
    requires AllAscending(sys, plan) && k0 in sys.rows && sys.rows[k0].waiters != []
    requires forall i, j :: 0 <= i < j < |plan| ==> plan[i].entry.txn <= plan[j].entry.txn
    ensures exists k, b :: BlocksAndRuns(sys, plan, k, b)
  {
    assert sys.rows[k0].waiters[0].txn in WaitingSet(sys.rows) by {
      assert sys.rows[k0].waiters[0] in sys.rows[k0].waiters;
    }
    var a := EarliestOf(WaitingSet(sys.rows));
    var k, e :| k in sys.rows && e in sys.rows[k].waiters && e.txn == a;
    var s := sys.rows[k];
    var b := s.owners[0].txn;
    assert Owns(s, b);
    assert DependsAt(s, sys.grants[k], a, b);
    DependencyIsEarlier(s, sys.grants[k], At(plan[..sys.issued], k), a, b);
    EarlierIsIssued(sys, plan, k, e, b);
    forall j | 0 <= j < |plan| && plan[j].entry.txn == b && plan[j].key in sys.rows
      ensures !Waits(sys.rows[plan[j].key], b)
    {
      if Waits(sys.rows[plan[j].key], b) {
        WaitsIsInSet(sys.rows, plan[j].key, b);
      }
    }
    assert BlocksAndRuns(sys, plan, k, b);
  }

  /** What row `k` tells its callers in one step, and in a run. */
  ghost function Said(sys: System, plan: seq<Arrival>, a: Action, k: Key): seq<Event>
    requires Admissible(sys, plan, a)
  {
    match a
    case Issue =>
      var Arrival(key, e) := plan[sys.issued];
      if key == k && k in sys.rows then [Asked(e, LockGet(LockSpec.Calvin, sys.rows[k], e).rc)] else []
    case Release(txn, key) =>
      if key == k then [GaveBack(txn, Promoted(Released(sys.rows[k], txn)))] else []
  }

  ghost function Log(sys: System, plan: seq<Arrival>, run: seq<Action>, k: Key): seq<Event>
    requires AdmissibleRun(sys, plan, run)
    decreases |run|
  {
    if run == [] then [] else Said(sys, plan, run[0], k) + Log(Step(sys, plan, run[0]), plan, run[1..], k)
  }

  ghost predicate LogInv(sys: System, plan: seq<Arrival>, k: Key, log: seq<Event>) {
    && Inv(sys, plan) && k in sys.rows && Ascending(At(plan, k))
    && Single(sys.rows[k]) && Tells(sys.rows[k], log)
  }

  lemma NewcomerIsNew(s: State, grants: seq<LockEntry>, arrived: seq<LockEntry>, e: LockEntry)
    requires RowInv(s, grants, arrived) && Ascending(arrived + [e])
    ensures !Owns(s, e.txn) && !Waits(s, e.txn)
  {
    forall f | f in grants + s.waiters ensures f.txn != e.txn {
      var i :| 0 <= i < |arrived| && arrived[i] == f;
      assert (arrived + [e])[i].txn < (arrived + [e])[|arrived|].txn;
    }
    forall i | 0 <= i < |s.owners| ensures s.owners[i].txn != e.txn {
      assert s.owners[i] in grants + s.waiters;
    }
    forall i | 0 <= i < |s.waiters| ensures s.waiters[i].txn != e.txn {
      assert s.waiters[i] in grants + s.waiters;
    }
  }

  lemma IssuedIsNew(sys: System, plan: seq<Arrival>, k: Key)
    requires Inv(sys, plan) && k in sys.rows && Ascending(At(plan, k))
    requires sys.issued < |plan| && plan[sys.issued].key == k
    ensures !Owns(sys.rows[k], plan[sys.issued].entry.txn) && !Waits(sys.rows[k], plan[sys.issued].entry.txn)
  {
    AtNext(plan, sys.issued, k);
    AtPrefix(plan, sys.issued + 1, k);
    NewcomerIsNew(sys.rows[k], sys.grants[k], At(plan[..sys.issued], k), plan[sys.issued].entry);
  }

  lemma StepKeepsLog(sys: System, plan: seq<Arrival>, a: Action, k: Key, log: seq<Event>)
    requires LogInv(sys, plan, k, log) && Admissible(sys, plan, a)
    requires forall j :: 0 <= j < |plan| ==> plan[j].entry.kind != NONE
    ensures LogInv(Step(sys, plan, a), plan, k, log + Said(sys, plan, a, k))
  {
    StepKeepsInv(sys, plan, a);
    var s := sys.rows[k];
    match a
    case Issue =>
      if plan[sys.issued].key == k {
        AskKeepsLog(LockSpec.Calvin, s, log, plan[sys.issued].entry);
        IssuedIsNew(sys, plan, k);
        AskKeepsSingle(LockSpec.Calvin, s, plan[sys.issued].entry);
      } else {
        assert log + [] == log;
      }
    case Release(txn, key) =>
      if key == k {
        ReleaseKeepsLog(s, log, txn);
        ReleaseKeepsSingle(s, txn);
      } else {
        assert log + [] == log;
      }
  }

  lemma {:induction false} RunKeepsLog(sys: System, plan: seq<Arrival>, run: seq<Action>, k: Key, log: seq<Event>)
    requires LogInv(sys, plan, k, log) && AdmissibleRun(sys, plan, run)
    requires forall j :: 0 <= j < |plan| ==> plan[j].entry.kind != NONE
    ensures LogInv(Run(sys, plan, run), plan, k, log + Log(sys, plan, run, k))
    decreases |run|
  {
    if run == [] {
      assert log + [] == log;
    } else {
      StepKeepsLog(sys, plan, run[0], k, log);
      RunKeepsLog(Step(sys, plan, run[0]), plan, run[1..], k, log + Said(sys, plan, run[0], k));
      Regroup(log, Said(sys, plan, run[0], k), Log(Step(sys, plan, run[0]), plan, run[1..], k));
    }
  }

  lemma ReachableLog(schedule: Schedule, keys: set<Key>, run: seq<Action>, k: Key)
    requires WellFormed(schedule) && AdmissibleRun(Start(keys), Plan(schedule, 0), run) && k in keys
    ensures var plan := Plan(schedule, 0); LogInv(Run(Start(keys), plan, run), plan, k, Log(Start(keys), plan, run, k))
  {
    var plan := Plan(schedule, 0);
    PlanShape(schedule, 0);
    ArrivalsAscend(schedule, 0, k);
    RunKeepsLog(Start(keys), plan, run, k, []);
    assert [] + Log(Start(keys), plan, run, k) == Log(Start(keys), plan, run, k);
  }

  /**
   * The owners and waiters of every row are, after any run, those that the return codes and the grants of the run say,
   * and any two that hold a row at the same time share it.
   */
  lemma HoldersAreThoseTold(schedule: Schedule, keys: set<Key>, run: seq<Action>, k: Key)
    requires WellFormed(schedule) && AdmissibleRun(Start(keys), Plan(schedule, 0), run) && k in keys
    ensures var sys, log := Run(Start(keys), Plan(schedule, 0), run), Log(Start(keys), Plan(schedule, 0), run, k);
            && k in sys.rows
            && multiset(sys.rows[k].owners) == Held(log) && multiset(sys.rows[k].waiters) == Queued(log)
            && Compatible(Held(log))
  {
    var sys, log := Run(Start(keys), Plan(schedule, 0), run), Log(Start(keys), Plan(schedule, 0), run, k);
    ReachableLog(schedule, keys, run, k);
    HoldersAreCompatible(sys.rows[k], log);
  }

  /** The next lock that is asked for is granted at once exactly if nobody waits for the row and all can share it. */
  lemma AnswersFollowLog(schedule: Schedule, keys: set<Key>, run: seq<Action>)
    requires WellFormed(schedule) && AdmissibleRun(Start(keys), Plan(schedule, 0), run)
    requires Run(Start(keys), Plan(schedule, 0), run).issued < |Plan(schedule, 0)|
    ensures var plan := Plan(schedule, 0);
            var sys := Run(Start(keys), plan, run);
            var Arrival(k, e) := plan[sys.issued];
            var log := Log(Start(keys), plan, run, k);
            k in keys ==> Said(sys, plan, Issue, k) == [Asked(e, CalvinAnswer(Held(log), Queued(log), e))]
  {
    var plan := Plan(schedule, 0);
    var sys := Run(Start(keys), plan, run);
    var Arrival(k, e) := plan[sys.issued];
    if k in keys {
      ReachableLog(schedule, keys, run, k);
      PlanShape(schedule, 0);
      CalvinAnswers(sys.rows[k], Log(Start(keys), plan, run, k), e);
    }
  }
}
