/**
 * All interleavings of OCC's parallel validation: transactions that have passed and are still on `active` neither wrote
 * a common row, nor read what an earlier one still there writes.
 */
module OccParallel {
  import opened OccSpec

  /** Where a transaction stands in `central_validate` and `central_finish`. */
  datatype Local =
    | Outside
    | Checking(rset: seq<RowId>, wset: seq<RowId>, snapshot: seq<SetEntry>, next: nat)
    | Failed(rset: seq<RowId>, wset: seq<RowId>)
    | Passed(rset: seq<RowId>, wset: seq<RowId>)

  datatype State = State(active: seq<SetEntry>, activeLen: int, txns: map<TxnId, Local>)

  datatype Action =
    | Enter(txn: TxnId, rset: seq<RowId>, wset: seq<RowId>)   // first critical section
    | CheckNext(txn: TxnId)                                   // the two tests against one entry of the copy
    | FailHistory(txn: TxnId)                                 // the history scan, not modelled, rejects
    | LeaveFailed(txn: TxnId)                                 // second critical section
    | Finish(txn: TxnId)                                      // central_finish, whatever the outcome

  function Init(txns: set<TxnId>): State {
    State([], 0, map t | t in txns :: Outside)
  }

  predicate Enabled(s: State, a: Action) {
    && a.txn in s.txns
    && match a
       case Enter(_, _, _) => s.txns[a.txn].Outside?
       case CheckNext(_) => s.txns[a.txn].Checking?
       case FailHistory(_) => s.txns[a.txn].Checking? && s.txns[a.txn].next == 0
       case LeaveFailed(_) => s.txns[a.txn].Failed?
       case Finish(_) => s.txns[a.txn].Passed?
  }

  function Move(s: State, t: TxnId, l: Local): State {
    s.(txns := s.txns[t := l])
  }

  function Leave(s: State, t: TxnId): State {
    Move(s, t, Outside).(
      active := Unlink(s.active, t),
      activeLen := if Listed(s.active, t) then s.activeLen - 1 else s.activeLen)
  }

  ghost function Step(s: State, a: Action): State
    requires Enabled(s, a)
  {
    var t := a.txn;
    match a
    case Enter(_, rset, wset) =>
      var s1 := Move(s, t, Checking(rset, wset, s.active, 0));
      if wset == [] then s1 else s1.(active := [SetEntry(t, wset)] + s.active, activeLen := s.activeLen + 1)
    case CheckNext(_) =>
      var l := s.txns[t];
      if l.next >= |l.snapshot| then Move(s, t, Passed(l.rset, l.wset))
      else if Apart(l.snapshot[l.next].rows, l.rset) && Apart(l.snapshot[l.next].rows, l.wset)
      then Move(s, t, l.(next := l.next + 1))
      else Move(s, t, Failed(l.rset, l.wset))
    case FailHistory(_) => Move(s, t, Failed(s.txns[t].rset, s.txns[t].wset))
    case LeaveFailed(_) => Leave(s, t)
    case Finish(_) => if s.txns[t].wset == [] then Move(s, t, Outside) else Leave(s, t)
  }

  ghost predicate AllowedRun(s: State, run: seq<Action>)
    decreases |run|
  {
    run == [] || (Enabled(s, run[0]) && AllowedRun(Step(s, run[0]), run[1..]))
  }

  ghost function Run(s: State, run: seq<Action>): State
    requires AllowedRun(s, run)
    decreases |run|
  {
    if run == [] then s else Run(Step(s, run[0]), run[1..])
  }

  /** A transaction inside validation that writes has one entry on the list, and nobody else has one. */
  ghost predicate Membership(s: State) {
    && s.activeLen == |s.active|
    && (forall i, j :: 0 <= i < j < |s.active| ==> s.active[i].txn != s.active[j].txn)
    && (forall i :: 0 <= i < |s.active| ==>
          && s.active[i].txn in s.txns && s.active[i].rows != []
          && !s.txns[s.active[i].txn].Outside? && s.txns[s.active[i].txn].wset == s.active[i].rows)
    && (forall t :: t in s.txns && !s.txns[t].Outside? && s.txns[t].wset != [] ==> Listed(s.active, t))
  }

  ghost predicate Clears(e: SetEntry, rset: seq<RowId>, wset: seq<RowId>) {
    Apart(e.rows, rset) && Apart(e.rows, wset)
  }

  /** What transaction `l` knows about an older entry: it is in its copy, and once tested it is clear of it. */
  ghost predicate Knows(l: Local, e: SetEntry) {
    match l
    case Checking(r, w, snapshot, next) =>
      exists j :: 0 <= j < |snapshot| && snapshot[j] == e && (j < next ==> Clears(e, r, w))
    case Passed(r, w) => Clears(e, r, w)
    case _ => true
  }

  /** The list is a stack: what lies below an entry was there when its transaction entered. */
  ghost predicate Informed(s: State) {
    forall i, j {:trigger s.active[i], s.active[j]} :: 0 <= i < j < |s.active| && s.active[i].txn in s.txns ==>
      Knows(s.txns[s.active[i].txn], s.active[j])
  }

  ghost predicate Tested(l: Local) {
    l.Checking? ==> l.next <= |l.snapshot| && forall j :: 0 <= j < l.next ==> Clears(l.snapshot[j], l.rset, l.wset)
  }

  ghost predicate Inv(s: State) {
    Membership(s) && Informed(s) && forall t :: t in s.txns ==> Tested(s.txns[t])
  }

  /** `s'` is `s` after transaction `t` has copied the list and, if it writes, put itself on top. */
  ghost predicate Entered(s: State, s': State, t: TxnId, rset: seq<RowId>, wset: seq<RowId>) {
    && t in s.txns && s.txns[t].Outside? && s'.txns == s.txns[t := Checking(rset, wset, s.active, 0)]
    && (wset == [] ==> s'.active == s.active && s'.activeLen == s.activeLen)
    && (wset != [] ==> s'.active == [SetEntry(t, wset)] + s.active && s'.activeLen == s.activeLen + 1)
  }

  lemma EnterKeepsMembership(s: State, s': State, t: TxnId, rset: seq<RowId>, wset: seq<RowId>)
    requires Membership(s) && Entered(s, s', t, rset, wset)
    ensures Membership(s')
  {
    if wset != [] {
      forall u | u in s'.txns && !s'.txns[u].Outside? && s'.txns[u].wset != [] ensures Listed(s'.active, u) {
        if u == t {
          assert s'.active[0].txn == u;
        } else {
          var i :| 0 <= i < |s.active| && s.active[i].txn == u;
          assert s'.active[i + 1].txn == u;
        }
      }
    }
  }

  lemma EnterKeepsInv(s: State, a: Action)
    requires Inv(s) && a.Enter? && Enabled(s, a)
    ensures Inv(Step(s, a))
  {
    var s' := Step(s, a);
    assert Entered(s, s', a.txn, a.rset, a.wset);
    EnterKeepsMembership(s, s', a.txn, a.rset, a.wset);
  }

  /** Steps that move one transaction on without touching the list. */
  lemma MoveKeepsInv(s: State, t: TxnId, l: Local)
    requires Inv(s) && t in s.txns && !s.txns[t].Outside? && !l.Outside? && Tested(l)
    requires l.wset == s.txns[t].wset
    requires forall e :: Knows(s.txns[t], e) ==> Knows(l, e)
    ensures Inv(Move(s, t, l))
  {
  }

  lemma CheckKeepsInv(s: State, a: Action)
    requires Inv(s) && (a.CheckNext? || a.FailHistory?) && Enabled(s, a)
    ensures Inv(Step(s, a))
  {
    var t := a.txn;
    var l := s.txns[t];
    forall e | Knows(l, e)
      ensures l.next >= |l.snapshot| ==> Knows(Passed(l.rset, l.wset), e)
      ensures l.next < |l.snapshot| && Clears(l.snapshot[l.next], l.rset, l.wset) ==> Knows(l.(next := l.next + 1), e)
    {
    }
    MoveKeepsInv(s, t, Step(s, a).txns[t]);
  }

  lemma LeaveKeepsInv(s: State, t: TxnId)
    requires Inv(s) && t in s.txns
    ensures Inv(Leave(s, t))
  {
    var s' := Leave(s, t);
    if Listed(s.active, t) {
      var i :| 0 <= i < |s.active| && s.active[i].txn == t;
      UnlinkAt(s.active, i);
      RemovalKeepsInv(s, s', t, i);
    } else {
      UnlinkMissing(s.active, t);
    }
  }

  /** `s'` is `s` after the `i`th entry, of transaction `t`, has been unlinked. */
  ghost predicate Unlinked(s: State, s': State, t: TxnId, i: nat) {
    && t in s.txns && i < |s.active| && s.active[i].txn == t
    && s' == State(s.active[..i] + s.active[i + 1..], s.activeLen - 1, s.txns[t := Outside])
  }

  function Before(i: nat, j: nat): nat {
    if j < i then j else j + 1
  }

  lemma RemovalKeepsMembership(s: State, s': State, t: TxnId, i: nat)
    requires Membership(s) && Unlinked(s, s', t, i)
    ensures Membership(s')
  {
    forall j | 0 <= j < |s'.active|
      ensures s'.active[j].txn in s'.txns && s'.active[j].rows != [] && s'.active[j].txn != t
      ensures !s'.txns[s'.active[j].txn].Outside? && s'.txns[s'.active[j].txn].wset == s'.active[j].rows
    {
      assert s'.active[j] == s.active[Before(i, j)];
    }
    forall u | u in s'.txns && !s'.txns[u].Outside? && s'.txns[u].wset != [] ensures Listed(s'.active, u) {
      StillListed(s, s', t, i, u);
    }
  }

  lemma StillListed(s: State, s': State, t: TxnId, i: nat, u: TxnId)
    requires Unlinked(s, s', t, i) && Listed(s.active, u) && u != t
    ensures Listed(s'.active, u)
  {
    var j :| 0 <= j < |s.active| && s.active[j].txn == u;
    assert s'.active[if j < i then j else j - 1].txn == u;
  }

  lemma RemovalKeepsInv(s: State, s': State, t: TxnId, i: nat)
    requires Inv(s) && Unlinked(s, s', t, i)
    ensures Inv(s')
  {
    RemovalKeepsMembership(s, s', t, i);
  }

  lemma StepKeepsInv(s: State, a: Action)
    requires Inv(s) && Enabled(s, a)
    ensures Inv(Step(s, a))
  {
    match a
    case Enter(_, _, _) => EnterKeepsInv(s, a);
    case CheckNext(_) => CheckKeepsInv(s, a);
    case FailHistory(_) => CheckKeepsInv(s, a);
    case LeaveFailed(t) => LeaveKeepsInv(s, t);
    case Finish(t) => if s.txns[t].wset == [] { ReadOnlyLeaves(s, t); } else { LeaveKeepsInv(s, t); }
  }

  lemma ReadOnlyLeaves(s: State, t: TxnId)
    requires Inv(s) && t in s.txns && s.txns[t].Passed? && s.txns[t].wset == []
    ensures Inv(Move(s, t, Outside))
  {
  }

  lemma {:induction false} RunKeepsInv(s: State, run: seq<Action>)
    requires Inv(s) && AllowedRun(s, run)
    ensures Inv(Run(s, run))
    decreases |run|
  {
    if run != [] {
      StepKeepsInv(s, run[0]);
      RunKeepsInv(Step(s, run[0]), run[1..]);
    }
  }

  /**
   * In every interleaving, a transaction that has passed and is on the list shares no row, read or written, with the
   * write set of any transaction below it; and the counter is the length of the list.
   */
  lemma PassedAreSeparate(txns: set<TxnId>, run: seq<Action>, i: nat, j: nat)
    requires AllowedRun(Init(txns), run)
    requires var s := Run(Init(txns), run);
             i < j < |s.active| && s.active[i].txn in s.txns && s.txns[s.active[i].txn].Passed?
    ensures var s := Run(Init(txns), run);
            && s.activeLen == |s.active|
            && Apart(s.active[j].rows, s.active[i].rows)
            && Apart(s.active[j].rows, s.txns[s.active[i].txn].rset)
  {
    RunKeepsInv(Init(txns), run);
    var s := Run(Init(txns), run);
    assert Knows(s.txns[s.active[i].txn], s.active[j]);
  }

  /** `central_finish` never misses the entry of a transaction that passed: its assertion on that branch holds. */
  lemma PassedWriterIsListed(txns: set<TxnId>, run: seq<Action>, t: TxnId)
    requires AllowedRun(Init(txns), run)
    requires var s := Run(Init(txns), run); t in s.txns && s.txns[t].Passed? && s.txns[t].wset != []
    ensures Listed(Run(Init(txns), run).active, t)
  {
    RunKeepsInv(Init(txns), run);
  }

  /** How many entries of its copy a transaction has tested in a run. */
  function Tests(run: seq<Action>, t: TxnId): nat {
    if run == [] then 0 else (if run[0] == CheckNext(t) then 1 else 0) + Tests(run[1..], t)
  }

  /** The transaction does nothing but test: the history scan has not rejected it and it has not left yet. */
  ghost predicate OnlyTests(run: seq<Action>, t: TxnId) {
    forall i :: 0 <= i < |run| && run[i].txn == t ==> run[i].CheckNext?
  }

  ghost predicate ClearsAll(list: seq<SetEntry>, rset: seq<RowId>, wset: seq<RowId>) {
    forall i :: 0 <= i < |list| ==> Clears(list[i], rset, wset)
  }

  /** Where a transaction stands that entered with this copy and has made `n` tests. */
  ghost predicate Stands(l: Local, rset: seq<RowId>, wset: seq<RowId>, copy: seq<SetEntry>, n: nat) {
    || (l == Checking(rset, wset, copy, n) && n <= |copy| && ClearsAll(copy[..n], rset, wset))
    || (l == Passed(rset, wset) && ClearsAll(copy, rset, wset))
    || (l == Failed(rset, wset) && !ClearsAll(copy, rset, wset))
  }

  lemma TestStands(s: State, t: TxnId, rset: seq<RowId>, wset: seq<RowId>, copy: seq<SetEntry>, n: nat)
    requires Enabled(s, CheckNext(t)) && Stands(s.txns[t], rset, wset, copy, n)
    ensures Stands(Step(s, CheckNext(t)).txns[t], rset, wset, copy, n + 1)
  {
    assert copy[..|copy|] == copy;
    if n < |copy| {
      assert copy[..n + 1] == copy[..n] + [copy[n]];
    }
  }

  lemma {:induction false} RunStands(
    s: State, run: seq<Action>, t: TxnId, rset: seq<RowId>, wset: seq<RowId>, copy: seq<SetEntry>, n: nat)
    requires AllowedRun(s, run) && OnlyTests(run, t) && t in s.txns && Stands(s.txns[t], rset, wset, copy, n)
    ensures t in Run(s, run).txns && Stands(Run(s, run).txns[t], rset, wset, copy, n + Tests(run, t))
    decreases |run|
  {
    if run != [] {
      var mine := run[0] == CheckNext(t);
      if mine {
        TestStands(s, t, rset, wset, copy, n);
      } else {
        assert run[0].txn != t;
      }
      assert forall i :: 0 <= i < |run[1..]| ==> run[1..][i] == run[i + 1];
      RunStands(Step(s, run[0]), run[1..], t, rset, wset, copy, n + if mine then 1 else 0);
    }
  }

  /**
   * The verdict. However the others interleave, a transaction that the history scan does not reject passes if and only
   * if both its sets are apart from every write set that was on the list when it entered, and it has its verdict after
   * one test for each of them and one more step.
   */
  lemma VerdictIff(s: State, t: TxnId, rset: seq<RowId>, wset: seq<RowId>, run: seq<Action>)
    requires Enabled(s, Enter(t, rset, wset)) && AllowedRun(Step(s, Enter(t, rset, wset)), run) && OnlyTests(run, t)
    ensures var s' := Run(Step(s, Enter(t, rset, wset)), run);
            && t in s'.txns
            && (Tests(run, t) > |s.active| ==> s'.txns[t].Passed? || s'.txns[t].Failed?)
            && (s'.txns[t].Passed? ==> ClearsAll(s.active, rset, wset))
            && (s'.txns[t].Failed? ==> !ClearsAll(s.active, rset, wset))
  {
    assert s.active[..0] == [];
    RunStands(Step(s, Enter(t, rset, wset)), run, t, rset, wset, s.active, 0);
  }
}
