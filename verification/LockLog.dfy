/**
 * What a row's lock manager has told its callers, and who holds the row and who waits for it according to that alone:
 * the return codes of `lock_get` and the waiters that each `lock_release` lets in.
 */
module LockLog {
  import opened Types
  import opened LockSpec

  datatype Event =
    | Asked(entry: LockEntry, rc: RC)
    | GaveBack(txn: nat, granted: seq<LockEntry>)

  function Without(held: multiset<LockEntry>, txn: nat): multiset<LockEntry> {
    held[LockEntry(txn, EX) := 0][LockEntry(txn, SH) := 0]
  }

  /** A transaction holds the row from the call that grants it until its own release. */
  function Held(log: seq<Event>): multiset<LockEntry> {
    if log == [] then multiset{}
    else
      var before := Held(log[..|log| - 1]);
      match log[|log| - 1]
      case Asked(e, rc) => if rc == RCOK then before + multiset{e} else before
      case GaveBack(txn, granted) => Without(before, txn) + multiset(granted)
  }

  /** A transaction is queued from the WAIT it was answered until some release lets it in. */
  function Queued(log: seq<Event>): multiset<LockEntry> {
    if log == [] then multiset{}
    else
      var before := Queued(log[..|log| - 1]);
      match log[|log| - 1]
      case Asked(e, rc) => if rc == WAIT then before + multiset{e} else before
      case GaveBack(_, granted) => before - multiset(granted)
  }

  /** The row's own lists say the same as the log. */
  ghost predicate Tells(s: State, log: seq<Event>) {
    multiset(s.owners) == Held(log) && multiset(s.waiters) == Queued(log)
  }

  /** No transaction stands twice on the row. */
  ghost predicate Single(s: State) {
    && (forall i, j :: 0 <= i < j < |s.owners| ==> s.owners[i].txn != s.owners[j].txn)
    && (forall i, j :: 0 <= i < j < |s.waiters| ==> s.waiters[i].txn != s.waiters[j].txn)
    && (forall i, j :: 0 <= i < |s.owners| && 0 <= j < |s.waiters| ==> s.owners[i].txn != s.waiters[j].txn)
  }

  lemma LogGrows(log: seq<Event>, ev: Event)
    ensures (log + [ev])[..|log + [ev]| - 1] == log && (log + [ev])[|log + [ev]| - 1] == ev
  {
  }

  lemma EnqueueContents(q: seq<LockEntry>, e: LockEntry)
    ensures multiset(Enqueue(q, e)) == multiset(q) + multiset{e}
  {
    var n := Younger(q, e.txn);
    assert q == q[..n] + q[n..];
  }

  lemma AskKeepsLog(mode: Mode, s: State, log: seq<Event>, e: LockEntry)
    requires Tells(s, log)
    ensures var r := LockGet(mode, s, e); Tells(r.state, log + [Asked(e, r.rc)])
  {
    var r := LockGet(mode, s, e);
    LogGrows(log, Asked(e, r.rc));
    EnqueueContents(s.waiters, e);
  }

  lemma AskKeepsSingle(mode: Mode, s: State, e: LockEntry)
    requires Single(s) && !Owns(s, e.txn) && !Waits(s, e.txn)
    ensures Single(LockGet(mode, s, e).state)
  {
    assert forall i :: 0 <= i < |s.owners| ==> s.owners[i].txn != e.txn;
    assert forall i :: 0 <= i < |s.waiters| ==> s.waiters[i].txn != e.txn;
    var s' := LockGet(mode, s, e).state;
    if !MustQueue(mode, s, e) {
      GrantKeepsSingle(s, s', e);
    } else if s'.waiters != s.waiters {
      QueueingKeepsSingle(s, s', e, if mode == Calvin then |s.waiters| else Younger(s.waiters, e.txn));
    }
  }

  lemma GrantKeepsSingle(s: State, s': State, e: LockEntry)
    requires Single(s) && s'.owners == [e] + s.owners && s'.waiters == s.waiters
    requires forall i :: 0 <= i < |s.owners| ==> s.owners[i].txn != e.txn
    requires forall i :: 0 <= i < |s.waiters| ==> s.waiters[i].txn != e.txn
    ensures Single(s')
  {
  }

  lemma QueueingKeepsSingle(s: State, s': State, e: LockEntry, n: nat)
    requires Single(s) && n <= |s.waiters|
    requires s'.waiters == s.waiters[..n] + [e] + s.waiters[n..] && s'.owners == s.owners
    requires forall i :: 0 <= i < |s.owners| ==> s.owners[i].txn != e.txn
    requires forall i :: 0 <= i < |s.waiters| ==> s.waiters[i].txn != e.txn
    ensures Single(s')
  {
    assert forall i :: 0 <= i < |s'.waiters| ==>
      s'.waiters[i] == if i < n then s.waiters[i] else if i == n then e else s.waiters[i - 1];
  }

  lemma {:induction false} DisownContents(q: seq<LockEntry>, txn: nat)
    requires forall i, j :: 0 <= i < j < |q| ==> q[i].txn != q[j].txn
    requires forall i :: 0 <= i < |q| ==> q[i].kind != NONE
    ensures multiset(Disown(q, txn)) == Without(multiset(q), txn)
  {
    if q != [] {
      if q[0].txn == txn {
        HeadDisowned(q);
      } else {
        DisownContents(q[1..], txn);
        OtherStays(q[0], multiset(q[1..]), txn);
        assert q == [q[0]] + q[1..];
      }
    }
  }

  lemma HeadDisowned(q: seq<LockEntry>)
    requires q != [] && q[0].kind != NONE && forall i :: 0 < i < |q| ==> q[i].txn != q[0].txn
    ensures multiset(q[1..]) == Without(multiset(q), q[0].txn)
  {
    assert q == [q[0]] + q[1..];
    assert LockEntry(q[0].txn, EX) !in q[1..] && LockEntry(q[0].txn, SH) !in q[1..];
  }

  lemma OtherStays(e: LockEntry, m: multiset<LockEntry>, txn: nat)
    requires e.txn != txn
    ensures Without(multiset{e} + m, txn) == multiset{e} + Without(m, txn)
  {
  }

  /** The state after the first waiter has joined. */
  function Joined(s: State): State
    requires s.waiters != []
  {
    State(s.waiters[0].kind, [s.waiters[0]] + s.owners, s.waiters[1..])
  }

  lemma {:induction false} PromoteContents(s: State)
    ensures multiset(Promote(s).owners) == multiset(s.owners) + multiset(Promoted(s))
    ensures multiset(Promote(s).waiters) + multiset(Promoted(s)) == multiset(s.waiters)
    decreases |s.waiters|
  {
    if s.waiters != [] && !ConflictLock(s.lockType, s.waiters[0].kind) {
      assert s.waiters == [s.waiters[0]] + s.waiters[1..];
      PromoteContents(Joined(s));
    }
  }

  lemma {:induction false} PromoteKeepsSingle(s: State)
    requires Single(s)
    ensures Single(Promote(s))
    decreases |s.waiters|
  {
    if s.waiters != [] && !ConflictLock(s.lockType, s.waiters[0].kind) {
      PromoteKeepsSingle(Joined(s));
    }
  }

  lemma ReleaseKeepsSingle(s: State, txn: nat)
    requires Single(s) && Owns(s, txn)
    ensures Single(LockRelease(s, txn))
  {
    var i :| 0 <= i < |s.owners| && s.owners[i].txn == txn;
    DisownAt(s.owners, i);
    DropKeepsSingle(s, Released(s, txn), i);
    PromoteKeepsSingle(Released(s, txn));
  }

  lemma DropKeepsSingle(s: State, s': State, i: nat)
    requires Single(s) && i < |s.owners|
    requires s'.owners == s.owners[..i] + s.owners[i + 1..] && s'.waiters == s.waiters
    ensures Single(s')
  {
    assert forall j :: 0 <= j < |s'.owners| ==> s'.owners[j] == s.owners[if j < i then j else j + 1];
  }

  lemma ReleaseKeepsLog(s: State, log: seq<Event>, txn: nat)
    requires Tells(s, log) && Single(s) && OwnersMatch(s)
    ensures Tells(LockRelease(s, txn), log + [GaveBack(txn, Promoted(Released(s, txn)))])
  {
    var s1 := Released(s, txn);
    LogGrows(log, GaveBack(txn, Promoted(s1)));
    DisownContents(s.owners, txn);
    PromoteContents(s1);
  }

  /** Two transactions that hold the row at the same time both share it, and none holds it twice. */
  ghost predicate Compatible(held: multiset<LockEntry>) {
    && (forall e :: e in held ==> held[e] == 1)
    && (forall e, f :: e in held && f in held && e != f ==> e.txn != f.txn && e.kind == SH && f.kind == SH)
  }

  lemma HoldersAreCompatible(s: State, log: seq<Event>)
    requires Tells(s, log) && Single(s) && Safe(s)
    ensures Compatible(Held(log))
  {
    DistinctCounts(s.owners);
    forall e, f | e in Held(log) && f in Held(log) && e != f ensures e.txn != f.txn && e.kind == SH && f.kind == SH {
      assert e in s.owners && f in s.owners;
    }
  }

  lemma {:induction false} DistinctCounts(q: seq<LockEntry>)
    requires forall i, j :: 0 <= i < j < |q| ==> q[i].txn != q[j].txn
    ensures forall e :: e in q ==> multiset(q)[e] == 1
  {
    if q != [] {
      DistinctCounts(q[1..]);
      assert q == [q[0]] + q[1..];
    }
  }

  /** The row is free, or everybody shares it. */
  ghost predicate AllShare(held: multiset<LockEntry>, kind: LockType) {
    forall h :: h in held ==> h.kind == SH && kind == SH
  }

  ghost predicate NoneYounger(entries: multiset<LockEntry>, txn: nat) {
    forall w :: w in entries ==> w.txn <= txn
  }

  ghost predicate NoneOlder(entries: multiset<LockEntry>, txn: nat) {
    forall h :: h in entries ==> txn <= h.txn
  }

  /** What a request for the row must be answered, under WAIT_DIE, by who holds it and who waits. */
  ghost function WaitDieAnswer(held: multiset<LockEntry>, queued: multiset<LockEntry>, e: LockEntry): RC {
    if AllShare(held, e.kind) && NoneYounger(queued, e.txn) then RCOK
    else if NoneOlder(held, e.txn) then WAIT
    else Abort
  }

  /** The same under CALVIN. */
  ghost function CalvinAnswer(held: multiset<LockEntry>, queued: multiset<LockEntry>, e: LockEntry): RC {
    if AllShare(held, e.kind) && queued == multiset{} then RCOK else WAIT
  }

  lemma ConflictIffNotShared(s: State, kind: LockType)
    requires OwnersMatch(s) && kind != NONE
    ensures ConflictLock(s.lockType, kind) <==> !AllShare(multiset(s.owners), kind)
  {
    if s.owners != [] {
      assert s.owners[0] in multiset(s.owners);
    }
    forall h | h in multiset(s.owners) ensures h.kind == s.lockType {
      assert h in s.owners;
    }
  }

  lemma HeadIsYoungest(q: seq<LockEntry>, txn: nat)
    requires forall i, j :: 0 <= i < j < |q| ==> q[i].txn > q[j].txn
    ensures q != [] && txn < q[0].txn <==> !NoneYounger(multiset(q), txn)
  {
    if q != [] {
      assert q[0] in multiset(q);
    }
    forall w | w in multiset(q) ensures w.txn <= q[0].txn {
      assert w in q;
    }
  }

  lemma CanWaitIffNoneOlder(s: State, txn: nat)
    ensures CanWait(s, txn) <==> NoneOlder(multiset(s.owners), txn)
  {
    forall i | 0 <= i < |s.owners| ensures s.owners[i] in multiset(s.owners) {}
  }

  lemma WaitDieAnswers(s: State, log: seq<Event>, e: LockEntry)
    requires Tells(s, log) && Safe(s) && e.kind != NONE
    requires forall i, j :: 0 <= i < j < |s.waiters| ==> s.waiters[i].txn > s.waiters[j].txn
    ensures LockGet(LockSpec.WaitDie, s, e).rc == WaitDieAnswer(Held(log), Queued(log), e)
  {
    ConflictIffNotShared(s, e.kind);
    HeadIsYoungest(s.waiters, e.txn);
    CanWaitIffNoneOlder(s, e.txn);
  }

  lemma CalvinAnswers(s: State, log: seq<Event>, e: LockEntry)
    requires Tells(s, log) && Safe(s) && e.kind != NONE
    ensures LockGet(LockSpec.Calvin, s, e).rc == CalvinAnswer(Held(log), Queued(log), e)
  {
    ConflictIffNotShared(s, e.kind);
    assert s.waiters != [] ==> s.waiters[0] in Queued(log);
  }
}
