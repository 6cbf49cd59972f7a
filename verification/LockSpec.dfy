/** `Row_lock` in its WAIT_DIE and CALVIN modes, as functions on the lock's state. */
module LockSpec {
  import opened Types

  /** LOCK_EX, LOCK_SH and LOCK_NONE. */
  datatype LockType = EX | SH | NONE

  datatype Mode = WaitDie | Calvin

  /** `txn` orders the transactions: the timestamp under WAIT_DIE, the place in the schedule under CALVIN. */
  datatype LockEntry = LockEntry(txn: nat, kind: LockType)

  /** `owners` is the one hash bucket, newest owner first; `waiters` is written head first. */
  datatype State = State(lockType: LockType, owners: seq<LockEntry>, waiters: seq<LockEntry>)

  datatype Result = Result(state: State, rc: RC)

  const Unlocked := State(NONE, [], [])

  /** `conflict_lock`. */
  predicate ConflictLock(l1: LockType, l2: LockType) {
    if l1 == NONE || l2 == NONE then false else l1 == EX || l2 == EX
  }

  predicate MustQueue(mode: Mode, s: State, e: LockEntry) {
    || ConflictLock(s.lockType, e.kind)
    || (mode == WaitDie && s.waiters != [] && e.txn < s.waiters[0].txn)
    || (mode == Calvin && s.waiters != [])
  }

  /** Under WAIT_DIE a transaction may only wait for younger ones. */
  predicate CanWait(s: State, txn: nat) {
    forall i :: 0 <= i < |s.owners| ==> txn <= s.owners[i].txn
  }

  /** How many leading waiters are younger than `txn`. */
  function Younger(q: seq<LockEntry>, txn: nat): (n: nat)
    ensures n <= |q|
    ensures forall i :: 0 <= i < n ==> txn < q[i].txn
    ensures n < |q| ==> q[n].txn <= txn
  {
    if q == [] || q[0].txn <= txn then 0 else 1 + Younger(q[1..], txn)
  }

  function Enqueue(q: seq<LockEntry>, e: LockEntry): seq<LockEntry> {
    q[..Younger(q, e.txn)] + [e] + q[Younger(q, e.txn)..]
  }

  function LockGet(mode: Mode, s: State, e: LockEntry): Result {
    if MustQueue(mode, s, e) then
      if mode == Calvin then Result(s.(waiters := s.waiters + [e]), WAIT)
      else if CanWait(s, e.txn) then Result(s.(waiters := Enqueue(s.waiters, e)), WAIT)
      else Result(s, Abort)
    else Result(s.(lockType := e.kind, owners := [e] + s.owners), RCOK)
  }

  /** Take the transaction's entry out of the owner bucket. */
  function Disown(q: seq<LockEntry>, txn: nat): seq<LockEntry> {
    if q == [] then [] else if q[0].txn == txn then q[1..] else [q[0]] + Disown(q[1..], txn)
  }

  lemma {:induction false} DisownAt(q: seq<LockEntry>, i: nat)
    requires i < |q| && forall k :: 0 <= k < i ==> q[k].txn != q[i].txn
    ensures Disown(q, q[i].txn) == q[..i] + q[i + 1..]
  {
    if i > 0 {
      var rest := q[1..];
      assert rest[i - 1] == q[i] && forall k :: 0 <= k < i - 1 ==> rest[k] == q[k + 1];
      DisownAt(rest, i - 1);
      assert q[..i] == [q[0]] + rest[..i - 1] && q[i + 1..] == rest[i..];
      assert [q[0]] + (rest[..i - 1] + rest[i..]) == ([q[0]] + rest[..i - 1]) + rest[i..];
    }
  }

  lemma DisownMembers(q: seq<LockEntry>, txn: nat)
    ensures forall e :: e in Disown(q, txn) ==> e in q
    ensures |Disown(q, txn)| <= |q|
  {
  }

  /** "If any waiter can join the owners, just do it!" */
  function Promote(s: State): State
    decreases |s.waiters|
  {
    if s.waiters == [] || ConflictLock(s.lockType, s.waiters[0].kind) then s
    else Promote(State(s.waiters[0].kind, [s.waiters[0]] + s.owners, s.waiters[1..]))
  }

  /** The waiters that join, in order. */
  function Promoted(s: State): seq<LockEntry>
    decreases |s.waiters|
  {
    if s.waiters == [] || ConflictLock(s.lockType, s.waiters[0].kind) then []
    else [s.waiters[0]] + Promoted(State(s.waiters[0].kind, [s.waiters[0]] + s.owners, s.waiters[1..]))
  }

  function Released(s: State, txn: nat): State {
    var rest := Disown(s.owners, txn);
    State(if rest == [] then NONE else s.lockType, rest, s.waiters)
  }

  function LockRelease(s: State, txn: nat): State {
    Promote(Released(s, txn))
  }

  ghost predicate Owns(s: State, txn: nat) {
    exists i :: 0 <= i < |s.owners| && s.owners[i].txn == txn
  }

  ghost predicate Waits(s: State, txn: nat) {
    exists i :: 0 <= i < |s.waiters| && s.waiters[i].txn == txn
  }

  /** `lock_type` tells the owners' mode: one exclusive owner, or any number of shared ones, or nobody. */
  ghost predicate OwnersMatch(s: State) {
    && (s.lockType == NONE <==> s.owners == [])
    && (s.lockType == EX ==> |s.owners| == 1)
    && (forall i :: 0 <= i < |s.owners| ==> s.owners[i].kind == s.lockType)
  }

  /** A waiter at the head is really blocked by the owners. */
  ghost predicate HeadBlocked(s: State) {
    s.waiters != [] ==> ConflictLock(s.lockType, s.waiters[0].kind)
  }

  ghost predicate Safe(s: State) {
    && OwnersMatch(s)
    && (forall i :: 0 <= i < |s.waiters| ==> s.waiters[i].kind != NONE)
    && HeadBlocked(s)
  }

  lemma PromoteIsSafe(s: State)
    requires OwnersMatch(s) && forall i :: 0 <= i < |s.waiters| ==> s.waiters[i].kind != NONE
    ensures Safe(Promote(s))
    decreases |s.waiters|
  {
  }

  lemma DisownMatches(s: State, txn: nat)
    requires OwnersMatch(s)
    ensures OwnersMatch(Released(s, txn))
  {
    DisownMembers(s.owners, txn);
    forall e | e in Disown(s.owners, txn) ensures e.kind == s.lockType {}
  }

  /** Lock safety and no stranded waiter, kept by both operations in both modes. */
  lemma LockGetIsSafe(mode: Mode, s: State, e: LockEntry)
    requires Safe(s) && e.kind != NONE
    ensures Safe(LockGet(mode, s, e).state)
  {
  }

  lemma LockReleaseIsSafe(s: State, txn: nat)
    requires Safe(s)
    ensures Safe(LockRelease(s, txn))
  {
    DisownMatches(s, txn);
    PromoteIsSafe(Released(s, txn));
  }
}
