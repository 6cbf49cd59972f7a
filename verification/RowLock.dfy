/** `Row_lock` itself: the owner bucket and the waiter list are sequence fields that the operations rewrite. */
module RowLock {
  import opened Types
  import opened LockSpec

  class LockManager {
    const mode: Mode
    var lockType: LockType
    var owners: seq<LockEntry>
    var waiters: seq<LockEntry>
    var ownerCnt: nat
    var waiterCnt: nat
    var maxOwnerTs: nat

    ghost function View(): State
      reads this
    {
      State(lockType, owners, waiters)
    }

    ghost predicate Valid()
      reads this
    {
      ownerCnt == |owners| && waiterCnt == |waiters| && Safe(View())
    }

    constructor (mode: Mode)
      ensures Valid() && View() == Unlocked && this.mode == mode
    {
      this.mode := mode;
      lockType, owners, waiters := NONE, [], [];
      ownerCnt, waiterCnt, maxOwnerTs := 0, 0, 0;
    }

    /** The walk over the owners that decides whether a WAIT_DIE transaction may wait. */
    method MayWait(txn: nat) returns (canwait: bool)
      ensures canwait <==> CanWait(View(), txn)
    {
      canwait := true;
      var i := 0;
      while i < |owners|
        invariant 0 <= i <= |owners|
        invariant forall k :: 0 <= k < i ==> txn <= owners[k].txn
      {
        if txn > owners[i].txn {
          return false;
        }
        i := i + 1;
      }
    }

    /** The walk over the waiters to the place that keeps them youngest first. */
    method InsertWaiter(e: LockEntry)
      modifies this`waiters
      ensures waiters == Enqueue(old(waiters), e)
    {
      var i := 0;
      while i < |waiters| && e.txn < waiters[i].txn
        invariant 0 <= i <= |waiters|
        invariant Younger(waiters, e.txn) == i + Younger(waiters[i..], e.txn)
      {
        i := i + 1;
      }
      waiters := waiters[..i] + [e] + waiters[i..];
    }

    /** `lock_get`, under the row latch. */
    method Acquire(txn: nat, kind: LockType) returns (rc: RC)
      requires Valid() && kind != NONE
      requires mode == WaitDie && MustQueue(mode, View(), LockEntry(txn, kind)) ==> !Owns(View(), txn)
      modifies this
      ensures Valid()
      ensures Result(View(), rc) == LockGet(mode, old(View()), LockEntry(txn, kind))
    {
      LockGetIsSafe(mode, View(), LockEntry(txn, kind));
      var conflict := ConflictLock(lockType, kind);
      if mode == WaitDie && !conflict && waiters != [] && txn < waiters[0].txn {
        conflict := true;
      }
      if mode == Calvin && !conflict && waiters != [] {
        conflict := true;
      }
      if conflict {
        if mode == WaitDie {
          var canwait := MayWait(txn);
          if canwait {
            InsertWaiter(LockEntry(txn, kind));
            waiterCnt := waiterCnt + 1;
            rc := WAIT;
          } else {
            rc := Abort;
          }
        } else {
          waiters := waiters + [LockEntry(txn, kind)];
          waiterCnt := waiterCnt + 1;
          rc := WAIT;
        }
      } else {
        if ownerCnt > 0 {
          assert kind == SH;
        }
        owners := [LockEntry(txn, kind)] + owners;
        if txn > maxOwnerTs { maxOwnerTs := txn; }
        ownerCnt := ownerCnt + 1;
        lockType := kind;
        rc := RCOK;
      }
    }

    /** `lock_release`, under the row latch: `granted` are the waiters let in, in order. */
    method Release(txn: nat) returns (granted: seq<LockEntry>)
      requires Valid() && Owns(View(), txn)
      modifies this
      ensures Valid()
      ensures View() == LockRelease(old(View()), txn) && granted == Promoted(Released(old(View()), txn))
    {
      LockReleaseIsSafe(View(), txn);
      RemoveOwner(txn);
      granted := PromoteWaiters();
    }

    /** Lets waiters in from the head as long as they fit. */
    method PromoteWaiters() returns (granted: seq<LockEntry>)
      requires ownerCnt == |owners| && waiterCnt == |waiters|
      modifies this
      ensures View() == Promote(old(View())) && granted == Promoted(old(View()))
      ensures ownerCnt == |owners| && waiterCnt == |waiters|
    {
      granted := [];
      ghost var s := View();
      while waiters != [] && !ConflictLock(lockType, waiters[0].kind)
        invariant ownerCnt == |owners| && waiterCnt == |waiters|
        invariant Promote(s) == Promote(View())
        invariant Promoted(s) == granted + Promoted(View())
        decreases |waiters|
      {
        ghost var before := View();
        var entry := waiters[0];
        waiters := waiters[1..];
        owners := [entry] + owners;
        ownerCnt, waiterCnt := ownerCnt + 1, waiterCnt - 1;
        if entry.txn > maxOwnerTs { maxOwnerTs := entry.txn; }
        lockType := entry.kind;
        assert View() == State(entry.kind, [entry] + before.owners, before.waiters[1..]);
        Regroup(granted, [entry], Promoted(View()));
        granted := granted + [entry];
      }
    }

    /** Find the transaction's entry among the owners and unlink it. */
    method RemoveOwner(txn: nat)
      requires Valid() && Owns(View(), txn)
      modifies this`owners, this`ownerCnt, this`lockType
      ensures View() == Released(old(View()), txn) && ownerCnt == |owners|
    {
      var i := 0;
      while owners[i].txn != txn
        invariant 0 <= i < |owners|
        invariant forall k :: 0 <= k < i ==> owners[k].txn != txn
        decreases |owners| - i
      {
        i := i + 1;
      }
      DisownAt(owners, i);
      owners := owners[..i] + owners[i + 1..];
      ownerCnt := ownerCnt - 1;
      if ownerCnt == 0 {
        lockType := NONE;
      }
    }
  }
}
