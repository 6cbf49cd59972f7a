/** The parallel validation of `OptCC`: the list of validating writers and the two critical sections around it. */
module OccSpec {
  import opened Types

  type RowId = int
  type TxnId = nat

  /** `set_ent`: a transaction's write set on the `active` list. */
  datatype SetEntry = SetEntry(txn: TxnId, rows: seq<RowId>)

  ghost predicate Apart(a: seq<RowId>, b: seq<RowId>) {
    forall x :: x in a ==> x !in b
  }

  /** The list without the transaction's entry. */
  function Unlink(active: seq<SetEntry>, txn: TxnId): seq<SetEntry> {
    if active == [] then [] else if active[0].txn == txn then active[1..] else [active[0]] + Unlink(active[1..], txn)
  }

  predicate Listed(active: seq<SetEntry>, txn: TxnId) {
    exists i :: 0 <= i < |active| && active[i].txn == txn
  }

  lemma {:induction false} UnlinkAt(active: seq<SetEntry>, i: nat)
    requires i < |active| && forall k :: 0 <= k < i ==> active[k].txn != active[i].txn
    ensures Unlink(active, active[i].txn) == active[..i] + active[i + 1..]
  {
    if i > 0 {
      var rest := active[1..];
      assert rest[i - 1] == active[i] && forall k :: 0 <= k < i - 1 ==> rest[k] == active[k + 1];
      UnlinkAt(rest, i - 1);
      assert active[..i] == [active[0]] + rest[..i - 1] && active[i + 1..] == rest[i..];
      assert [active[0]] + (rest[..i - 1] + rest[i..]) == ([active[0]] + rest[..i - 1]) + rest[i..];
    }
  }

  lemma UnlinkMissing(active: seq<SetEntry>, txn: TxnId)
    requires forall k :: 0 <= k < |active| ==> active[k].txn != txn
    ensures Unlink(active, txn) == active
  {
  }

  /** `test_valid`: the double loop over two sets of rows. */
  method TestValid(set1: seq<RowId>, set2: seq<RowId>) returns (valid: bool)
    ensures valid <==> Apart(set1, set2)
  {
    for i := 0 to |set1|
      invariant forall k :: 0 <= k < i ==> set1[k] !in set2
    {
      for j := 0 to |set2|
        invariant forall l :: 0 <= l < j ==> set1[i] != set2[l]
      {
        if set1[i] == set2[j] {
          assert set1[i] in set1 && set1[i] in set2;
          return false;
        }
      }
    }
    return true;
  }

  datatype Access = Access(row: RowId, isWrite: bool)

  function RowsOf(accesses: seq<Access>, isWrite: bool): seq<RowId> {
    if accesses == [] then []
    else RowsOf(accesses[..|accesses| - 1], isWrite) +
         if accesses[|accesses| - 1].isWrite == isWrite then [accesses[|accesses| - 1].row] else []
  }

  /** No access is lost or counted twice, and each is in the set of its kind. */
  lemma {:induction false} RowsOfPartition(accesses: seq<Access>)
    ensures |RowsOf(accesses, false)| + |RowsOf(accesses, true)| == |accesses|
    ensures forall x, w :: x in RowsOf(accesses, w) <==> Access(x, w) in accesses
  {
    if accesses != [] {
      var rest, last := accesses[..|accesses| - 1], accesses[|accesses| - 1];
      assert accesses == rest + [last];
      RowsOfPartition(rest);
    }
  }

  /** `get_rw_set`: a written row goes to the write set only, every other row to the read set. */
  method GetRwSet(accesses: seq<Access>) returns (rset: seq<RowId>, wset: seq<RowId>)
    ensures rset == RowsOf(accesses, false) && wset == RowsOf(accesses, true)
  {
    rset, wset := [], [];
    for i := 0 to |accesses|
      invariant rset == RowsOf(accesses[..i], false) && wset == RowsOf(accesses[..i], true)
    {
      assert accesses[..i + 1][..i] == accesses[..i];
      if accesses[i].isWrite {
        wset := wset + [accesses[i].row];
      } else {
        rset := rset + [accesses[i].row];
      }
    }
    assert accesses[..|accesses|] == accesses;
  }

  /** A committed write set and its number. */
  datatype Committed = Committed(tn: nat, entry: SetEntry)

  class ActiveSet {
    var active: seq<SetEntry>
    var activeLen: nat
    var history: seq<Committed>
    var hisLen: nat
    var tnc: nat

    /** The counters are right, and the history carries the numbers from the present one down. */
    ghost predicate Valid()
      reads this
    {
      && activeLen == |active| && hisLen == |history| <= tnc
      && forall i :: 0 <= i < |history| ==> history[i].tn == tnc - i
    }

    constructor ()
      ensures Valid() && active == [] && history == [] && tnc == 0
    {
      active, activeLen := [], 0;
      history, hisLen, tnc := [], 0, 0;
    }

    /** The first critical section: copy the list, then join it unless read-only. */
    method Enter(txn: TxnId, wset: seq<RowId>) returns (finishActive: seq<SetEntry>)
      requires Valid()
      modifies this`active, this`activeLen
      ensures Valid() && finishActive == old(active)
      ensures active == if wset == [] then old(active) else [SetEntry(txn, wset)] + old(active)
    {
      finishActive := [];
      for n := 0 to |active|
        invariant finishActive == active[..n]
      {
        finishActive := finishActive + [active[n]];
      }
      if wset != [] {
        activeLen := activeLen + 1;
        active := [SetEntry(txn, wset)] + active;
      }
    }

    /** The second critical section, and the one of `central_finish`: leave the list if still on it. */
    method Leave(txn: TxnId) returns (found: bool)
      requires Valid()
      modifies this`active, this`activeLen
      ensures Valid() && active == Unlink(old(active), txn) && found == Listed(old(active), txn)
    {
      var i := 0;
      while i < |active| && active[i].txn != txn
        invariant 0 <= i <= |active|
        invariant forall k :: 0 <= k < i ==> active[k].txn != txn
      {
        i := i + 1;
      }
      found := i < |active|;
      if found {
        UnlinkAt(active, i);
        active := active[..i] + active[i + 1..];
        activeLen := activeLen - 1;
      } else {
        UnlinkMissing(active, txn);
      }
    }

    /** `central_finish`: a writer leaves the list and, if it committed, its write set is numbered and kept. */
    method Finish(rc: RC, txn: TxnId, wset: seq<RowId>)
      requires Valid() && (wset != [] && !Listed(active, txn) ==> rc == Abort)
      modifies this
      ensures Valid() && active == if wset == [] then old(active) else Unlink(old(active), txn)
      ensures if wset != [] && rc == RCOK
              then tnc == old(tnc) + 1 && history == [Committed(tnc, SetEntry(txn, wset))] + old(history)
              else tnc == old(tnc) && history == old(history)
    {
      if wset != [] {
        var found := Leave(txn);
        if found && rc == RCOK {
          tnc := tnc + 1;
          history := [Committed(tnc, SetEntry(txn, wset))] + history;
          hisLen := hisLen + 1;
        }
      }
    }
  }

  /** The checks between the critical sections, against the copy taken in the first one. */
  method CheckActive(finishActive: seq<SetEntry>, rset: seq<RowId>, wset: seq<RowId>) returns (valid: bool)
    ensures valid <==> forall i :: 0 <= i < |finishActive| ==>
                         Apart(finishActive[i].rows, rset) && Apart(finishActive[i].rows, wset)
  {
    for i := 0 to |finishActive|
      invariant forall k :: 0 <= k < i ==> Apart(finishActive[k].rows, rset) && Apart(finishActive[k].rows, wset)
    {
      valid := TestValid(finishActive[i].rows, rset);
      if valid {
        valid := TestValid(finishActive[i].rows, wset);
      }
      if !valid {
        return;
      }
    }
    valid := true;
  }
}
