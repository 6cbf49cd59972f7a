/** `Maat` and `Row_maat` themselves: the loops of validation and of forward validation over a shared time table. */
module MaatManager {
  import opened Types
  import opened MaatSpec
  import opened TimeTables

  /** Lower bound of uncommitted writes greater than the upper bound of the transaction. */
  method NarrowUpper(tt: TimeTable, ids: seq<TxnId>, upper0: Ts) returns (upper: Ts, after: seq<TxnId>)
    requires tt.Valid()
    ensures Scan(upper, after) == ScanWrites(tt.view, ids, Scan(upper0, []))
  {
    upper, after := upper0, [];
    for i := 0 to |ids|
      invariant ScanWrites(tt.view, ids[i..], Scan(upper, after)) == ScanWrites(tt.view, ids, Scan(upper0, []))
    {
      assert ids[i..][1..] == ids[i + 1..];
      var low := tt.GetLower(ids[i]);
      if upper >= low {
        var state := tt.GetState(ids[i]);
        if state == VALIDATED || state == COMMITTED {
          upper := if low > 0 then low - 1 else low;
        }
        if state == RUNNING {
          after := Insert(after, ids[i]);
        }
      }
    }
  }

  /** Upper bound of uncommitted reads less than the lower bound of the transaction. */
  method RaiseOverReads(tt: TimeTable, ids: seq<TxnId>, lower0: Ts) returns (lower: Ts, before: seq<TxnId>)
    requires tt.Valid()
    ensures Scan(lower, before) == ScanReads(tt.view, ids, Scan(lower0, []))
  {
    lower, before := lower0, [];
    for i := 0 to |ids|
      invariant ScanReads(tt.view, ids[i..], Scan(lower, before)) == ScanReads(tt.view, ids, Scan(lower0, []))
    {
      assert ids[i..][1..] == ids[i + 1..];
      var up := tt.GetUpper(ids[i]);
      if lower <= up {
        var state := tt.GetState(ids[i]);
        if state == VALIDATED || state == COMMITTED {
          lower := if up < UINT64_MAX then up + 1 else up;
        }
        if state == RUNNING {
          before := Insert(before, ids[i]);
        }
      }
    }
  }

  /** Upper bound of uncommitted write writes less than the lower bound of the transaction. */
  method RaiseOverWrites(tt: TimeTable, ids: seq<TxnId>, lower0: Ts, after0: seq<TxnId>)
    returns (lower: Ts, after: seq<TxnId>)
    requires tt.Valid()
    ensures Scan(lower, after) == ScanWritesY(tt.view, ids, Scan(lower0, after0))
  {
    lower, after := lower0, after0;
    for i := 0 to |ids|
      invariant ScanWritesY(tt.view, ids[i..], Scan(lower, after)) == ScanWritesY(tt.view, ids, Scan(lower0, after0))
    {
      assert ids[i..][1..] == ids[i + 1..];
      var state := tt.GetState(ids[i]);
      var up := tt.GetUpper(ids[i]);
      if state == VALIDATED || state == COMMITTED {
        if lower <= up {
          lower := if up < UINT64_MAX then up + 1 else up;
        }
      }
      if state == RUNNING {
        after := Insert(after, ids[i]);
      }
    }
  }

  method StepOver(tt: TimeTable, before: seq<TxnId>, lower0: Ts, upper: Ts) returns (lower: Ts)
    requires tt.Valid()
    ensures lower == RaiseLower(tt.view, before, lower0, upper)
  {
    lower := lower0;
    for i := 0 to |before|
      invariant RaiseLower(tt.view, before[i..], lower, upper) == RaiseLower(tt.view, before, lower0, upper)
    {
      assert before[i..][1..] == before[i + 1..];
      var up := tt.GetUpper(before[i]);
      if up > lower && up < upper - 1 {
        lower := up + 1;
      }
    }
  }

  method LowerUppers(tt: TimeTable, before: seq<TxnId>, lower: Ts)
    requires tt.Valid()
    modifies tt`view, tt.table
    ensures tt.Valid() && tt.view == CapUppers(old(tt.view), before, lower)
  {
    for i := 0 to |before|
      invariant tt.Valid() && CapUppers(tt.view, before[i..], lower) == CapUppers(old(tt.view), before, lower)
    {
      assert before[i..][1..] == before[i + 1..];
      var up := tt.GetUpper(before[i]);
      if up >= lower {
        if lower > 0 { tt.PutUpper(before[i], lower - 1); } else { tt.PutUpper(before[i], lower); }
      }
    }
  }

  method Trim(tt: TimeTable, after: seq<TxnId>, lower: Ts, upper0: Ts) returns (upper: Ts)
    requires tt.Valid()
    ensures upper == TrimUpper(tt.view, after, lower, upper0)
  {
    upper := upper0;
    for i := 0 to |after|
      invariant TrimUpper(tt.view, after[i..], lower, upper) == TrimUpper(tt.view, after, lower, upper0)
    {
      assert after[i..][1..] == after[i + 1..];
      var low := tt.GetLower(after[i]);
      var up := tt.GetUpper(after[i]);
      if up != UINT64_MAX && up > Add64(lower, 2) && up < upper {
        upper := Sub64(up, 2);
      }
      if low < upper && low > Add64(lower, 1) {
        upper := Sub64(low, 1);
      }
    }
  }

  method RaiseLowers(tt: TimeTable, after: seq<TxnId>, upper: Ts)
    requires tt.Valid()
    modifies tt`view, tt.table
    ensures tt.Valid() && tt.view == LiftLowers(old(tt.view), after, upper)
  {
    for i := 0 to |after|
      invariant tt.Valid() && LiftLowers(tt.view, after[i..], upper) == LiftLowers(old(tt.view), after, upper)
    {
      assert after[i..][1..] == after[i + 1..];
      var low := tt.GetLower(after[i]);
      if low <= upper {
        if upper < UINT64_MAX { tt.PutLower(after[i], upper + 1); } else { tt.PutLower(after[i], upper); }
      }
    }
  }

  /** `Maat::validate`, inside its critical section. */
  method Validate(tt: TimeTable, id: TxnId, g: Gathered) returns (rc: RC)
    requires tt.Valid()
    modifies tt`view, tt.table
    ensures tt.Valid()
    ensures Verdict(rc, tt.view) == MaatSpec.Validate(old(tt.view), id, g)
  {
    var lower := tt.GetLower(id);
    var upper := tt.GetUpper(id);
    var after, before;
    if lower <= g.greatestWrite {
      lower := Add64(g.greatestWrite, 1);
    }
    upper, after := NarrowUpper(tt, g.uncommittedWrites, upper);
    if lower <= g.greatestRead {
      lower := Add64(g.greatestRead, 1);
    }
    lower, before := RaiseOverReads(tt, g.uncommittedReads, lower);
    lower, after := RaiseOverWrites(tt, g.uncommittedWritesY, lower, after);
    ghost var b := Scans(tt.view, id, g);
    assert b == Bounds(lower, upper, before, after);
    if lower >= upper {
      tt.PutState(id, ABORTED);
      rc := Abort;
    } else {
      tt.PutState(id, VALIDATED);
      rc := RCOK;
      lower := StepOver(tt, before, lower, upper);
      LowerUppers(tt, before, lower);
      upper := Trim(tt, after, lower, upper);
      RaiseLowers(tt, after, upper);
    }
    tt.PutLower(id, lower);
    tt.PutUpper(id, upper);
  }

  /** `Maat::find_bound`. */
  method FindBound(tt: TimeTable, id: TxnId) returns (rc: RC, commitTs: Ts)
    requires tt.Valid()
    modifies tt`view, tt.table
    ensures tt.Valid()
    ensures Bound(rc, tt.view, commitTs) == MaatSpec.FindBound(old(tt.view), id)
  {
    var lower := tt.GetLower(id);
    var upper := tt.GetUpper(id);
    if lower >= upper {
      tt.PutState(id, VALIDATED);
      rc, commitTs := Abort, 0;
    } else {
      tt.PutState(id, COMMITTED);
      rc, commitTs := RCOK, lower;
    }
  }

  class RowManager {
    var uncommittedReads: seq<TxnId>
    var uncommittedWrites: seq<TxnId>
    var lastRead: Ts
    var lastWrite: Ts
    var data: Row

    ghost function View(): RowState
      reads this
    {
      RowState(uncommittedReads, uncommittedWrites, lastRead, lastWrite, data)
    }

    constructor (row: Row)
      ensures View() == RowState([], [], 0, 0, row)
    {
      uncommittedReads, uncommittedWrites, lastRead, lastWrite, data := [], [], 0, 0, row;
    }

    static method CopyAll(xs: seq<TxnId>, into: seq<TxnId>) returns (q: seq<TxnId>)
      ensures q == InsertAll(into, xs)
    {
      q := into;
      for i := 0 to |xs|
        invariant InsertAll(q, xs[i..]) == InsertAll(into, xs)
      {
        assert xs[i..][1..] == xs[i + 1..];
        q := Insert(q, xs[i]);
      }
    }

    /** `read`. */
    method Read(id: TxnId, g: Gathered) returns (g': Gathered)
      modifies this`uncommittedReads
      ensures Touching(View(), g') == ReadRow(old(View()), id, g)
    {
      var writes := CopyAll(uncommittedWrites, g.uncommittedWrites);
      g' := g.(uncommittedWrites := writes);
      if g'.greatestWrite < lastWrite { g' := g'.(greatestWrite := lastWrite); }
      uncommittedReads := Insert(uncommittedReads, id);
    }

    /** `prewrite`. */
    method Prewrite(id: TxnId, g: Gathered) returns (g': Gathered)
      modifies this`uncommittedWrites
      ensures Touching(View(), g') == PrewriteRow(old(View()), id, g)
    {
      var readers := CopyAll(uncommittedReads, g.uncommittedReads);
      var writers := CopyAll(uncommittedWrites, g.uncommittedWritesY);
      g' := g.(uncommittedReads := readers, uncommittedWritesY := writers);
      if g'.greatestRead < lastRead { g' := g'.(greatestRead := lastRead); }
      if g'.greatestWrite < lastWrite { g' := g'.(greatestWrite := lastWrite); }
      uncommittedWrites := Insert(uncommittedWrites, id);
    }

    /** `abort`. */
    method Abort(id: TxnId, kind: AccessType)
      modifies this`uncommittedReads, this`uncommittedWrites
      ensures View() == AbortRow(old(View()), id, kind)
    {
      if kind == RD { uncommittedReads := Erase(uncommittedReads, id); }
      if kind == WR { uncommittedWrites := Erase(uncommittedWrites, id); }
    }

    static method PushWriters(tt: TimeTable, ids: seq<TxnId>, seen: seq<TxnId>, ts: Ts)
      requires tt.Valid()
      modifies tt`view, tt.table
      ensures tt.Valid() && tt.view == PushAfter(old(tt.view), ids, seen, ts)
    {
      for i := 0 to |ids|
        invariant tt.Valid() && PushAfter(tt.view, ids[i..], seen, ts) == PushAfter(old(tt.view), ids, seen, ts)
      {
        assert ids[i..][1..] == ids[i + 1..];
        if ids[i] !in seen {
          var low := tt.GetLower(ids[i]);
          if low <= ts { tt.PutLower(ids[i], Add64(ts, 1)); }
        }
      }
    }

    static method PullOthers(tt: TimeTable, ids: seq<TxnId>, seen: seq<TxnId>, ts: Ts)
      requires tt.Valid()
      modifies tt`view, tt.table
      ensures tt.Valid() && tt.view == PullBefore(old(tt.view), ids, seen, ts)
    {
      for i := 0 to |ids|
        invariant tt.Valid() && PullBefore(tt.view, ids[i..], seen, ts) == PullBefore(old(tt.view), ids, seen, ts)
      {
        assert ids[i..][1..] == ids[i + 1..];
        if ids[i] !in seen {
          var up := tt.GetUpper(ids[i]);
          if up >= ts { tt.PutUpper(ids[i], Sub64(ts, 1)); }
        }
      }
    }

    /** `commit` with forward validation. */
    method Commit(tt: TimeTable, id: TxnId, g: Gathered, kind: AccessType, ts: Ts, row: Row)
      requires tt.Valid()
      modifies this, tt`view, tt.table
      ensures tt.Valid()
      ensures RowCommit(View(), tt.view) == CommitRow(old(View()), old(tt.view), id, g, kind, ts, row)
    {
      if kind == RD {
        if ts > lastRead { lastRead := ts; }
        uncommittedReads := Erase(uncommittedReads, id);
        PushWriters(tt, uncommittedWrites, g.uncommittedWrites, ts);
      }
      if kind == WR {
        if ts > lastWrite { lastWrite := ts; }
        uncommittedWrites := Erase(uncommittedWrites, id);
        data := row;
        var lower := tt.GetLower(id);
        PullOthers(tt, uncommittedWrites, g.uncommittedWritesY, ts);
        PullOthers(tt, uncommittedReads, g.uncommittedReads, lower);
      }
    }
  }
}
