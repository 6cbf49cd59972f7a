/** What a successful validation guarantees about the intervals in the time table. */
module MaatValidation {
  import opened Types
  import opened MaatSpec

  /** No entry appears, disappears or gets a wider interval. */
  ghost predicate Narrowed(t: Table, t': Table) {
    && t.Keys == t'.Keys
    && forall id :: id in t ==> t[id].lower <= t'[id].lower && t'[id].upper <= t[id].upper
  }

  ghost predicate SameStates(t: Table, t': Table) {
    t.Keys == t'.Keys && forall id :: id in t ==> t'[id].state == t[id].state
  }

  /** Bounds other than UINT64_MAX itself are at most `top`, and a settled interval has a real lower end. */
  ghost predicate Within(t: Table, top: Ts) {
    forall id :: id in t ==>
      && (t[id].lower <= top || t[id].lower == UINT64_MAX)
      && (t[id].upper <= top || t[id].upper == UINT64_MAX)
      && (Settled(t[id].state) ==> t[id].lower <= top)
  }

  /** A transaction is in the table, has not captured itself, and has captured timestamps that have a successor. */
  ghost predicate Captured(t: Table, id: TxnId, g: Gathered) {
    && id in t && g.greatestWrite < UINT64_MAX && g.greatestRead < UINT64_MAX
    && id !in g.uncommittedWrites && id !in g.uncommittedReads && id !in g.uncommittedWritesY
  }

  ghost predicate Clear(t: Table, id: TxnId, g: Gathered, top: Ts) {
    && Captured(t, id, g) && Within(t, top) && top <= UINT64_MAX - 4
    && g.greatestWrite <= top && g.greatestRead <= top
  }

  lemma {:induction false} ScanWritesMeans(t: Table, ids: seq<TxnId>, acc: Scan)
    ensures var r := ScanWrites(t, ids, acc);
            && r.bound <= acc.bound
            && (forall x :: x in acc.ids ==> x in r.ids)
            && (forall x :: x in r.ids ==> x in acc.ids || (x in ids && StateOf(t, x) == RUNNING))
            && (forall x :: x in ids && StateOf(t, x) == RUNNING ==> x in r.ids || r.bound < Lower(t, x))
            && (forall x :: x in ids && Settled(StateOf(t, x)) ==> r.bound < Lower(t, x) || r.bound == 0)
    decreases |ids|
  {
    if ids != [] {
      InsertMembers(acc.ids, ids[0]);
      ScanWritesMeans(t, ids[1..], ScanWrite(t, ids[0], acc));
      assert ids == [ids[0]] + ids[1..];
    }
  }

  lemma {:induction false} ScanReadsMeans(t: Table, ids: seq<TxnId>, acc: Scan)
    ensures var r := ScanReads(t, ids, acc);
            && acc.bound <= r.bound
            && (forall x :: x in acc.ids ==> x in r.ids)
            && (forall x :: x in r.ids ==> x in acc.ids || (x in ids && StateOf(t, x) == RUNNING))
            && (forall x :: x in ids && StateOf(t, x) == RUNNING ==> x in r.ids || Upper(t, x) < r.bound)
            && (forall x :: x in ids && Settled(StateOf(t, x)) ==> Upper(t, x) < r.bound || r.bound == UINT64_MAX)
    decreases |ids|
  {
    if ids != [] {
      InsertMembers(acc.ids, ids[0]);
      ScanReadsMeans(t, ids[1..], ScanRead(t, ids[0], acc));
      assert ids == [ids[0]] + ids[1..];
    }
  }

  lemma {:induction false} ScanWritesYMeans(t: Table, ids: seq<TxnId>, acc: Scan)
    ensures var r := ScanWritesY(t, ids, acc);
            && acc.bound <= r.bound
            && (forall x :: x in acc.ids ==> x in r.ids)
            && (forall x :: x in r.ids ==> x in acc.ids || (x in ids && StateOf(t, x) == RUNNING))
            && (forall x :: x in ids && StateOf(t, x) == RUNNING ==> x in r.ids)
            && (forall x :: x in ids && Settled(StateOf(t, x)) ==> Upper(t, x) < r.bound || r.bound == UINT64_MAX)
    decreases |ids|
  {
    if ids != [] {
      InsertMembers(acc.ids, ids[0]);
      ScanWritesYMeans(t, ids[1..], ScanWriteY(t, ids[0], acc));
      assert ids == [ids[0]] + ids[1..];
    }
  }

  lemma {:induction false} RaiseLowerMeans(t: Table, before: seq<TxnId>, lower: Ts, upper: Ts)
    requires lower < upper
    ensures lower <= RaiseLower(t, before, lower, upper) < upper
    decreases |before|
  {
    if before != [] {
      RaiseLowerMeans(t, before[1..], RaiseOnce(t, before[0], lower, upper), upper);
    }
  }

  /** An upper end that has to stay below `lower`. */
  function Capped(up: Ts, lower: Ts): Ts
    requires 0 < lower
  {
    if up >= lower then lower - 1 else up
  }

  /** Only the upper ends of the named entries move, to just below `lower` if they were not below it. */
  lemma {:induction false} CapUppersMeans(t: Table, before: seq<TxnId>, lower: Ts)
    requires 0 < lower
    ensures var t' := CapUppers(t, before, lower);
            && t'.Keys == t.Keys
            && forall x :: x in t ==> t'[x] == if x in before then t[x].(upper := Capped(t[x].upper, lower)) else t[x]
    decreases |before|
  {
    if before != [] {
      CapUppersMeans(CapOnce(t, before[0], lower), before[1..], lower);
      assert before == [before[0]] + before[1..];
    }
  }

  lemma {:induction false} TrimUpperMeans(t: Table, after: seq<TxnId>, lower: Ts, upper: Ts)
    requires lower < upper && lower <= UINT64_MAX - 2
    ensures lower < TrimUpper(t, after, lower, upper) <= upper
    decreases |after|
  {
    if after != [] {
      TrimUpperMeans(t, after[1..], lower, TrimOnce(t, after[0], lower, upper));
    }
  }

  /** A lower end that has to stay above `upper`, if there is room. */
  function Lifted(low: Ts, upper: Ts): Ts {
    if low > upper then low else if upper < UINT64_MAX then upper + 1 else upper
  }

  /** Only the lower ends of the named entries move, to just above `upper` if they were not above it. */
  lemma {:induction false} LiftLowersMeans(t: Table, after: seq<TxnId>, upper: Ts)
    ensures var t' := LiftLowers(t, after, upper);
            && t'.Keys == t.Keys
            && forall x :: x in t ==> t'[x] == if x in after then t[x].(lower := Lifted(t[x].lower, upper)) else t[x]
    decreases |after|
  {
    if after != [] {
      LiftLowersMeans(LiftOnce(t, after[0], upper), after[1..], upper);
      assert after == [after[0]] + after[1..];
    }
  }

  lemma {:induction false} ScanReadsStay(t: Table, ids: seq<TxnId>, acc: Scan, top: Ts)
    requires Within(t, top) && top < UINT64_MAX && (acc.bound <= top + 1 || acc.bound == UINT64_MAX)
    ensures ScanReads(t, ids, acc).bound <= top + 1 || ScanReads(t, ids, acc).bound == UINT64_MAX
    ensures ScanWritesY(t, ids, acc).bound <= top + 1 || ScanWritesY(t, ids, acc).bound == UINT64_MAX
    decreases |ids|
  {
    if ids != [] {
      ScanReadsStay(t, ids[1..], ScanRead(t, ids[0], acc), top);
      ScanReadsStay(t, ids[1..], ScanWriteY(t, ids[0], acc), top);
    }
  }

  lemma ScansStayWithin(t: Table, id: TxnId, g: Gathered, top: Ts)
    requires Clear(t, id, g, top)
    ensures Scans(t, id, g).lower <= top + 1 || Scans(t, id, g).lower == UINT64_MAX
  {
    var low1 := Above(Above(Lower(t, id), g.greatestWrite), g.greatestRead);
    ScanReadsStay(t, g.uncommittedReads, Scan(low1, []), top);
    var r := ScanReads(t, g.uncommittedReads, Scan(low1, []));
    var w := ScanWrites(t, g.uncommittedWrites, Scan(Upper(t, id), []));
    ScanReadsStay(t, g.uncommittedWritesY, Scan(r.bound, w.ids), top);
  }

  lemma {:induction false} RaiseStaysWithin(t: Table, before: seq<TxnId>, lower: Ts, upper: Ts, top: Ts)
    requires 0 < top && Within(t, top - 1) && lower <= top && lower < upper
    ensures RaiseLower(t, before, lower, upper) <= top
    decreases |before|
  {
    if before != [] {
      RaiseStaysWithin(t, before[1..], RaiseOnce(t, before[0], lower, upper), upper, top);
    }
  }

  /** The scans leave an interval that clears everything settled, and name everyone running who is in the way. */
  ghost predicate Scanned(t: Table, id: TxnId, g: Gathered, b: Bounds) {
    && g.greatestWrite < b.lower && g.greatestRead < b.lower
    && Lower(t, id) <= b.lower && b.upper <= Upper(t, id)
    && id !in b.before && id !in b.after
    && (forall x :: x in g.uncommittedReads && StateOf(t, x) == RUNNING ==> x in b.before || Upper(t, x) < b.lower)
    && (forall x :: x in g.uncommittedWrites && StateOf(t, x) == RUNNING ==> x in b.after || b.upper < Lower(t, x))
    && (forall x :: x in g.uncommittedWritesY && StateOf(t, x) == RUNNING ==> x in b.after)
    && (forall x :: x in g.uncommittedReads && Settled(StateOf(t, x)) ==>
          Upper(t, x) < b.lower || b.lower == UINT64_MAX)
    && (forall x :: x in g.uncommittedWritesY && Settled(StateOf(t, x)) ==>
          Upper(t, x) < b.lower || b.lower == UINT64_MAX)
    && (forall x :: x in g.uncommittedWrites && Settled(StateOf(t, x)) ==> b.upper < Lower(t, x) || b.upper == 0)
  }

  lemma ScansMean(t: Table, id: TxnId, g: Gathered)
    requires Captured(t, id, g)
    ensures Scanned(t, id, g, Scans(t, id, g))
  {
    var low0 := Above(Lower(t, id), g.greatestWrite);
    var w := ScanWrites(t, g.uncommittedWrites, Scan(Upper(t, id), []));
    var low1 := Above(low0, g.greatestRead);
    var r := ScanReads(t, g.uncommittedReads, Scan(low1, []));
    ScanWritesMeans(t, g.uncommittedWrites, Scan(Upper(t, id), []));
    ScanReadsMeans(t, g.uncommittedReads, Scan(low1, []));
    ScanWritesYMeans(t, g.uncommittedWritesY, Scan(r.bound, w.ids));
  }

  /** The validated interval, and where every captured transaction now stands relative to it. */
  ghost predicate Separated(t: Table, t': Table, id: TxnId, g: Gathered) {
    && id in t' && id in t
    && t'[id].lower < t'[id].upper && t'[id].state == VALIDATED
    && g.greatestWrite < t'[id].lower && g.greatestRead < t'[id].lower
    && (forall x :: x in g.uncommittedReads && StateOf(t, x) == RUNNING ==> Upper(t', x) < t'[id].lower)
    && (forall x :: x in g.uncommittedReads && Settled(StateOf(t, x)) ==> Upper(t, x) < t'[id].lower)
    && (forall x :: x in g.uncommittedWrites && StateOf(t, x) == RUNNING ==>
          t'[id].upper < Lower(t', x) || Lower(t', x) == UINT64_MAX)
    && (forall x :: x in g.uncommittedWrites && Settled(StateOf(t, x)) ==> t'[id].upper < Lower(t, x))
    && (forall x :: x in g.uncommittedWritesY && StateOf(t, x) == RUNNING ==>
          t'[id].upper < Lower(t', x) || Lower(t', x) == UINT64_MAX)
    && (forall x :: x in g.uncommittedWritesY && Settled(StateOf(t, x)) ==> Upper(t, x) < t'[id].lower)
  }

  /** How the table looks after `Settle`, entry by entry. */
  ghost predicate SettledShape(t: Table, t': Table, id: TxnId, b: Bounds, lower: Ts, upper: Ts) {
    && id in t && t.Keys == t'.Keys
    && t'[id] == Entry(lower, upper, VALIDATED)
    && b.lower <= lower && upper <= b.upper && (lower != UINT64_MAX - 1 ==> lower < upper)
    && forall x :: x in t && x != id ==>
         && t'[x].state == t[x].state
         && t[x].lower <= t'[x].lower && t'[x].upper <= t[x].upper
         && (x in b.before ==> t'[x].upper < lower)
         && (x in b.after ==> upper < t'[x].lower || t'[x].lower == UINT64_MAX)
  }

  lemma SettleShape(t: Table, id: TxnId, b: Bounds) returns (lower: Ts, upper: Ts)
    requires id in t && 0 < b.lower < b.upper && id !in b.before && id !in b.after
    ensures SettledShape(t, Settle(t, id, b), id, b, lower, upper)
    ensures lower == RaiseLower(SetState(t, id, VALIDATED), b.before, b.lower, b.upper)
  {
    var t1 := SetState(t, id, VALIDATED);
    lower := RaiseLower(t1, b.before, b.lower, b.upper);
    RaiseLowerMeans(t1, b.before, b.lower, b.upper);
    var t2 := CapUppers(t1, b.before, lower);
    CapUppersMeans(t1, b.before, lower);
    upper := TrimUpper(t2, b.after, lower, b.upper);
    if lower != UINT64_MAX - 1 {
      TrimUpperMeans(t2, b.after, lower, b.upper);
    }
    LiftLowersMeans(t2, b.after, upper);
  }

  lemma ShapeSeparates(t: Table, t': Table, id: TxnId, g: Gathered, b: Bounds, lower: Ts, upper: Ts)
    requires Scanned(t, id, g, b) && SettledShape(t, t', id, b, lower, upper)
    requires id !in g.uncommittedWrites && id !in g.uncommittedReads && id !in g.uncommittedWritesY
    requires Lower(t, id) <= lower && upper <= Upper(t, id)
    ensures Narrowed(t, t') && (lower != UINT64_MAX - 1 ==> Separated(t, t', id, g))
  {
  }

  /**
   * Validation. When `validate` succeeds, and the lower bound it chose is not the one that wraps, the interval is not
   * empty and lies above the captured timestamps; every captured reader that was running now ends below it, every
   * captured writer that was running now starts above it or is pinned at the maximum, and settled ones lie on their
   * side of it. Whatever the verdict, no interval of the table has been widened.
   */
  lemma ValidateMeans(t: Table, id: TxnId, g: Gathered)
    requires Captured(t, id, g)
    ensures var v := Validate(t, id, g);
            && Narrowed(t, v.table)
            && (forall x :: x in t && x != id ==> v.table[x].state == t[x].state)
            && (v.rc == RCOK ==> v.table[id].state == VALIDATED)
            && (v.rc == RCOK && v.table[id].lower != UINT64_MAX - 1 ==> Separated(t, v.table, id, g))
            && (v.rc != RCOK ==>
                  && v.rc == Abort && v.table[id].lower >= v.table[id].upper
                  && forall x :: x in t && x != id ==> v.table[x] == t[x])
  {
    ScansMean(t, id, g);
    var b := Scans(t, id, g);
    if b.lower < b.upper {
      var lower, upper := SettleShape(t, id, b);
      ShapeSeparates(t, Settle(t, id, b), id, g, b, lower, upper);
    }
  }

  lemma {:induction false} CapStaysWithin(t: Table, before: seq<TxnId>, lower: Ts, top: Ts)
    requires Within(t, top) && lower <= top + 1
    ensures Within(CapUppers(t, before, lower), top)
    decreases |before|
  {
    if before != [] {
      CapStaysWithin(CapOnce(t, before[0], lower), before[1..], lower, top);
    }
  }

  lemma {:induction false} TrimStaysWithin(t: Table, after: seq<TxnId>, lower: Ts, upper: Ts, top: Ts)
    requires Within(t, top) && lower < upper && lower <= UINT64_MAX - 2 && (upper <= top || upper == UINT64_MAX)
    ensures TrimUpper(t, after, lower, upper) <= top || TrimUpper(t, after, lower, upper) == UINT64_MAX
    decreases |after|
  {
    if after != [] {
      TrimStaysWithin(t, after[1..], lower, TrimOnce(t, after[0], lower, upper), top);
    }
  }

  lemma {:induction false} LiftStaysWithin(t: Table, after: seq<TxnId>, upper: Ts, top: Ts)
    requires Within(t, top) && (upper < top || upper == UINT64_MAX)
    requires forall x :: x in after && x in t ==> !Settled(t[x].state)
    ensures Within(LiftLowers(t, after, upper), top)
    decreases |after|
  {
    if after != [] {
      assert after[0] in after && forall x :: x in after[1..] ==> x in after;
      LiftStaysWithin(LiftOnce(t, after[0], upper), after[1..], upper, top);
    }
  }

  lemma {:induction false} ScanWritesStay(t: Table, ids: seq<TxnId>, acc: Scan, top: Ts)
    requires Within(t, top) && (acc.bound <= top || acc.bound == UINT64_MAX)
    ensures ScanWrites(t, ids, acc).bound <= top || ScanWrites(t, ids, acc).bound == UINT64_MAX
    decreases |ids|
  {
    if ids != [] {
      ScanWritesStay(t, ids[1..], ScanWrite(t, ids[0], acc), top);
    }
  }

  lemma ScansNameRunning(t: Table, id: TxnId, g: Gathered)
    ensures forall x :: x in Scans(t, id, g).after ==> StateOf(t, x) == RUNNING
  {
    var low1 := Above(Above(Lower(t, id), g.greatestWrite), g.greatestRead);
    var r := ScanReads(t, g.uncommittedReads, Scan(low1, []));
    var w := ScanWrites(t, g.uncommittedWrites, Scan(Upper(t, id), []));
    ScanWritesMeans(t, g.uncommittedWrites, Scan(Upper(t, id), []));
    ScanWritesYMeans(t, g.uncommittedWritesY, Scan(r.bound, w.ids));
  }

  /** One validation moves the finite bounds of the table by at most one. */
  lemma ValidateStaysWithin(t: Table, id: TxnId, g: Gathered, top: Ts)
    requires Clear(t, id, g, top) && Validate(t, id, g).rc == RCOK
    ensures Within(Validate(t, id, g).table, top + 1)
  {
    var b := Scans(t, id, g);
    ScansMean(t, id, g);
    ScansStayWithin(t, id, g, top);
    ScanWritesStay(t, g.uncommittedWrites, Scan(Upper(t, id), []), top);
    ScansNameRunning(t, id, g);
    SettleStaysWithin(t, id, b, top);
  }

  lemma EndsStayWithin(t: Table, id: TxnId, after: seq<TxnId>, lower: Ts, upper0: Ts, top: Ts)
    requires Within(t, top) && top <= UINT64_MAX - 4 && id in t && id !in after && lower <= top + 1 && lower < upper0
    requires upper0 <= top || upper0 == UINT64_MAX
    requires forall x :: x in after && x in t ==> !Settled(t[x].state)
    ensures var upper := TrimUpper(t, after, lower, upper0);
            Within(SetUpper(SetLower(LiftLowers(t, after, upper), id, lower), id, upper), top + 1)
  {
    var upper := TrimUpper(t, after, lower, upper0);
    TrimStaysWithin(t, after, lower, upper0, top);
    LiftStaysWithin(t, after, upper, top + 1);
    LiftLowersMeans(t, after, upper);
  }

  lemma SettleStaysWithin(t: Table, id: TxnId, b: Bounds, top: Ts)
    requires Within(t, top) && top <= UINT64_MAX - 4 && id in t && t[id].lower <= b.lower
    requires 0 < b.lower < b.upper && b.lower <= top + 1
    requires (b.upper <= top || b.upper == UINT64_MAX) && id !in b.before && id !in b.after
    requires forall x :: x in b.after ==> StateOf(t, x) == RUNNING
    ensures Within(Settle(t, id, b), top + 1)
  {
    var t1 := SetState(t, id, VALIDATED);
    var lower := RaiseLower(t1, b.before, b.lower, b.upper);
    RaiseLowerMeans(t1, b.before, b.lower, b.upper);
    RaiseStaysWithin(t1, b.before, b.lower, b.upper, top + 1);
    var t2 := CapUppers(t1, b.before, lower);
    CapStaysWithin(t1, b.before, lower, top);
    CapUppersMeans(t1, b.before, lower);
    EndsStayWithin(t2, id, b.after, lower, b.upper, top);
  }

  lemma {:induction false} CapKeepsKeys(t: Table, before: seq<TxnId>, lower: Ts)
    ensures CapUppers(t, before, lower).Keys == t.Keys
    decreases |before|
  {
    if before != [] {
      CapKeepsKeys(CapOnce(t, before[0], lower), before[1..], lower);
    }
  }

  /** The two ends that `validate` leaves, whatever it was given. */
  lemma AcceptedEnds(t: Table, id: TxnId, g: Gathered)
    requires id in t && Validate(t, id, g).rc == RCOK
    ensures var b, t1, e := Scans(t, id, g), SetState(t, id, VALIDATED), Validate(t, id, g).table;
            && b.lower < b.upper && e.Keys == t.Keys
            && Lower(e, id) == RaiseLower(t1, b.before, b.lower, b.upper)
            && Upper(e, id) == TrimUpper(CapUppers(t1, b.before, Lower(e, id)), b.after, Lower(e, id), b.upper)
  {
    var b, t1 := Scans(t, id, g), SetState(t, id, VALIDATED);
    var lower := RaiseLower(t1, b.before, b.lower, b.upper);
    var t2 := CapUppers(t1, b.before, lower);
    CapKeepsKeys(t1, b.before, lower);
    LiftLowersMeans(t2, b.after, TrimUpper(t2, b.after, lower, b.upper));
  }

  ghost predicate Accepts(t: Table, id: TxnId, g: Gathered, lower: Ts) {
    id in t && Validate(t, id, g).rc == RCOK && Lower(Validate(t, id, g).table, id) == lower
  }

  /**
   * The lower bound `validate` chooses decides whether it may accept an empty interval: with every table and everything
   * captured, the interval it accepts at `lower` is not empty, if and only if `lower` is not one below the maximum.
   */
  lemma ValidateKeepsIntervalIff(lower: Ts)
    ensures (forall t: Table, id: TxnId, g: Gathered ::
               Accepts(t, id, g, lower) ==> lower < Upper(Validate(t, id, g).table, id))
            <==> lower != UINT64_MAX - 1
  {
    if lower == UINT64_MAX - 1 {
      ValidationWrapsAtTheTop();
      var t: Table := map[1 := Entry(UINT64_MAX - 1, UINT64_MAX, RUNNING), 2 := Entry(0, 10, RUNNING)];
      assert Accepts(t, 1, Gathered([2], [], [], 0, 0), lower);
    } else {
      forall t: Table, id: TxnId, g: Gathered | Accepts(t, id, g, lower)
        ensures lower < Upper(Validate(t, id, g).table, id)
      {
        var b, t1 := Scans(t, id, g), SetState(t, id, VALIDATED);
        AcceptedEnds(t, id, g);
        RaiseLowerMeans(t1, b.before, b.lower, b.upper);
        TrimUpperMeans(CapUppers(t1, b.before, lower), b.after, lower, b.upper);
      }
    }
  }

  /** An interval starting one below the largest 64-bit value is validated although it comes out empty. */
  lemma ValidationWrapsAtTheTop()
    ensures var t: Table := map[1 := Entry(UINT64_MAX - 1, UINT64_MAX, RUNNING), 2 := Entry(0, 10, RUNNING)];
            var v := Validate(t, 1, Gathered([2], [], [], 0, 0));
            v.rc == RCOK && Lower(v.table, 1) == UINT64_MAX - 1 && Lower(v.table, 1) > Upper(v.table, 1)
  {
    var t: Table := map[1 := Entry(UINT64_MAX - 1, UINT64_MAX, RUNNING), 2 := Entry(0, 10, RUNNING)];
    var g := Gathered([2], [], [], 0, 0);
    assert ScanWrite(t, 2, Scan(UINT64_MAX, [])) == Scan(UINT64_MAX, [2]);
    assert ScanWrites(t, [2], Scan(UINT64_MAX, [])) == Scan(UINT64_MAX, [2]);
    assert Scans(t, 1, g) == Bounds(UINT64_MAX - 1, UINT64_MAX, [], [2]);
    var t1 := SetState(t, 1, VALIDATED);
    assert TrimOnce(t1, 2, UINT64_MAX - 1, UINT64_MAX) == 8;
    assert TrimUpper(t1, [2], UINT64_MAX - 1, UINT64_MAX) == 8;
  }

  /** Forward validation of a read: the unseen writers not above the commit timestamp start right after it. */
  lemma {:induction false} PushAfterMeans(t: Table, ids: seq<TxnId>, seen: seq<TxnId>, ts: Ts)
    requires ts < UINT64_MAX
    ensures var t' := PushAfter(t, ids, seen, ts);
            && Narrowed(t, t') && SameStates(t, t')
            && forall x :: x in t ==>
                 t'[x] == t[x].(lower := if x in ids && x !in seen && t[x].lower <= ts then ts + 1 else t[x].lower)
    decreases |ids|
  {
    if ids != [] {
      PushAfterMeans(PushOnce(t, ids[0], seen, ts), ids[1..], seen, ts);
      assert ids == [ids[0]] + ids[1..];
    }
  }

  /** Forward validation of a write: the unseen transactions not below the bound end right before it. */
  lemma {:induction false} PullBeforeMeans(t: Table, ids: seq<TxnId>, seen: seq<TxnId>, ts: Ts)
    requires 0 < ts
    ensures var t' := PullBefore(t, ids, seen, ts);
            && Narrowed(t, t') && SameStates(t, t')
            && forall x :: x in t ==>
                 t'[x] == t[x].(upper := if x in ids && x !in seen && t[x].upper >= ts then ts - 1 else t[x].upper)
    decreases |ids|
  {
    if ids != [] {
      PullBeforeMeans(PullOnce(t, ids[0], seen, ts), ids[1..], seen, ts);
      assert ids == [ids[0]] + ids[1..];
    }
  }

  /** Forward validation moves finite bounds to at most one above the commit timestamp. */
  lemma {:induction false} ForwardStaysWithin(t: Table, ids: seq<TxnId>, seen: seq<TxnId>, ts: Ts, top: Ts)
    requires Within(t, top) && 0 < ts < top
    ensures Within(PushAfter(t, ids, seen, ts), top) && Within(PullBefore(t, ids, seen, ts), top)
    decreases |ids|
  {
    if ids != [] {
      ForwardStaysWithin(PushOnce(t, ids[0], seen, ts), ids[1..], seen, ts, top);
      ForwardStaysWithin(PullOnce(t, ids[0], seen, ts), ids[1..], seen, ts, top);
    }
  }
}
