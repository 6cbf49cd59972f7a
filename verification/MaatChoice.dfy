/** Which interval `validate` chooses, exactly: when there is one to choose, and how little it moves everybody else. */
module MaatChoice {
  import opened Types
  import opened MaatSpec
  import opened MaatValidation

  /** A lower end within the transaction's interval that clears what it captured and every settled one before it. */
  ghost predicate LowerClears(t: Table, id: TxnId, g: Gathered, low: Ts) {
    && Lower(t, id) <= low && g.greatestWrite < low && g.greatestRead < low
    && (forall x :: x in g.uncommittedReads && Settled(StateOf(t, x)) ==> Upper(t, x) < low)
    && (forall x :: x in g.uncommittedWritesY && Settled(StateOf(t, x)) ==> Upper(t, x) < low)
  }

  /** An upper end within the transaction's interval that clears every settled one after it. */
  ghost predicate UpperClears(t: Table, id: TxnId, g: Gathered, up: Ts) {
    up <= Upper(t, id) && forall x :: x in g.uncommittedWrites && Settled(StateOf(t, x)) ==> up < Lower(t, x)
  }

  /** A scan stops at the greatest bound that clears the settled writers. */
  lemma {:induction false} ScanWritesIsGreatest(t: Table, ids: seq<TxnId>, acc: Scan, up: Ts)
    requires up <= acc.bound && forall x :: x in ids && Settled(StateOf(t, x)) ==> up < Lower(t, x)
    ensures up <= ScanWrites(t, ids, acc).bound
    decreases |ids|
  {
    if ids != [] {
      assert ids[0] in ids && forall x :: x in ids[1..] ==> x in ids;
      ScanWritesIsGreatest(t, ids[1..], ScanWrite(t, ids[0], acc), up);
    }
  }

  lemma {:induction false} ScanReadsIsLeast(t: Table, ids: seq<TxnId>, acc: Scan, low: Ts)
    requires acc.bound <= low && forall x :: x in ids && Settled(StateOf(t, x)) ==> Upper(t, x) < low
    ensures ScanReads(t, ids, acc).bound <= low && ScanWritesY(t, ids, acc).bound <= low
    decreases |ids|
  {
    if ids != [] {
      assert ids[0] in ids && forall x :: x in ids[1..] ==> x in ids;
      ScanReadsIsLeast(t, ids[1..], ScanRead(t, ids[0], acc), low);
      ScanReadsIsLeast(t, ids[1..], ScanWriteY(t, ids[0], acc), low);
    }
  }

  /** The scans find the least lower end and the greatest upper end there are. */
  lemma ScansAreTight(t: Table, id: TxnId, g: Gathered, low: Ts, up: Ts)
    requires g.greatestWrite < UINT64_MAX && g.greatestRead < UINT64_MAX
    ensures LowerClears(t, id, g, low) ==> Scans(t, id, g).lower <= low
    ensures UpperClears(t, id, g, up) ==> up <= Scans(t, id, g).upper
  {
    var low1 := Above(Above(Lower(t, id), g.greatestWrite), g.greatestRead);
    var w := ScanWrites(t, g.uncommittedWrites, Scan(Upper(t, id), []));
    var r := ScanReads(t, g.uncommittedReads, Scan(low1, []));
    if LowerClears(t, id, g, low) {
      ScanReadsIsLeast(t, g.uncommittedReads, Scan(low1, []), low);
      ScanReadsIsLeast(t, g.uncommittedWritesY, Scan(r.bound, w.ids), low);
    }
    if UpperClears(t, id, g, up) {
      ScanWritesIsGreatest(t, g.uncommittedWrites, Scan(Upper(t, id), []), up);
    }
  }

  lemma ScansClear(t: Table, id: TxnId, g: Gathered)
    requires g.greatestWrite < UINT64_MAX && g.greatestRead < UINT64_MAX
    requires Scans(t, id, g).lower < Scans(t, id, g).upper
    ensures LowerClears(t, id, g, Scans(t, id, g).lower) && UpperClears(t, id, g, Scans(t, id, g).upper)
  {
    var low1 := Above(Above(Lower(t, id), g.greatestWrite), g.greatestRead);
    var w := ScanWrites(t, g.uncommittedWrites, Scan(Upper(t, id), []));
    var r := ScanReads(t, g.uncommittedReads, Scan(low1, []));
    ScanWritesMeans(t, g.uncommittedWrites, Scan(Upper(t, id), []));
    ScanReadsMeans(t, g.uncommittedReads, Scan(low1, []));
    ScanWritesYMeans(t, g.uncommittedWritesY, Scan(r.bound, w.ids));
  }

  /**
   * Validation succeeds if and only if the transaction's interval holds two timestamps, one below the other, that clear
   * the captured timestamps and every captured transaction that is settled. Running transactions never make it fail.
   */
  lemma ValidateSucceedsIff(t: Table, id: TxnId, g: Gathered)
    requires g.greatestWrite < UINT64_MAX && g.greatestRead < UINT64_MAX
    ensures Validate(t, id, g).rc == RCOK <==>
            exists low, up :: low < up && LowerClears(t, id, g, low) && UpperClears(t, id, g, up)
  {
    var b := Scans(t, id, g);
    if b.lower < b.upper {
      ScansClear(t, id, g);
    }
    if low, up :| low < up && LowerClears(t, id, g, low) && UpperClears(t, id, g, up) {
      ScansAreTight(t, id, g, low, up);
    }
  }

  /** The lower end is raised to every named reader that fits below the upper end, and no further. */
  lemma {:induction false} RaiseLowerIsLeast(t: Table, before: seq<TxnId>, lower: Ts, upper: Ts)
    requires lower < upper
    ensures var low := RaiseLower(t, before, lower, upper);
            && (forall x :: x in before && Upper(t, x) < upper - 1 ==> Upper(t, x) <= low)
            && (low == lower || exists x :: x in before && Upper(t, x) < upper - 1 && low == Upper(t, x) + 1)
    decreases |before|
  {
    if before != [] {
      assert before == [before[0]] + before[1..];
      var lower1 := RaiseOnce(t, before[0], lower, upper);
      RaiseLowerMeans(t, before[1..], lower1, upper);
      RaiseLowerIsLeast(t, before[1..], lower1, upper);
    }
  }

  /** How far one named writer brings the upper end down. */
  ghost predicate TrimsTo(t: Table, x: TxnId, lower: Ts, up: Ts) {
    || (lower + 2 < Upper(t, x) < UINT64_MAX && up == Upper(t, x) - 2)
    || (lower + 1 < Lower(t, x) && up == Lower(t, x) - 1)
  }

  /** The upper end comes down to the named writers that leave it room, and no further. */
  lemma {:induction false} TrimUpperIsGreatest(t: Table, after: seq<TxnId>, lower: Ts, upper: Ts)
    requires lower < upper && lower <= UINT64_MAX - 2
    ensures var up := TrimUpper(t, after, lower, upper);
            && (forall x :: x in after && lower + 1 < Lower(t, x) ==> up <= Lower(t, x))
            && (forall x :: x in after && lower + 2 < Upper(t, x) < UINT64_MAX ==> up <= Upper(t, x))
            && (up == upper || exists x :: x in after && TrimsTo(t, x, lower, up))
    decreases |after|
  {
    if after != [] {
      assert after == [after[0]] + after[1..];
      var upper1 := TrimOnce(t, after[0], lower, upper);
      assert upper1 == upper || TrimsTo(t, after[0], lower, upper1);
      TrimUpperMeans(t, after[1..], lower, upper1);
      TrimUpperIsGreatest(t, after[1..], lower, upper1);
    }
  }

  /** A captured transaction that still runs. */
  ghost predicate RunningIn(t: Table, ids: seq<TxnId>, x: TxnId) {
    x in ids && StateOf(t, x) == RUNNING
  }

  /** A captured transaction that has to come after and still runs. */
  ghost predicate RunningWriter(t: Table, g: Gathered, x: TxnId) {
    RunningIn(t, g.uncommittedWrites, x) || RunningIn(t, g.uncommittedWritesY, x)
  }

  /** What validation leaves of another transaction's interval when it takes `low` to `up`. */
  ghost function Spared(t: Table, g: Gathered, x: TxnId, low: Ts, up: Ts): Entry
    requires x in t && 0 < low
  {
    Entry(
      if RunningWriter(t, g, x) then Lifted(t[x].lower, up) else t[x].lower,
      if RunningIn(t, g.uncommittedReads, x) then Capped(t[x].upper, low) else t[x].upper,
      t[x].state)
  }

  lemma ScansNameExactly(t: Table, id: TxnId, g: Gathered, x: TxnId)
    ensures var b := Scans(t, id, g);
            && (x in b.before ==> RunningIn(t, g.uncommittedReads, x))
            && (RunningIn(t, g.uncommittedReads, x) ==> x in b.before || Upper(t, x) < b.lower)
            && (x in b.after ==> RunningWriter(t, g, x))
            && (RunningIn(t, g.uncommittedWritesY, x) ==> x in b.after)
            && (RunningIn(t, g.uncommittedWrites, x) ==> x in b.after || b.upper < Lower(t, x))
  {
    var low1 := Above(Above(Lower(t, id), g.greatestWrite), g.greatestRead);
    var w := ScanWrites(t, g.uncommittedWrites, Scan(Upper(t, id), []));
    var r := ScanReads(t, g.uncommittedReads, Scan(low1, []));
    ScanWritesMeans(t, g.uncommittedWrites, Scan(Upper(t, id), []));
    ScanReadsMeans(t, g.uncommittedReads, Scan(low1, []));
    ScanWritesYMeans(t, g.uncommittedWritesY, Scan(r.bound, w.ids));
  }

  /**
   * A successful validation moves nobody further than it must: a running captured reader ends just below the interval
   * if it did not end below it before, a running captured writer starts just above it if it did not start above it
   * before, and every other entry is as it was.
   */
  lemma OthersMoveNoFurther(t: Table, id: TxnId, g: Gathered, x: TxnId)
    requires Captured(t, id, g) && Validate(t, id, g).rc == RCOK && x in t && x != id
    requires Lower(Validate(t, id, g).table, id) != UINT64_MAX - 1
    ensures var t' := Validate(t, id, g).table;
            id in t' && x in t' && 0 < t'[id].lower && t'[x] == Spared(t, g, x, t'[id].lower, t'[id].upper)
  {
    var b := Scans(t, id, g);
    var t1 := SetState(t, id, VALIDATED);
    AcceptedEnds(t, id, g);
    ScansMean(t, id, g);
    ScansNameExactly(t, id, g, x);
    var low := RaiseLower(t1, b.before, b.lower, b.upper);
    RaiseLowerMeans(t1, b.before, b.lower, b.upper);
    var t2 := CapUppers(t1, b.before, low);
    CapUppersMeans(t1, b.before, low);
    var up := TrimUpper(t2, b.after, low, b.upper);
    TrimUpperMeans(t2, b.after, low, b.upper);
    LiftLowersMeans(t2, b.after, up);
  }

  /**
   * The lower end that a successful validation takes, from the widest interval that clears everything settled: running
   * captured readers are left alone where they fit below it.
   */
  lemma LowerEndIsChosen(t: Table, id: TxnId, g: Gathered)
    requires Captured(t, id, g) && Validate(t, id, g).rc == RCOK
    requires Lower(Validate(t, id, g).table, id) != UINT64_MAX - 1
    ensures var b, t' := Scans(t, id, g), Validate(t, id, g).table;
            && id in t' && b.lower <= t'[id].lower < b.upper
            && (forall x :: RunningIn(t, g.uncommittedReads, x) && Upper(t, x) < b.upper - 1 ==>
                  Upper(t, x) <= t'[id].lower)
            && (t'[id].lower == b.lower ||
                exists x :: RunningIn(t, g.uncommittedReads, x) && t'[id].lower == Upper(t, x) + 1)
  {
    var b := Scans(t, id, g);
    var t1 := SetState(t, id, VALIDATED);
    AcceptedEnds(t, id, g);
    ScansMean(t, id, g);
    var low := RaiseLower(t1, b.before, b.lower, b.upper);
    RaiseLowerMeans(t1, b.before, b.lower, b.upper);
    RaiseLowerIsLeast(t1, b.before, b.lower, b.upper);
    forall x ensures x in b.before ==> RunningIn(t, g.uncommittedReads, x) && x != id {
      ScansNameExactly(t, id, g, x);
    }
    forall x | RunningIn(t, g.uncommittedReads, x) && Upper(t, x) < b.upper - 1 ensures Upper(t, x) <= low {
      ScansNameExactly(t, id, g, x);
    }
  }

  /** Capping the readers changes nothing that brings the upper end down. */
  lemma TrimSeesTable(t: Table, id: TxnId, before: seq<TxnId>, low: Ts, x: TxnId, up: Ts)
    requires 0 < low
    ensures var t2 := CapUppers(SetState(t, id, VALIDATED), before, low);
            Lower(t2, x) == Lower(t, x) && (TrimsTo(t2, x, low, up) ==> TrimsTo(t, x, low, up))
  {
    CapUppersMeans(SetState(t, id, VALIDATED), before, low);
  }

  /** The upper end it takes: running captured writers are left alone where they leave it room. */
  lemma UpperEndIsChosen(t: Table, id: TxnId, g: Gathered)
    requires Captured(t, id, g) && Validate(t, id, g).rc == RCOK
    requires Lower(Validate(t, id, g).table, id) != UINT64_MAX - 1
    ensures var b, t' := Scans(t, id, g), Validate(t, id, g).table;
            && id in t' && t'[id].lower < t'[id].upper <= b.upper
            && (forall x :: RunningWriter(t, g, x) && t'[id].lower + 1 < Lower(t, x) ==> t'[id].upper <= Lower(t, x))
            && (t'[id].upper == b.upper ||
                exists x :: RunningWriter(t, g, x) && TrimsTo(t, x, t'[id].lower, t'[id].upper))
  {
    var b := Scans(t, id, g);
    var t1 := SetState(t, id, VALIDATED);
    AcceptedEnds(t, id, g);
    ScansMean(t, id, g);
    var low := RaiseLower(t1, b.before, b.lower, b.upper);
    RaiseLowerMeans(t1, b.before, b.lower, b.upper);
    var t2 := CapUppers(t1, b.before, low);
    var up := TrimUpper(t2, b.after, low, b.upper);
    TrimUpperMeans(t2, b.after, low, b.upper);
    TrimUpperIsGreatest(t2, b.after, low, b.upper);
    forall x | RunningWriter(t, g, x) && low + 1 < Lower(t, x) ensures up <= Lower(t, x) {
      ScansNameExactly(t, id, g, x);
      TrimSeesTable(t, id, b.before, low, x, up);
    }
    if up != b.upper {
      var x :| x in b.after && TrimsTo(t2, x, low, up);
      ScansNameExactly(t, id, g, x);
      TrimSeesTable(t, id, b.before, low, x, up);
      assert RunningWriter(t, g, x) && TrimsTo(t, x, low, up);
    }
  }
}
