/** A run of MaaT after which a row holds a write whose timestamp is not its greatest. */
module MaatInversion {
  import opened Types
  import opened MaatSpec
  import opened MaatOrder

  const NOTHING := Gathered([], [], [], 0, 0)

  /** A transaction that writes one row while nobody else is about. */
  lemma WritesAlone(s: Sys, id: TxnId, k: Key, data: Row, last: Ts, before: Row)
    requires s.table == map[] && s.txns == map[] && k in s.rows && k in s.past && last < UINT64_MAX - 4
    requires s.rows[k] == RowState([], [], 0, last, before)
    ensures var s2 := Step(Step(s, Begin(id)), Touch(id, k, WR, data));
            && id in s2.txns
            && FinishTxn(s2, id)
               == Sys(map[], s.rows[k := RowState([], [], 0, last + 1, data)],
                      s.past[k := Past(s.past[k].writes + [PastWrite(last + 1, |s.past[k].writes|, id, [])],
                                       s.past[k].readings)],
                      map[])
  {
    var s1 := Step(s, Begin(id));
    var s2 := Step(s1, Touch(id, k, WR, data));
    var g := Gathered([], [], [], last, 0);
    var x := Txn(g, [k], map[k := Access(WR, data, |s.past[k].writes|)]);
    assert Insert([], id) == [id] && [] + [k] == [k];
    assert PrewriteRow(s.rows[k], id, NOTHING) == Touching(RowState([], [id], 0, last, before), g);
    assert s1.txns == map[id := Txn(NOTHING, [], map[])];
    assert s2.txns == map[id := x] && s2.table == map[id := Entry(0, UINT64_MAX, RUNNING)];
    assert s2.rows == s.rows[k := RowState([], [id], 0, last, before)];
    ValidatesAlone(id, last);
    var f := FindBound(Validate(s2.table, id, g).table, id);
    assert Erase([id], id) == [];
    var s3 := s2.(table := f.table);
    assert CommitAll(s3, id, x, [k], last + 1) == CommitOne(s3, id, x, k, last + 1);
  }

  lemma ValidatesAlone(id: TxnId, last: Ts)
    requires last < UINT64_MAX - 4
    ensures var v := Validate(map[id := Entry(0, UINT64_MAX, RUNNING)], id, Gathered([], [], [], last, 0));
            && v.rc == RCOK
            && FindBound(v.table, id) == Bound(RCOK, map[id := Entry(last + 1, UINT64_MAX, COMMITTED)], last + 1)
  {
    var t: Table := map[id := Entry(0, UINT64_MAX, RUNNING)];
    assert Scans(t, id, Gathered([], [], [], last, 0)) == Bounds(last + 1, UINT64_MAX, [], []);
    assert Validate(t, id, Gathered([], [], [], last, 0)).table == map[id := Entry(last + 1, UINT64_MAX, VALIDATED)];
  }

  /** The state in which 1 and 2 have announced what they will write. */
  function Announced(past0: Past, past1: Past): Sys {
    Sys(map[1 := Entry(0, UINT64_MAX, RUNNING), 2 := Entry(0, UINT64_MAX, RUNNING)],
        map[0 := RowState([], [1, 2], 0, 0, 0), 1 := RowState([], [1], 0, 2, 6)],
        map[0 := past0, 1 := past1],
        map[1 := Txn(Gathered([], [], [], 2, 0), [0, 1],
                     map[0 := Access(WR, 7, |past0.writes|), 1 := Access(WR, 9, |past1.writes|)]),
            2 := Txn(Gathered([], [1], [], 0, 0), [0], map[0 := Access(WR, 8, |past0.writes|)])])
  }

  /** The state in which only 1 has. */
  function OneAnnounced(past0: Past, past1: Past): Sys {
    Sys(map[1 := Entry(0, UINT64_MAX, RUNNING)],
        map[0 := RowState([], [1], 0, 0, 0), 1 := RowState([], [1], 0, 2, 6)],
        map[0 := past0, 1 := past1],
        map[1 := Announced(past0, past1).txns[1]])
  }

  function NoneAnnounced(past0: Past, past1: Past): Sys {
    Sys(map[], map[0 := RowState([], [], 0, 0, 0), 1 := RowState([], [], 0, 2, 6)], map[0 := past0, 1 := past1], map[])
  }

  lemma FirstAnnounces(past0: Past, past1: Past)
    ensures var s2 := TouchRow(Step(NoneAnnounced(past0, past1), Begin(1)), 1, 0, WR, 7);
            && 1 in s2.txns && 1 in s2.rows && 1 in s2.past && 1 !in s2.txns[1].accesses
            && TouchRow(s2, 1, 1, WR, 9) == OneAnnounced(past0, past1)
  {
    var s := NoneAnnounced(past0, past1);
    assert Insert([], 1) == [1];
    assert PrewriteRow(s.rows[0], 1, NOTHING) == Touching(RowState([], [1], 0, 0, 0), NOTHING);
    assert PrewriteRow(s.rows[1], 1, NOTHING) == Touching(RowState([], [1], 0, 2, 6), Gathered([], [], [], 2, 0));
    assert [] + [0] == [0] && [0] + [1] == [0, 1];
  }

  lemma SecondAnnounces(past0: Past, past1: Past)
    ensures var s := Step(OneAnnounced(past0, past1), Begin(2));
            && 2 in s.txns && 0 in s.rows && 0 in s.past && 0 !in s.txns[2].accesses
            && TouchRow(s, 2, 0, WR, 8) == Announced(past0, past1)
  {
    assert Insert([1], 2) == [1] + [2] == [1, 2] && Insert([], 1) == [1] && InsertAll([], [1]) == [1];
    assert PrewriteRow(RowState([], [1], 0, 0, 0), 2, NOTHING)
        == Touching(RowState([], [1, 2], 0, 0, 0), Gathered([], [1], [], 0, 0));
    assert [] + [0] == [0];
  }

  const BOTH: Table := map[1 := Entry(0, UINT64_MAX, RUNNING), 2 := Entry(0, UINT64_MAX, RUNNING)]
  const FIRST: Table := map[1 := Entry(3, UINT64_MAX, COMMITTED), 2 := Entry(0, UINT64_MAX, RUNNING)]
  const PULLED: Table := map[1 := Entry(3, UINT64_MAX, COMMITTED), 2 := Entry(0, 2, RUNNING)]

  lemma FirstValidates()
    ensures var v := Validate(BOTH, 1, Gathered([], [], [], 2, 0));
            v.rc == RCOK && FindBound(v.table, 1) == Bound(RCOK, FIRST, 3)
  {
    assert Scans(BOTH, 1, Gathered([], [], [], 2, 0)) == Bounds(3, UINT64_MAX, [], []);
  }

  /** 1 commits on row 1, then on row 0, where it tells 2, which it had not seen, to commit below. */
  lemma FirstForwards()
    ensures CommitRow(RowState([], [1], 0, 2, 6), FIRST, 1, Gathered([], [], [], 2, 0), WR, 3, 9)
            == RowCommit(RowState([], [], 0, 3, 9), FIRST)
    ensures CommitRow(RowState([], [1, 2], 0, 0, 0), FIRST, 1, Gathered([], [], [], 2, 0), WR, 3, 7)
            == RowCommit(RowState([], [2], 0, 3, 7), PULLED)
  {
    assert Erase([1], 1) == [] && Erase([1, 2], 1) == [2];
    assert PullBefore(FIRST, [2], [], 3) == PullBefore(PullOnce(FIRST, 2, [], 3), [], [], 3) == PULLED;
  }

  lemma CommitsTwo(s: Sys, id: TxnId, x: Txn, k0: Key, k1: Key, ts: Ts)
    ensures CommitAll(s, id, x, [k0, k1], ts) == CommitOne(CommitOne(s, id, x, k1, ts), id, x, k0, ts)
  {
    var keys, s1 := [k0, k1], CommitOne(s, id, x, k1, ts);
    assert keys[..1] == [k0] && [k0][..0] == [];
    assert CommitAll(s, id, x, keys, ts) == CommitAll(s1, id, x, [k0], ts);
    assert CommitAll(s1, id, x, [k0], ts) == CommitAll(CommitOne(s1, id, x, k0, ts), id, x, [], ts);
  }

  /** A commit on one row, given what it does to the row and the table. */
  lemma CommitsOne(s: Sys, id: TxnId, x: Txn, k: Key, ts: Ts, r: RowState, t: Table)
    requires k in s.rows && k in s.past && k in x.accesses && x.accesses[k].kind == WR
    requires CommitRow(s.rows[k], s.table, id, x.gathered, WR, ts, x.accesses[k].data) == RowCommit(r, t)
    ensures var w := PastWrite(ts, x.accesses[k].mark, id, x.gathered.uncommittedWritesY);
            CommitOne(s, id, x, k, ts)
            == Sys(t, s.rows[k := r], s.past[k := s.past[k].(writes := s.past[k].writes + [w])], s.txns)
  {
  }

  /** The state after 1 has committed. */
  function OneLeft(past0: Past, past1: Past): Sys {
    Sys(map[2 := Entry(0, 2, RUNNING)],
        map[0 := RowState([], [2], 0, 3, 7), 1 := RowState([], [], 0, 3, 9)],
        map[0 := past0.(writes := past0.writes + [PastWrite(3, |past0.writes|, 1, [])]),
            1 := past1.(writes := past1.writes + [PastWrite(3, |past1.writes|, 1, [])])],
        map[2 := Announced(past0, past1).txns[2]])
  }

  lemma FirstCommits(past0: Past, past1: Past)
    ensures FinishTxn(Announced(past0, past1), 1) == OneLeft(past0, past1)
  {
    var s := Announced(past0, past1);
    var x := s.txns[1];
    FirstValidates();
    FirstOnBothRows(past0, past1, s.(table := FIRST), x);
  }

  /** The state after 1 has committed on row 1 only. */
  function HalfDone(past0: Past, past1: Past): Sys {
    Sys(FIRST,
        map[0 := RowState([], [1, 2], 0, 0, 0), 1 := RowState([], [], 0, 3, 9)],
        map[0 := past0, 1 := past1.(writes := past1.writes + [PastWrite(3, |past1.writes|, 1, [])])],
        Announced(past0, past1).txns)
  }

  lemma FirstOnRow1(past0: Past, past1: Past, s: Sys, x: Txn)
    requires s == Announced(past0, past1).(table := FIRST) && x == Announced(past0, past1).txns[1]
    ensures CommitOne(s, 1, x, 1, 3) == HalfDone(past0, past1)
  {
    FirstForwards();
    CommitsOne(s, 1, x, 1, 3, RowState([], [], 0, 3, 9), FIRST);
  }

  lemma FirstOnRow0(past0: Past, past1: Past, s: Sys, x: Txn)
    requires s == HalfDone(past0, past1) && x == Announced(past0, past1).txns[1]
    ensures CommitOne(s, 1, x, 0, 3)
            == Sys(PULLED, OneLeft(past0, past1).rows, OneLeft(past0, past1).past, Announced(past0, past1).txns)
  {
    FirstForwards();
    OneLeftRows(past0, past1);
    OneLeftPast(past0, past1);
    CommitsOne(s, 1, x, 0, 3, RowState([], [2], 0, 3, 7), PULLED);
  }

  lemma OneLeftRows(past0: Past, past1: Past)
    ensures HalfDone(past0, past1).rows[0 := RowState([], [2], 0, 3, 7)] == OneLeft(past0, past1).rows
  {
  }

  lemma OneLeftPast(past0: Past, past1: Past)
    ensures HalfDone(past0, past1).past[0 := past0.(writes := past0.writes + [PastWrite(3, |past0.writes|, 1, [])])]
            == OneLeft(past0, past1).past
  {
  }

  lemma FirstReleased(past0: Past, past1: Past)
    ensures PULLED - {1} == OneLeft(past0, past1).table
    ensures Announced(past0, past1).txns - {1} == OneLeft(past0, past1).txns
  {
  }

  lemma FirstOnBothRows(past0: Past, past1: Past, s: Sys, x: Txn)
    requires s == Announced(past0, past1).(table := FIRST) && x == Announced(past0, past1).txns[1]
    ensures Release(CommitAll(s, 1, x, [0, 1], 3), 1) == OneLeft(past0, past1)
  {
    FirstOnRow1(past0, past1, s, x);
    FirstOnRow0(past0, past1, HalfDone(past0, past1), x);
    FirstReleased(past0, past1);
    CommitsTwo(s, 1, x, 0, 1, 3);
  }

  lemma SecondValidates()
    ensures var t: Table := map[2 := Entry(0, 2, RUNNING)];
            var v := Validate(t, 2, Gathered([], [1], [], 0, 0));
            v.rc == RCOK && FindBound(v.table, 2) == Bound(RCOK, map[2 := Entry(1, 2, COMMITTED)], 1)
  {
    var t: Table := map[2 := Entry(0, 2, RUNNING)];
    assert ScanWriteY(t, 1, Scan(1, [])) == Scan(1, []);
    assert ScanWritesY(t, [1], Scan(1, [])) == Scan(1, []);
    assert Scans(t, 2, Gathered([], [1], [], 0, 0)) == Bounds(1, 2, [], []);
  }

  lemma SecondCommits(past0: Past, past1: Past)
    ensures var s := FinishTxn(OneLeft(past0, past1), 2);
            && 0 in s.rows && s.rows[0].data == 8 && 0 in s.past
            && s.past[0].writes
               == past0.writes + [PastWrite(3, |past0.writes|, 1, []), PastWrite(1, |past0.writes|, 2, [1])]
  {
    var s := OneLeft(past0, past1);
    var x, t := s.txns[2], map[2 := Entry(1, 2, COMMITTED)];
    SecondValidates();
    var s1 := s.(table := t);
    assert Erase([2], 2) == [];
    assert CommitRow(s1.rows[0], t, 2, x.gathered, WR, 1, 8) == RowCommit(RowState([], [], 0, 3, 8), t);
    CommitsOne(s1, 2, x, 0, 1, RowState([], [], 0, 3, 8), t);
    assert [0][..0] == [];
    assert CommitAll(s1, 2, x, [0], 1) == CommitOne(s1, 2, x, 0, 1);
  }

  ghost predicate Leads(s: Sys, run: seq<Action>, s': Sys) {
    AllowedRun(s, run) && Run(s, run) == s'
  }

  lemma LeadsOn(s: Sys, a: Action, run: seq<Action>, s': Sys)
    requires Allowed(s, a) && Leads(Step(s, a), run, s')
    ensures Leads(s, [a] + run, s')
  {
    assert ([a] + run)[1..] == run;
  }

  lemma AloneLeads(s: Sys, id: TxnId, k: Key, data: Row, last: Ts, before: Row, s1: Sys, run: seq<Action>, s': Sys)
    requires s.table == map[] && s.txns == map[] && k in s.rows && k in s.past && last < UINT64_MAX - 4
    requires s.rows[k] == RowState([], [], 0, last, before)
    requires s1 == Sys(map[], s.rows[k := RowState([], [], 0, last + 1, data)],
                       s.past[k := Past(s.past[k].writes + [PastWrite(last + 1, |s.past[k].writes|, id, [])],
                                        s.past[k].readings)],
                       map[])
    requires Leads(s1, run, s')
    ensures Leads(s, [Begin(id)] + ([Touch(id, k, WR, data)] + ([Finish(id)] + run)), s')
  {
    WritesAlone(s, id, k, data, last, before);
    var b := Step(s, Begin(id));
    var t := Step(b, Touch(id, k, WR, data));
    LeadsOn(t, Finish(id), run, s');
    LeadsOn(b, Touch(id, k, WR, data), [Finish(id)] + run, s');
    LeadsOn(s, Begin(id), [Touch(id, k, WR, data)] + ([Finish(id)] + run), s');
  }

  lemma AnnounceLeads(past0: Past, past1: Past, run: seq<Action>, s': Sys)
    requires Leads(Announced(past0, past1), run, s')
    ensures Leads(NoneAnnounced(past0, past1),
                  [Begin(1)] + ([Touch(1, 0, WR, 7)] + ([Touch(1, 1, WR, 9)] + ([Begin(2)]
                  + ([Touch(2, 0, WR, 8)] + run)))), s')
  {
    FirstAnnounces(past0, past1);
    SecondAnnounces(past0, past1);
    var s, s3 := NoneAnnounced(past0, past1), OneAnnounced(past0, past1);
    var s1 := Step(s, Begin(1));
    var r4 := [Touch(2, 0, WR, 8)] + run;
    LeadsOn(Step(s3, Begin(2)), Touch(2, 0, WR, 8), run, s');
    LeadsOn(s3, Begin(2), r4, s');
    LeadsOn(TouchRow(s1, 1, 0, WR, 7), Touch(1, 1, WR, 9), [Begin(2)] + r4, s');
    LeadsOn(s1, Touch(1, 0, WR, 7), [Touch(1, 1, WR, 9)] + ([Begin(2)] + r4), s');
    LeadsOn(s, Begin(1), [Touch(1, 0, WR, 7)] + ([Touch(1, 1, WR, 9)] + ([Begin(2)] + r4)), s');
  }

  lemma EndLeads(past0: Past, past1: Past)
    ensures Leads(Announced(past0, past1), [Finish(1)] + ([Finish(2)] + []), FinishTxn(OneLeft(past0, past1), 2))
  {
    FirstCommits(past0, past1);
    LeadsOn(OneLeft(past0, past1), Finish(2), [], FinishTxn(OneLeft(past0, past1), 2));
    LeadsOn(Announced(past0, past1), Finish(1), [Finish(2)] + [], FinishTxn(OneLeft(past0, past1), 2));
  }

  /** Two rows, the second of which has been written at 1 and at 2. */
  function Prepared(last: Ts, data: Row, writes: seq<PastWrite>): Sys {
    Sys(map[], map[0 := RowState([], [], 0, 0, 0), 1 := RowState([], [], 0, last, data)],
        map[0 := Past([], []), 1 := Past(writes, [])], map[])
  }

  lemma PrepareLeads(last: Ts, data: Row, writes: seq<PastWrite>, id: TxnId, data': Row, run: seq<Action>, s': Sys)
    requires last < UINT64_MAX - 4
    requires Leads(Prepared(last + 1, data', writes + [PastWrite(last + 1, |writes|, id, [])]), run, s')
    ensures Leads(Prepared(last, data, writes), [Begin(id)] + ([Touch(id, 1, WR, data')] + ([Finish(id)] + run)), s')
  {
    var s := Prepared(last, data, writes);
    var s1 := Prepared(last + 1, data', writes + [PastWrite(last + 1, |writes|, id, [])]);
    assert s1.rows == s.rows[1 := RowState([], [], 0, last + 1, data')];
    assert s1.past == s.past[1 := Past(writes + [PastWrite(last + 1, |writes|, id, [])], [])];
    AloneLeads(s, id, 1, data', last, data, s1, run, s');
  }

  lemma StartIsPrepared()
    ensures Start(map[0 := 0, 1 := 0]) == Prepared(0, 0, [])
  {
  }

  /** What follows the preparation. */
  lemma FinaleLeads(writes: seq<PastWrite>) returns (run: seq<Action>, s': Sys)
    ensures Leads(Prepared(2, 6, writes), run, s')
    ensures 0 in s'.rows && s'.rows[0].data == 8 && 0 in s'.past
    ensures s'.past[0].writes == [PastWrite(3, 0, 1, []), PastWrite(1, 0, 2, [1])]
  {
    var past0, past1 := Past([], []), Past(writes, []);
    s' := FinishTxn(OneLeft(past0, past1), 2);
    assert Prepared(2, 6, writes) == NoneAnnounced(past0, past1);
    EndLeads(past0, past1);
    AnnounceLeads(past0, past1, [Finish(1)] + ([Finish(2)] + []), s');
    SecondCommits(past0, past1);
    run := [Begin(1)] + ([Touch(1, 0, WR, 7)] + ([Touch(1, 1, WR, 9)] + ([Begin(2)]
           + ([Touch(2, 0, WR, 8)] + ([Finish(1)] + ([Finish(2)] + []))))));
  }

  /**
   * Two transactions announce a write of row 0. The first commits at 3, because of another row that it writes; the
   * second, which it had not seen, commits at 1 afterwards, and the row keeps the second one's write.
   */
  lemma LastWriteIsNotLatest() returns (run: seq<Action>)
    ensures AllowedRun(Start(map[0 := 0, 1 := 0]), run)
    ensures var s := Run(Start(map[0 := 0, 1 := 0]), run);
            && 0 in s.rows && s.rows[0].data == 8 && 0 in s.past
            && s.past[0].writes == [PastWrite(3, 0, 1, []), PastWrite(1, 0, 2, [1])]
  {
    var once, twice := [PastWrite(1, 0, 3, [])], [PastWrite(1, 0, 3, [])] + [PastWrite(2, 1, 4, [])];
    var later, s' := FinaleLeads(twice);
    PrepareLeads(1, 5, once, 4, 6, later, s');
    var rest := [Begin(4)] + ([Touch(4, 1, WR, 6)] + ([Finish(4)] + later));
    assert [] + once == once;
    PrepareLeads(0, 0, [], 3, 5, rest, s');
    StartIsPrepared();
    run := [Begin(3)] + ([Touch(3, 1, WR, 5)] + ([Finish(3)] + rest));
  }
}
