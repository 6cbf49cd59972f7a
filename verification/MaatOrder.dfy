/**
 * Whole runs of MaaT over any number of rows and transactions, where validation, the choice of the commit timestamp,
 * the commit on every row and the release of the table entry form one step. A committed reader's timestamp is below a
 * committed writer's exactly when it read the row before the writer committed there.
 */
module MaatOrder {
  import opened Types
  import opened MaatSpec
  import opened MaatValidation

  type Key = int

  /** One access of a transaction: the buffer it will write, and how many committed writes the row had at the time. */
  datatype Access = Access(kind: AccessType, data: Row, mark: nat)

  /** A transaction's rows in the order it touched them, with its access to each. */
  datatype Txn = Txn(gathered: Gathered, order: seq<Key>, accesses: map<Key, Access>)

  /** A committed read: after how many committed writes of the row it happened, and its commit timestamp. */
  datatype PastRead = PastRead(mark: nat, ts: Ts)

  /**
   * A committed write: its commit timestamp, how many writes had been committed on the row when it was announced, who
   * made it, and whom its transaction had found announced before it, on this row or another.
   */
  datatype PastWrite = PastWrite(ts: Ts, mark: nat, id: TxnId, ahead: seq<TxnId>)

  /** What has been committed on a row: writes in the order they were applied, and reads. */
  datatype Past = Past(writes: seq<PastWrite>, readings: seq<PastRead>)

  datatype Sys = Sys(table: Table, rows: map<Key, RowState>, past: map<Key, Past>, txns: map<TxnId, Txn>)

  datatype Action =
    | Begin(id: TxnId)
    | Touch(id: TxnId, key: Key, kind: AccessType, data: Row)
    | Finish(id: TxnId)
    | GiveUp(id: TxnId)

  function Start(rows: map<Key, Row>): Sys {
    Sys(map[], map k | k in rows :: RowState([], [], 0, 0, rows[k]), map k | k in rows :: Past([], []), map[])
  }

  /** An identifier is begun again only after it has ended; a transaction touches a row once. */
  predicate Allowed(s: Sys, a: Action) {
    match a
    case Begin(id) => id !in s.txns
    case Touch(id, key, _, _) => id in s.txns && key in s.rows && key in s.past && key !in s.txns[id].accesses
    case Finish(id) => id in s.txns
    case GiveUp(id) => id in s.txns
  }

  function TouchRow(s: Sys, id: TxnId, key: Key, kind: AccessType, data: Row): Sys
    requires id in s.txns && key in s.rows && key in s.past
  {
    var x := s.txns[id];
    var r := if kind == RD then ReadRow(s.rows[key], id, x.gathered) else PrewriteRow(s.rows[key], id, x.gathered);
    var a := Access(kind, data, |s.past[key].writes|);
    s.(rows := s.rows[key := r.row],
       txns := s.txns[id := Txn(r.gathered, x.order + [key], x.accesses[key := a])])
  }

  function Recorded(p: Past, id: TxnId, g: Gathered, a: Access, ts: Ts): Past {
    if a.kind == RD then p.(readings := p.readings + [PastRead(a.mark, ts)])
    else p.(writes := p.writes + [PastWrite(ts, a.mark, id, g.uncommittedWritesY)])
  }

  function CommitOne(s: Sys, id: TxnId, x: Txn, k: Key, ts: Ts): Sys {
    if k !in s.rows || k !in s.past || k !in x.accesses then s
    else
      var a := x.accesses[k];
      var c := CommitRow(s.rows[k], s.table, id, x.gathered, a.kind, ts, a.data);
      s.(rows := s.rows[k := c.row], table := c.table, past := s.past[k := Recorded(s.past[k], id, x.gathered, a, ts)])
  }

  /** The rows are given back last one first. */
  function CommitAll(s: Sys, id: TxnId, x: Txn, keys: seq<Key>, ts: Ts): Sys
    decreases |keys|
  {
    if keys == [] then s
    else CommitAll(CommitOne(s, id, x, keys[|keys| - 1], ts), id, x, keys[..|keys| - 1], ts)
  }

  function AbortOne(s: Sys, id: TxnId, x: Txn, k: Key): Sys {
    if k in s.rows && k in x.accesses
    then s.(rows := s.rows[k := AbortRow(s.rows[k], id, x.accesses[k].kind)])
    else s
  }

  function AbortAll(s: Sys, id: TxnId, x: Txn, keys: seq<Key>): Sys
    decreases |keys|
  {
    if keys == [] then s else AbortAll(AbortOne(s, id, x, keys[|keys| - 1]), id, x, keys[..|keys| - 1])
  }

  /** `time_table.release`, and the transaction is gone. */
  function Release(s: Sys, id: TxnId): Sys {
    s.(table := s.table - {id}, txns := s.txns - {id})
  }

  function FinishTxn(s: Sys, id: TxnId): Sys
    requires id in s.txns
  {
    var x := s.txns[id];
    var v := Validate(s.table, id, x.gathered);
    var f := FindBound(v.table, id);
    if v.rc == RCOK && f.rc == RCOK
    then Release(CommitAll(s.(table := f.table), id, x, x.order, f.commitTs), id)
    else Release(AbortAll(s.(table := v.table), id, x, x.order), id)
  }

  function Step(s: Sys, a: Action): Sys
    requires Allowed(s, a)
  {
    match a
    case Begin(id) =>
      s.(table := s.table[id := Entry(0, UINT64_MAX, RUNNING)],
         txns := s.txns[id := Txn(Gathered([], [], [], 0, 0), [], map[])])
    case Touch(id, key, kind, data) => TouchRow(s, id, key, kind, data)
    case Finish(id) => FinishTxn(s, id)
    case GiveUp(id) => Release(AbortAll(s, id, s.txns[id], s.txns[id].order), id)
  }

  ghost predicate AllowedRun(s: Sys, run: seq<Action>)
    decreases |run|
  {
    run == [] || (Allowed(s, run[0]) && AllowedRun(Step(s, run[0]), run[1..]))
  }

  ghost function Run(s: Sys, run: seq<Action>): Sys
    requires AllowedRun(s, run)
    decreases |run|
  {
    if run == [] then s else Run(Step(s, run[0]), run[1..])
  }

  /** Commit timestamps on a row agree with the order of its reads and writes. */
  ghost predicate Ordered(p: Past) {
    forall i, j :: 0 <= i < |p.readings| && 0 <= j < |p.writes| ==>
      && (j < p.readings[i].mark ==> p.writes[j].ts < p.readings[i].ts)
      && (p.readings[i].mark <= j ==> p.readings[i].ts < p.writes[j].ts)
  }

  /** The later of two writes was announced after the earlier had been committed, or found by it announced before it. */
  ghost predicate Follows(w: PastWrite, i: nat, w': PastWrite) {
    i < w'.mark || w'.id in w.ahead
  }

  /** Timestamps of writes differ, and go up exactly from a write to one that follows it. */
  ghost predicate WritesOrdered(p: Past) {
    forall i, j :: 0 <= i < j < |p.writes| ==>
      if Follows(p.writes[i], i, p.writes[j]) then p.writes[i].ts < p.writes[j].ts else p.writes[j].ts < p.writes[i].ts
  }

  ghost predicate Touches(s: Sys, id: TxnId, k: Key, kind: AccessType) {
    id in s.txns && k in s.txns[id].accesses && s.txns[id].accesses[k].kind == kind
  }

  /** A row lists exactly the live transactions that have touched it. */
  ghost predicate Lists(s: Sys, k: Key, id: TxnId) {
    k in s.rows ==>
      && (id in s.rows[k].uncommittedReads <==> Touches(s, id, k, RD))
      && (id in s.rows[k].uncommittedWrites <==> Touches(s, id, k, WR))
  }

  ghost predicate Unique(keys: seq<Key>) {
    forall i, j :: 0 <= i < j < |keys| ==> keys[i] != keys[j]
  }

  ghost predicate WellFormed(s: Sys, id: TxnId, x: Txn) {
    && Unique(x.order)
    && (forall k :: k in x.order <==> k in x.accesses)
    && x.accesses.Keys <= s.rows.Keys
    && id !in x.gathered.uncommittedWrites
    && id !in x.gathered.uncommittedReads
    && id !in x.gathered.uncommittedWritesY
  }

  ghost predicate Consistent(s: Sys) {
    && s.table.Keys == s.txns.Keys && s.rows.Keys == s.past.Keys
    && (forall id :: id in s.table ==> s.table[id].state == RUNNING)
    && (forall id :: id in s.txns ==> WellFormed(s, id, s.txns[id]))
    && (forall k, id :: Lists(s, k, id))
  }

  /** All finite timestamps are at most `top`. */
  ghost predicate Bounded(s: Sys, top: Ts) {
    && Within(s.table, top)
    && (forall k :: k in s.rows ==> s.rows[k].lastRead <= top && s.rows[k].lastWrite <= top)
    && (forall id :: id in s.txns ==>
          s.txns[id].gathered.greatestWrite <= top && s.txns[id].gathered.greatestRead <= top)
  }

  ghost predicate Summed(r: RowState, p: Past) {
    && (forall j :: 0 <= j < |p.writes| ==> p.writes[j].ts <= r.lastWrite)
    && (forall i :: 0 <= i < |p.readings| ==> p.readings[i].ts <= r.lastRead && p.readings[i].mark <= |p.writes|)
  }

  /** The row's two timestamps are those of a committed write and a committed read. */
  ghost predicate Attained(r: RowState, p: Past) {
    && (r.lastWrite == 0 || exists j :: 0 <= j < |p.writes| && p.writes[j].ts == r.lastWrite)
    && (r.lastRead == 0 || exists i :: 0 <= i < |p.readings| && p.readings[i].ts == r.lastRead)
  }

  /**
   * A live reader can only commit above the writes it saw and below those that came after; a live writer can only
   * commit above every committed read, above the writes it follows and below the others.
   */
  ghost predicate Fits(p: Past, id: TxnId, g: Gathered, e: Entry, a: Access) {
    && a.mark <= |p.writes|
    && (forall j :: 0 <= j < a.mark ==> p.writes[j].ts <= g.greatestWrite)
    && if a.kind == RD then
         forall j :: a.mark <= j < |p.writes| ==> e.upper < p.writes[j].ts
       else
         && (forall i :: 0 <= i < |p.readings| ==> p.readings[i].ts <= g.greatestRead || p.readings[i].ts < e.lower)
         && (forall j :: a.mark <= j < |p.writes| ==>
               if id in p.writes[j].ahead then p.writes[j].ts < e.lower else e.upper < p.writes[j].ts)
  }

  ghost predicate FitsAt(s: Sys, id: TxnId, k: Key) {
    id in s.txns && id in s.table && k in s.txns[id].accesses && k in s.past ==>
      Fits(s.past[k], id, s.txns[id].gathered, s.table[id], s.txns[id].accesses[k])
  }

  ghost predicate PastOk(s: Sys) {
    forall k :: k in s.past && k in s.rows ==>
      && Ordered(s.past[k]) && WritesOrdered(s.past[k])
      && Summed(s.rows[k], s.past[k]) && Attained(s.rows[k], s.past[k])
  }

  ghost predicate Inv(s: Sys, top: Ts) {
    Consistent(s) && Bounded(s, top) && PastOk(s) && forall id, k :: FitsAt(s, id, k)
  }

  lemma BeginKeepsInv(s: Sys, id: TxnId, top: Ts)
    requires Inv(s, top) && id !in s.txns
    ensures Inv(Step(s, Begin(id)), top)
  {
    var s' := Step(s, Begin(id));
    BeginKeepsConsistent(s, id);
    BeginKeepsBounds(s, id, top);
    forall y, k ensures FitsAt(s', y, k) {
      assert FitsAt(s, y, k);
    }
  }

  lemma BeginKeepsBounds(s: Sys, id: TxnId, top: Ts)
    requires Bounded(s, top) && PastOk(s) && id !in s.txns
    ensures Bounded(Step(s, Begin(id)), top) && PastOk(Step(s, Begin(id)))
  {
  }

  lemma BeginKeepsConsistent(s: Sys, id: TxnId)
    requires Consistent(s) && id !in s.txns
    ensures Consistent(Step(s, Begin(id)))
  {
    var s' := Step(s, Begin(id));
    forall k, y ensures Lists(s', k, y) {
      assert Lists(s, k, y);
    }
    forall y | y in s'.txns ensures WellFormed(s', y, s'.txns[y]) {
      assert y != id ==> WellFormed(s, y, s.txns[y]);
    }
  }

  /** What touching a row adds to a transaction's gathering. */
  lemma TouchGathers(r: RowState, id: TxnId, g: Gathered, kind: AccessType)
    ensures var c := if kind == RD then ReadRow(r, id, g) else PrewriteRow(r, id, g);
            && (forall y :: y in c.row.uncommittedReads <==> y in r.uncommittedReads || (kind == RD && y == id))
            && (forall y :: y in c.row.uncommittedWrites <==> y in r.uncommittedWrites || (kind == WR && y == id))
            && (forall y :: y in c.gathered.uncommittedWrites <==>
                  y in g.uncommittedWrites || (kind == RD && y in r.uncommittedWrites))
            && (forall y :: y in c.gathered.uncommittedReads <==>
                  y in g.uncommittedReads || (kind == WR && y in r.uncommittedReads))
            && (forall y :: y in c.gathered.uncommittedWritesY <==>
                  y in g.uncommittedWritesY || (kind == WR && y in r.uncommittedWrites))
            && c.gathered.greatestWrite == Max(g.greatestWrite, r.lastWrite)
            && c.gathered.greatestRead == (if kind == WR then Max(g.greatestRead, r.lastRead) else g.greatestRead)
  {
    InsertMembers(r.uncommittedReads, id);
    InsertMembers(r.uncommittedWrites, id);
    InsertAllMembers(g.uncommittedWrites, r.uncommittedWrites);
    InsertAllMembers(g.uncommittedReads, r.uncommittedReads);
    InsertAllMembers(g.uncommittedWritesY, r.uncommittedWrites);
  }

  lemma TouchKeepsConsistent(s: Sys, id: TxnId, key: Key, kind: AccessType, data: Row)
    requires Consistent(s) && Allowed(s, Touch(id, key, kind, data))
    ensures Consistent(TouchRow(s, id, key, kind, data))
  {
    var s' := TouchRow(s, id, key, kind, data);
    forall k, y ensures Lists(s', k, y) {
      assert Lists(s, k, y);
      TouchLists(s, id, key, kind, data, k, y);
    }
    TouchWellFormed(s, id, key, kind, data);
    forall y | y in s'.txns && y != id ensures WellFormed(s', y, s'.txns[y]) {
      assert WellFormed(s, y, s.txns[y]);
    }
  }

  lemma TouchLists(s: Sys, id: TxnId, key: Key, kind: AccessType, data: Row, k: Key, y: TxnId)
    requires Allowed(s, Touch(id, key, kind, data)) && Lists(s, k, y)
    ensures Lists(TouchRow(s, id, key, kind, data), k, y)
  {
    TouchGathers(s.rows[key], id, s.txns[id].gathered, kind);
  }

  lemma TouchWellFormed(s: Sys, id: TxnId, key: Key, kind: AccessType, data: Row)
    requires Consistent(s) && Allowed(s, Touch(id, key, kind, data))
    ensures var s' := TouchRow(s, id, key, kind, data);
            id in s'.txns && WellFormed(s', id, s'.txns[id])
  {
    var x, x' := s.txns[id], TouchRow(s, id, key, kind, data).txns[id];
    assert WellFormed(s, id, x) && Lists(s, key, id);
    TouchGathers(s.rows[key], id, x.gathered, kind);
    assert forall k :: k in x'.order <==> k in x.order || k == key;
  }

  lemma TouchFits(s: Sys, id: TxnId, key: Key, kind: AccessType, data: Row, y: TxnId, k: Key)
    requires Allowed(s, Touch(id, key, kind, data)) && Summed(s.rows[key], s.past[key]) && FitsAt(s, y, k)
    ensures FitsAt(TouchRow(s, id, key, kind, data), y, k)
  {
  }

  lemma TouchKeepsBounds(s: Sys, id: TxnId, key: Key, kind: AccessType, data: Row, top: Ts)
    requires Bounded(s, top) && Allowed(s, Touch(id, key, kind, data))
    ensures Bounded(TouchRow(s, id, key, kind, data), top)
  {
  }

  lemma TouchKeepsPast(s: Sys, id: TxnId, key: Key, kind: AccessType, data: Row)
    requires PastOk(s) && Allowed(s, Touch(id, key, kind, data))
    ensures PastOk(TouchRow(s, id, key, kind, data))
  {
    var s' := TouchRow(s, id, key, kind, data);
    assert forall k :: k in s.rows ==> s'.rows[k].lastRead == s.rows[k].lastRead;
    assert forall k :: k in s.rows ==> s'.rows[k].lastWrite == s.rows[k].lastWrite;
  }

  lemma TouchKeepsInv(s: Sys, id: TxnId, key: Key, kind: AccessType, data: Row, top: Ts)
    requires Inv(s, top) && Allowed(s, Touch(id, key, kind, data))
    ensures Inv(TouchRow(s, id, key, kind, data), top)
  {
    var s' := TouchRow(s, id, key, kind, data);
    TouchKeepsConsistent(s, id, key, kind, data);
    TouchKeepsBounds(s, id, key, kind, data, top);
    TouchKeepsPast(s, id, key, kind, data);
    forall y, k ensures FitsAt(s', y, k) {
      assert FitsAt(s, y, k);
      TouchFits(s, id, key, kind, data, y, k);
    }
  }

  /** A row once `id` has left it: its other registrations stay, its timestamps do not go back. */
  ghost predicate Left(r: RowState, r': RowState, id: TxnId) {
    && (forall y :: y in r'.uncommittedReads <==> y in r.uncommittedReads && y != id)
    && (forall y :: y in r'.uncommittedWrites <==> y in r.uncommittedWrites && y != id)
    && r.lastRead <= r'.lastRead && r.lastWrite <= r'.lastWrite
  }

  lemma UniqueInit(keys: seq<Key>)
    requires Unique(keys) && keys != []
    ensures Unique(keys[..|keys| - 1]) && keys[|keys| - 1] !in keys[..|keys| - 1]
    ensures forall k :: k in keys <==> k in keys[..|keys| - 1] || k == keys[|keys| - 1]
  {
    assert keys == keys[..|keys| - 1] + [keys[|keys| - 1]];
  }

  lemma {:induction false} AbortAllMeans(s: Sys, id: TxnId, x: Txn, keys: seq<Key>)
    requires Unique(keys) && forall k :: k in keys ==> k in x.accesses && k in s.rows
    ensures var s' := AbortAll(s, id, x, keys);
            && s' == s.(rows := s'.rows) && s'.rows.Keys == s.rows.Keys
            && forall k :: k in s.rows ==>
                 s'.rows[k] == if k in keys then AbortRow(s.rows[k], id, x.accesses[k].kind) else s.rows[k]
    decreases |keys|
  {
    if keys != [] {
      UniqueInit(keys);
      AbortAllMeans(AbortOne(s, id, x, keys[|keys| - 1]), id, x, keys[..|keys| - 1]);
    }
  }

  lemma AbortedRowLeft(s: Sys, id: TxnId, k: Key)
    requires id in s.txns && k in s.rows && Lists(s, k, id) && k in s.txns[id].accesses
    ensures Left(s.rows[k], AbortRow(s.rows[k], id, s.txns[id].accesses[k].kind), id)
  {
    EraseMembers(s.rows[k].uncommittedReads, id);
    EraseMembers(s.rows[k].uncommittedWrites, id);
  }

  lemma AbortedOrUntouched(s: Sys, id: TxnId, k: Key)
    requires Consistent(s) && id in s.txns && k in s.rows
    ensures var r := s.rows[k];
            var r' := if k in s.txns[id].order then AbortRow(r, id, s.txns[id].accesses[k].kind) else r;
            Left(r, r', id) && r'.lastRead == r.lastRead && r'.lastWrite == r.lastWrite
  {
    assert WellFormed(s, id, s.txns[id]) && Lists(s, k, id);
    if k in s.txns[id].order { AbortedRowLeft(s, id, k); }
  }

  /** When `id` has left every row and the table, the others are registered as before. */
  lemma LeavingKeepsConsistent(s: Sys, s': Sys, id: TxnId)
    requires Consistent(s) && id in s.txns
    requires s'.txns == s.txns - {id} && s'.table.Keys == s.table.Keys - {id}
    requires forall y :: y in s'.table ==> s'.table[y].state == RUNNING
    requires s'.rows.Keys == s.rows.Keys && s'.past.Keys == s.past.Keys
    requires forall k :: k in s.rows ==> Left(s.rows[k], s'.rows[k], id)
    ensures Consistent(s')
  {
    forall k, y ensures Lists(s', k, y) {
      assert Lists(s, k, y);
    }
    forall y | y in s'.txns ensures WellFormed(s', y, s'.txns[y]) {
      assert WellFormed(s, y, s.txns[y]);
    }
  }

  /** `id` has gone without committing: nothing else has moved. */
  ghost predicate Withdrawn(s: Sys, s': Sys, id: TxnId) {
    && s'.txns == s.txns - {id} && s'.table.Keys == s.table.Keys - {id}
    && (forall y :: y in s'.table ==> y in s.table && s'.table[y] == s.table[y])
    && s'.rows.Keys == s.rows.Keys && s'.past == s.past
    && (forall k :: k in s.rows ==>
          && Left(s.rows[k], s'.rows[k], id)
          && s'.rows[k].lastRead == s.rows[k].lastRead && s'.rows[k].lastWrite == s.rows[k].lastWrite)
  }

  lemma AbortWithdraws(s: Sys, t: Table, id: TxnId)
    requires Consistent(s) && id in s.txns && t.Keys == s.table.Keys
    requires forall y :: y in t && y != id ==> t[y] == s.table[y]
    ensures Withdrawn(s, Release(AbortAll(s.(table := t), id, s.txns[id], s.txns[id].order), id), id)
  {
    var x := s.txns[id];
    assert WellFormed(s, id, x);
    AbortAllMeans(s.(table := t), id, x, x.order);
    var s' := Release(AbortAll(s.(table := t), id, x, x.order), id);
    forall k | k in s.rows
      ensures Left(s.rows[k], s'.rows[k], id)
      ensures s'.rows[k].lastRead == s.rows[k].lastRead && s'.rows[k].lastWrite == s.rows[k].lastWrite
    {
      AbortedOrUntouched(s, id, k);
    }
  }

  lemma WithdrawnKeepsInv(s: Sys, s': Sys, id: TxnId, top: Ts)
    requires Inv(s, top) && id in s.txns && Withdrawn(s, s', id)
    ensures Inv(s', top)
  {
    LeavingKeepsConsistent(s, s', id);
    WithdrawnKeepsPast(s, s', id);
    forall y, k ensures FitsAt(s', y, k) {
      assert FitsAt(s, y, k);
    }
  }

  lemma WithdrawnKeepsPast(s: Sys, s': Sys, id: TxnId)
    requires PastOk(s) && Withdrawn(s, s', id)
    ensures PastOk(s')
  {
  }

  /** The row part of a commit does not depend on the table. */
  function CommittedRow(r: RowState, id: TxnId, a: Access, ts: Ts): RowState {
    CommitRow(r, map[], id, Gathered([], [], [], 0, 0), a.kind, ts, a.data).row
  }

  lemma {:induction false} CommitAllRows(s: Sys, id: TxnId, x: Txn, keys: seq<Key>, ts: Ts)
    requires Unique(keys) && s.rows.Keys == s.past.Keys && forall k :: k in keys ==> k in x.accesses && k in s.rows
    ensures var s' := CommitAll(s, id, x, keys, ts);
            && s'.txns == s.txns && s'.rows.Keys == s.rows.Keys && s'.past.Keys == s.past.Keys
            && (forall k :: k in s.rows ==>
                  s'.rows[k] == if k in keys then CommittedRow(s.rows[k], id, x.accesses[k], ts) else s.rows[k])
            && (forall k :: k in s.past ==>
                  s'.past[k] == if k in keys then Recorded(s.past[k], id, x.gathered, x.accesses[k], ts) else s.past[k])
    decreases |keys|
  {
    if keys != [] {
      UniqueInit(keys);
      CommitAllRows(CommitOne(s, id, x, keys[|keys| - 1], ts), id, x, keys[..|keys| - 1], ts);
    }
  }

  lemma CommittedRowLeft(s: Sys, id: TxnId, k: Key, ts: Ts)
    requires id in s.txns && k in s.rows && Lists(s, k, id) && k in s.txns[id].accesses
    ensures Left(s.rows[k], CommittedRow(s.rows[k], id, s.txns[id].accesses[k], ts), id)
  {
    EraseMembers(s.rows[k].uncommittedReads, id);
    EraseMembers(s.rows[k].uncommittedWrites, id);
  }

  /** What the forward validation of a commit achieves on one row. */
  ghost predicate Forwarded(r: RowState, t: Table, t': Table, id: TxnId, g: Gathered, a: Access, ts: Ts) {
    t.Keys == t'.Keys &&
    if a.kind == RD
    then forall y :: y in t && y in r.uncommittedWrites && y !in g.uncommittedWrites ==> ts < t'[y].lower
    else
      && (forall y :: y in t && y in r.uncommittedReads && y !in g.uncommittedReads ==> t'[y].upper < ts)
      && (forall y :: y in t && y in r.uncommittedWrites && y != id && y !in g.uncommittedWritesY ==> t'[y].upper < ts)
  }

  lemma CommitOneMeans(s: Sys, id: TxnId, x: Txn, k: Key, ts: Ts)
    requires k in s.rows && k in s.past && k in x.accesses && 0 < ts < UINT64_MAX
    requires id in s.table && s.table[id].lower == ts
    requires (x.accesses[k].kind == RD ==> id !in s.rows[k].uncommittedWrites)
    ensures var t' := CommitOne(s, id, x, k, ts).table;
            && Narrowed(s.table, t') && SameStates(s.table, t') && t'[id].lower == ts
            && Forwarded(s.rows[k], s.table, t', id, x.gathered, x.accesses[k], ts)
  {
    var r, g := s.rows[k], x.gathered;
    if x.accesses[k].kind == RD {
      PushAfterMeans(s.table, r.uncommittedWrites, g.uncommittedWrites, ts);
    } else {
      var writers := Erase(r.uncommittedWrites, id);
      EraseMembers(r.uncommittedWrites, id);
      var t1 := PullBefore(s.table, writers, g.uncommittedWritesY, ts);
      PullBeforeMeans(s.table, writers, g.uncommittedWritesY, ts);
      PullBeforeMeans(t1, r.uncommittedReads, g.uncommittedReads, ts);
    }
  }

  lemma ForwardedStays(
    r: RowState, t: Table, t1: Table, t2: Table, id: TxnId, g: Gathered, a: Access, ts: Ts)
    requires Forwarded(r, t, t1, id, g, a, ts) && Narrowed(t1, t2)
    ensures Forwarded(r, t, t2, id, g, a, ts)
  {
  }

  lemma ForwardedFrom(
    r: RowState, t: Table, t1: Table, t2: Table, id: TxnId, g: Gathered, a: Access, ts: Ts)
    requires Forwarded(r, t1, t2, id, g, a, ts) && t.Keys == t1.Keys
    ensures Forwarded(r, t, t2, id, g, a, ts)
  {
  }

  lemma {:induction false} CommitAllTable(s: Sys, id: TxnId, x: Txn, keys: seq<Key>, ts: Ts)
    requires Unique(keys) && s.rows.Keys == s.past.Keys && 0 < ts < UINT64_MAX
    requires forall k :: k in keys ==>
               k in x.accesses && k in s.rows && (x.accesses[k].kind == RD ==> id !in s.rows[k].uncommittedWrites)
    requires id in s.table && s.table[id].lower == ts
    ensures var t' := CommitAll(s, id, x, keys, ts).table;
            && Narrowed(s.table, t') && SameStates(s.table, t')
            && forall k :: k in keys ==> Forwarded(s.rows[k], s.table, t', id, x.gathered, x.accesses[k], ts)
    decreases |keys|
  {
    if keys != [] {
      var k0, rest := keys[|keys| - 1], keys[..|keys| - 1];
      UniqueInit(keys);
      CommitOneMeans(s, id, x, k0, ts);
      var s1 := CommitOne(s, id, x, k0, ts);
      CommitAllTable(s1, id, x, rest, ts);
      var t' := CommitAll(s, id, x, keys, ts).table;
      forall k | k in keys ensures Forwarded(s.rows[k], s.table, t', id, x.gathered, x.accesses[k], ts) {
        if k == k0 {
          ForwardedStays(s.rows[k], s.table, s1.table, t', id, x.gathered, x.accesses[k], ts);
        } else {
          ForwardedFrom(s.rows[k], s.table, s1.table, t', id, x.gathered, x.accesses[k], ts);
        }
      }
    }
  }

  lemma {:induction false} CommitAllWithin(s: Sys, id: TxnId, x: Txn, keys: seq<Key>, ts: Ts, top: Ts)
    requires Within(s.table, top) && 0 < ts < top < UINT64_MAX
    requires id in s.table && s.table[id].lower == ts && Unique(keys) && s.rows.Keys == s.past.Keys
    requires forall k :: k in keys ==>
               k in x.accesses && k in s.rows && (x.accesses[k].kind == RD ==> id !in s.rows[k].uncommittedWrites)
    ensures Within(CommitAll(s, id, x, keys, ts).table, top)
    decreases |keys|
  {
    if keys != [] {
      var k0, rest := keys[|keys| - 1], keys[..|keys| - 1];
      UniqueInit(keys);
      CommitOneMeans(s, id, x, k0, ts);
      var r, g := s.rows[k0], x.gathered;
      var writers := Erase(r.uncommittedWrites, id);
      ForwardStaysWithin(s.table, r.uncommittedWrites, g.uncommittedWrites, ts, top);
      ForwardStaysWithin(s.table, writers, g.uncommittedWritesY, ts, top);
      var t1 := PullBefore(s.table, writers, g.uncommittedWritesY, ts);
      ForwardStaysWithin(t1, r.uncommittedReads, g.uncommittedReads, ts, top);
      CommitAllWithin(CommitOne(s, id, x, k0, ts), id, x, rest, ts, top);
    }
  }

  /** `id` has committed at `ts`: the rows it touched record it, and whoever shares a row with it has made way. */
  ghost predicate Published(s: Sys, s': Sys, id: TxnId, ts: Ts)
    requires id in s.txns && id in s.table
  {
    var x := s.txns[id];
    && s'.txns == s.txns - {id} && s'.table.Keys == s.table.Keys - {id}
    && s'.rows.Keys == s.rows.Keys && s'.past.Keys == s.past.Keys
    && x.gathered.greatestWrite < ts && x.gathered.greatestRead < ts && s.table[id].lower <= ts < s.table[id].upper
    && (forall y :: y in s'.table ==> Narrows(s.table, s'.table, y))
    && (forall k :: k in s.rows ==>
          s'.rows[k] == if k in x.accesses then CommittedRow(s.rows[k], id, x.accesses[k], ts) else s.rows[k])
    && (forall k :: k in s.past ==>
          s'.past[k] == if k in x.accesses then Recorded(s.past[k], id, x.gathered, x.accesses[k], ts) else s.past[k])
    && (forall k :: k in x.accesses && k in s.rows ==> MadeWay(s.rows[k], s'.table, x.gathered, x.accesses[k], ts))
  }

  ghost predicate Narrows(t: Table, t': Table, y: TxnId) {
    y in t && y in t' && t'[y].state == RUNNING && t[y].lower <= t'[y].lower && t'[y].upper <= t[y].upper
  }

  ghost predicate MadeWay(r: RowState, t': Table, g: Gathered, a: Access, ts: Ts) {
    if a.kind == RD
    then forall y :: y in t' && y in r.uncommittedWrites ==> ts < t'[y].lower
    else
      && (forall y :: y in t' && y in r.uncommittedReads ==> t'[y].upper < ts)
      && (forall y :: y in t' && y in r.uncommittedWrites ==>
            if y in g.uncommittedWritesY then ts < t'[y].lower else t'[y].upper < ts)
  }

  lemma SeparatedAndForwarded(r: RowState, t0: Table, t: Table, t': Table, id: TxnId, g: Gathered, a: Access, ts: Ts)
    requires Separated(t0, t, id, g) && t[id].lower == ts && t0.Keys == t.Keys
    requires forall y :: y in t0 ==> t0[y].state == RUNNING
    requires Narrowed(t, t') && Forwarded(r, t, t', id, g, a, ts)
    ensures MadeWay(r, t' - {id}, g, a, ts)
  {
  }

  /** The table as `validate` leaves it. */
  ghost predicate Passed(s: Sys, t: Table, id: TxnId, ts: Ts) {
    && id in s.txns && Narrowed(s.table, t) && Separated(s.table, t, id, s.txns[id].gathered) && t[id].lower == ts
    && forall y :: y in s.table && y != id ==> t[y].state == RUNNING
  }

  function CommitFrom(s: Sys, t: Table, id: TxnId, ts: Ts): Sys
    requires id in s.txns
  {
    CommitAll(s.(table := SetState(t, id, COMMITTED)), id, s.txns[id], s.txns[id].order, ts)
  }

  lemma OwnRowsReady(s: Sys, id: TxnId)
    requires Consistent(s) && id in s.txns
    ensures var x := s.txns[id];
            && Unique(x.order)
            && forall k :: k in x.order ==>
                 k in x.accesses && k in s.rows && (x.accesses[k].kind == RD ==> id !in s.rows[k].uncommittedWrites)
  {
    var x := s.txns[id];
    assert WellFormed(s, id, x);
    forall k | k in x.order ensures x.accesses[k].kind == RD ==> id !in s.rows[k].uncommittedWrites {
      assert Lists(s, k, id);
    }
  }

  lemma CommitFromTable(s: Sys, t: Table, id: TxnId, ts: Ts)
    requires Consistent(s) && Passed(s, t, id, ts)
    ensures var t1, t' := SetState(t, id, COMMITTED), CommitFrom(s, t, id, ts).table;
            && Narrowed(t1, t') && SameStates(t1, t')
            && forall k :: k in s.txns[id].order ==>
                 Forwarded(s.rows[k], t1, t', id, s.txns[id].gathered, s.txns[id].accesses[k], ts)
  {
    OwnRowsReady(s, id);
    CommitAllTable(s.(table := SetState(t, id, COMMITTED)), id, s.txns[id], s.txns[id].order, ts);
  }

  lemma CommitMakesWay(s: Sys, t: Table, id: TxnId, ts: Ts)
    requires Consistent(s) && Passed(s, t, id, ts)
    ensures var t' := CommitFrom(s, t, id, ts).table;
            && Narrowed(t, t') && SameStates(SetState(t, id, COMMITTED), t')
            && forall k :: k in s.txns[id].accesses && k in s.rows ==>
                 MadeWay(s.rows[k], t' - {id}, s.txns[id].gathered, s.txns[id].accesses[k], ts)
  {
    var x := s.txns[id];
    CommitFromTable(s, t, id, ts);
    OwnRowsReady(s, id);
    var t' := CommitFrom(s, t, id, ts).table;
    NarrowedFromState(t, id, t');
    assert WellFormed(s, id, x);
    forall k | k in x.accesses && k in s.rows ensures MadeWay(s.rows[k], t' - {id}, x.gathered, x.accesses[k], ts) {
      assert k in x.order;
      RowMadeWay(s, t, t', id, s.rows[k], x.accesses[k], ts);
    }
  }

  lemma NarrowedFromState(t: Table, id: TxnId, t': Table)
    requires id in t && Narrowed(SetState(t, id, COMMITTED), t')
    ensures Narrowed(t, t')
  {
  }

  lemma RowMadeWay(s: Sys, t: Table, t': Table, id: TxnId, r: RowState, a: Access, ts: Ts)
    requires Passed(s, t, id, ts) && Narrowed(t, t') && (forall y :: y in s.table ==> s.table[y].state == RUNNING)
    requires Forwarded(r, SetState(t, id, COMMITTED), t', id, s.txns[id].gathered, a, ts)
    ensures MadeWay(r, t' - {id}, s.txns[id].gathered, a, ts)
  {
    ForwardedFrom(r, t, SetState(t, id, COMMITTED), t', id, s.txns[id].gathered, a, ts);
    SeparatedAndForwarded(r, s.table, t, t', id, s.txns[id].gathered, a, ts);
  }

  lemma CommitPublishes(s: Sys, t: Table, id: TxnId, ts: Ts)
    requires Consistent(s) && Passed(s, t, id, ts)
    ensures Published(s, Release(CommitFrom(s, t, id, ts), id), id, ts)
  {
    var x := s.txns[id];
    OwnRowsReady(s, id);
    assert WellFormed(s, id, x);
    CommitAllRows(s.(table := SetState(t, id, COMMITTED)), id, x, x.order, ts);
    CommitMakesWay(s, t, id, ts);
    var s' := Release(CommitFrom(s, t, id, ts), id);
    forall y | y in s'.table ensures Narrows(s.table, s'.table, y) {}
  }

  lemma CommitWithin(s: Sys, t: Table, id: TxnId, ts: Ts, top: Ts)
    requires Consistent(s) && Passed(s, t, id, ts) && Within(t, top) && ts < top < UINT64_MAX
    ensures Within(Release(CommitFrom(s, t, id, ts), id).table, top)
  {
    OwnRowsReady(s, id);
    CommitAllWithin(s.(table := SetState(t, id, COMMITTED)), id, s.txns[id], s.txns[id].order, ts, top);
  }

  lemma FinishPublishes(s: Sys, id: TxnId, top: Ts)
    requires Inv(s, top) && top <= UINT64_MAX - 4 && id in s.txns
    requires Validate(s.table, id, s.txns[id].gathered).rc == RCOK
    ensures var ts := Lower(Validate(s.table, id, s.txns[id].gathered).table, id);
            Published(s, FinishTxn(s, id), id, ts) && ts <= top + 1 && Within(FinishTxn(s, id).table, top + 2)
  {
    var x := s.txns[id];
    assert WellFormed(s, id, x);
    ValidateMeans(s.table, id, x.gathered);
    ValidateStaysWithin(s.table, id, x.gathered, top);
    var t := Validate(s.table, id, x.gathered).table;
    var ts := t[id].lower;
    CommitPublishes(s, t, id, ts);
    CommitWithin(s, t, id, ts, top + 2);
  }

  lemma PublishedPast(r: RowState, p: Past, id: TxnId, g: Gathered, e: Entry, a: Access, ts: Ts)
    requires Ordered(p) && Summed(r, p) && Fits(p, id, g, e, a)
    requires g.greatestWrite < ts && g.greatestRead < ts && e.lower <= ts < e.upper
    ensures Ordered(Recorded(p, id, g, a, ts)) && Summed(CommittedRow(r, id, a, ts), Recorded(p, id, g, a, ts))
  {
  }

  lemma PublishedWrites(p: Past, id: TxnId, g: Gathered, e: Entry, a: Access, ts: Ts)
    requires WritesOrdered(p) && Fits(p, id, g, e, a) && g.greatestWrite < ts && e.lower <= ts < e.upper
    ensures WritesOrdered(Recorded(p, id, g, a, ts))
  {
  }

  lemma PublishedAttains(r: RowState, p: Past, id: TxnId, g: Gathered, a: Access, ts: Ts)
    requires Attained(r, p)
    ensures Attained(CommittedRow(r, id, a, ts), Recorded(p, id, g, a, ts))
  {
    var p' := Recorded(p, id, g, a, ts);
    if a.kind == RD {
      assert p'.readings[|p.readings|].ts == ts;
      if r.lastRead != 0 {
        var i :| 0 <= i < |p.readings| && p.readings[i].ts == r.lastRead;
        assert p'.readings[i].ts == r.lastRead;
      }
    } else {
      assert p'.writes[|p.writes|].ts == ts;
      if r.lastWrite != 0 {
        var j :| 0 <= j < |p.writes| && p.writes[j].ts == r.lastWrite;
        assert p'.writes[j].ts == r.lastWrite;
      }
    }
  }

  /** A live transaction `y` still fits after `id` has committed on the row. */
  lemma PublishedFits(
    p: Past, y: TxnId, g: Gathered, e: Entry, e': Entry, b: Access, id: TxnId, gx: Gathered, a: Access, ts: Ts)
    requires Fits(p, y, g, e, b) && e.lower <= e'.lower && e'.upper <= e.upper
    requires a.kind == RD && b.kind == WR ==> ts < e'.lower
    requires a.kind == WR && b.kind == RD ==> e'.upper < ts
    requires a.kind == WR && b.kind == WR ==> if y in gx.uncommittedWritesY then ts < e'.lower else e'.upper < ts
    ensures Fits(Recorded(p, id, gx, a, ts), y, g, e', b)
  {
  }

  lemma PublishedKeepsFit(s: Sys, s': Sys, id: TxnId, ts: Ts, y: TxnId, k: Key)
    requires id in s.txns && id in s.table && Published(s, s', id, ts) && FitsAt(s, y, k)
    requires s.rows.Keys == s.past.Keys && Lists(s, k, y)
    ensures FitsAt(s', y, k)
  {
    if y in s'.txns && y in s'.table && k in s'.txns[y].accesses && k in s'.past {
      assert Narrows(s.table, s'.table, y);
      var x, b := s.txns[id], s.txns[y].accesses[k];
      if k in x.accesses {
        assert MadeWay(s.rows[k], s'.table, x.gathered, x.accesses[k], ts);
        PublishedFits(s.past[k], y, s.txns[y].gathered, s.table[y], s'.table[y], b, id, x.gathered, x.accesses[k], ts);
      }
    }
  }

  lemma PublishedKeepsConsistent(s: Sys, s': Sys, id: TxnId, ts: Ts)
    requires id in s.txns && id in s.table && Published(s, s', id, ts) && Consistent(s)
    ensures Consistent(s')
  {
    forall k | k in s.rows ensures Left(s.rows[k], s'.rows[k], id) {
      assert Lists(s, k, id);
      if k in s.txns[id].accesses { CommittedRowLeft(s, id, k, ts); }
    }
    LeavingKeepsConsistent(s, s', id);
  }

  lemma PublishedKeepsPast(s: Sys, s': Sys, id: TxnId, ts: Ts)
    requires id in s.txns && id in s.table && Published(s, s', id, ts) && Consistent(s) && PastOk(s)
    requires forall k :: FitsAt(s, id, k)
    ensures PastOk(s')
  {
    var x := s.txns[id];
    forall k | k in s'.past && k in s'.rows
      ensures Ordered(s'.past[k]) && WritesOrdered(s'.past[k])
      ensures Summed(s'.rows[k], s'.past[k]) && Attained(s'.rows[k], s'.past[k])
    {
      if k in x.accesses {
        assert FitsAt(s, id, k);
        PublishedPast(s.rows[k], s.past[k], id, x.gathered, s.table[id], x.accesses[k], ts);
        PublishedWrites(s.past[k], id, x.gathered, s.table[id], x.accesses[k], ts);
        PublishedAttains(s.rows[k], s.past[k], id, x.gathered, x.accesses[k], ts);
      }
    }
  }

  lemma FinishKeepsInv(s: Sys, id: TxnId, top: Ts)
    requires Inv(s, top) && top <= UINT64_MAX - 4 && id in s.txns
    ensures Inv(FinishTxn(s, id), top + 2)
  {
    var x := s.txns[id];
    var v := Validate(s.table, id, x.gathered);
    assert WellFormed(s, id, x);
    if v.rc == RCOK {
      FinishPublishes(s, id, top);
      PublishedKeepsInv(s, FinishTxn(s, id), id, Lower(v.table, id), top);
    } else {
      ValidateMeans(s.table, id, x.gathered);
      AbortWithdraws(s, v.table, id);
      WithdrawnKeepsInv(s, FinishTxn(s, id), id, top);
      BoundGrows(FinishTxn(s, id), top);
    }
  }

  lemma PublishedKeepsInv(s: Sys, s': Sys, id: TxnId, ts: Ts, top: Ts)
    requires Inv(s, top) && top <= UINT64_MAX - 4 && id in s.txns && id in s.table && Published(s, s', id, ts)
    requires ts <= top + 1 && Within(s'.table, top + 2)
    ensures Inv(s', top + 2)
  {
    PublishedKeepsConsistent(s, s', id, ts);
    PublishedKeepsPast(s, s', id, ts);
    PublishedKeepsBounds(s, s', id, ts, top);
    forall y, k ensures FitsAt(s', y, k) {
      assert Lists(s, k, y) && FitsAt(s, y, k);
      PublishedKeepsFit(s, s', id, ts, y, k);
    }
  }

  lemma PublishedKeepsBounds(s: Sys, s': Sys, id: TxnId, ts: Ts, top: Ts)
    requires Bounded(s, top) && top <= UINT64_MAX - 4 && id in s.txns && id in s.table && Published(s, s', id, ts)
    requires ts <= top + 1 && Within(s'.table, top + 2)
    ensures Bounded(s', top + 2)
  {
  }

  lemma BoundGrows(s: Sys, top: Ts)
    requires Inv(s, top) && top <= UINT64_MAX - 2
    ensures Inv(s, top + 2)
  {
  }

  /** Only an attempt to commit moves timestamps. */
  function Attempts(run: seq<Action>): nat {
    if run == [] then 0 else (if run[0].Finish? then 1 else 0) + Attempts(run[1..])
  }

  lemma StepKeepsInv(s: Sys, a: Action, top: Ts)
    requires Inv(s, top) && Allowed(s, a) && (a.Finish? ==> top <= UINT64_MAX - 4)
    ensures Inv(Step(s, a), if a.Finish? then top + 2 else top)
  {
    match a
    case Begin(id) => BeginKeepsInv(s, id, top);
    case Touch(id, key, kind, data) => TouchKeepsInv(s, id, key, kind, data, top);
    case Finish(id) => FinishKeepsInv(s, id, top);
    case GiveUp(id) =>
      AbortWithdraws(s, s.table, id);
      WithdrawnKeepsInv(s, Step(s, a), id, top);
  }

  lemma {:induction false} RunKeepsInv(s: Sys, run: seq<Action>, top: Ts)
    requires Inv(s, top) && AllowedRun(s, run) && top + 2 * Attempts(run) <= UINT64_MAX - 2
    ensures Inv(Run(s, run), top + 2 * Attempts(run))
    decreases |run|
  {
    if run != [] {
      StepKeepsInv(s, run[0], top);
      RunKeepsInv(Step(s, run[0]), run[1..], if run[0].Finish? then top + 2 else top);
    }
  }

  /** A row's two timestamps are the greatest of its committed reads and writes, or zero where there is none. */
  lemma RowTimestampsAreGreatest(rows: map<Key, Row>, run: seq<Action>, k: Key)
    requires AllowedRun(Start(rows), run) && 2 * Attempts(run) <= UINT64_MAX - 2 && k in Run(Start(rows), run).past
    ensures var s := Run(Start(rows), run);
            k in s.rows && Summed(s.rows[k], s.past[k]) && Attained(s.rows[k], s.past[k])
  {
    ReachableInv(rows, run);
  }

  lemma StartIsOk(rows: map<Key, Row>)
    ensures Inv(Start(rows), 0)
  {
  }

  lemma ReachableInv(rows: map<Key, Row>, run: seq<Action>)
    requires AllowedRun(Start(rows), run) && 2 * Attempts(run) <= UINT64_MAX - 2
    ensures Inv(Run(Start(rows), run), 2 * Attempts(run))
  {
    StartIsOk(rows);
    RunKeepsInv(Start(rows), run, 0);
  }

  /**
   * Read-write order. After any run whose attempts to commit cannot exhaust 64-bit timestamps, on every row, a
   * committed read has a smaller timestamp than a committed write if and only if it read the row before that write was
   * applied, and never the same.
   */
  lemma ReadWriteOrder(rows: map<Key, Row>, run: seq<Action>, k: Key, i: nat, j: nat)
    requires AllowedRun(Start(rows), run) && 2 * Attempts(run) <= UINT64_MAX - 2
    requires var s := Run(Start(rows), run);
             k in s.past && i < |s.past[k].readings| && j < |s.past[k].writes|
    ensures var p := Run(Start(rows), run).past[k];
            && (p.readings[i].ts < p.writes[j].ts <==> p.readings[i].mark <= j)
            && p.readings[i].ts != p.writes[j].ts
  {
    ReachableInv(rows, run);
    var s := Run(Start(rows), run);
    assert k in s.rows && Ordered(s.past[k]);
  }

  /**
   * Write-write order, and where it fails. After any such run, of two writes on a row the one applied later has the
   * greater timestamp if and only if it was announced after the earlier one had been committed, or the earlier one's
   * transaction had found it announced before; and never the same.
   */
  lemma WriteWriteOrderIff(rows: map<Key, Row>, run: seq<Action>, k: Key, i: nat, j: nat)
    requires AllowedRun(Start(rows), run) && 2 * Attempts(run) <= UINT64_MAX - 2
    requires var s := Run(Start(rows), run); k in s.past && i < j < |s.past[k].writes|
    ensures var p := Run(Start(rows), run).past[k];
            && (p.writes[i].ts < p.writes[j].ts <==> Follows(p.writes[i], i, p.writes[j]))
            && p.writes[i].ts != p.writes[j].ts
  {
    ReachableInv(rows, run);
    var s := Run(Start(rows), run);
    assert k in s.rows && WritesOrdered(s.past[k]);
  }
}
