/** `Maat::validate`, `Maat::find_bound` and the operations of `Row_maat` (not the TPCC branch) as functions. */
module MaatSpec {
  import opened Types

  type TxnId = nat

  datatype TxnState = RUNNING | VALIDATED | COMMITTED | ABORTED

  datatype Entry = Entry(lower: Ts, upper: Ts, state: TxnState)

  /** `TimeTable`: what it answers for a key depends only on the entry the key has, if any. */
  type Table = map<TxnId, Entry>

  function Lower(t: Table, id: TxnId): Ts { if id in t then t[id].lower else 0 }

  function Upper(t: Table, id: TxnId): Ts { if id in t then t[id].upper else UINT64_MAX }

  function StateOf(t: Table, id: TxnId): TxnState { if id in t then t[id].state else ABORTED }

  function SetLower(t: Table, id: TxnId, v: Ts): Table { if id in t then t[id := t[id].(lower := v)] else t }

  function SetUpper(t: Table, id: TxnId, v: Ts): Table { if id in t then t[id := t[id].(upper := v)] else t }

  function SetState(t: Table, id: TxnId, v: TxnState): Table { if id in t then t[id := t[id].(state := v)] else t }

  predicate Settled(s: TxnState) { s == VALIDATED || s == COMMITTED }

  /** `std::set<uint64_t>` as the ascending sequence its iterators walk. */
  function Insert(q: seq<TxnId>, x: TxnId): seq<TxnId> {
    if q == [] || x < q[0] then [x] + q else if x == q[0] then q else [q[0]] + Insert(q[1..], x)
  }

  function InsertAll(q: seq<TxnId>, xs: seq<TxnId>): seq<TxnId>
    decreases |xs|
  {
    if xs == [] then q else InsertAll(Insert(q, xs[0]), xs[1..])
  }

  function Erase(q: seq<TxnId>, x: TxnId): seq<TxnId> {
    if q == [] then [] else if q[0] == x then Erase(q[1..], x) else [q[0]] + Erase(q[1..], x)
  }

  lemma {:induction false} InsertMembers(q: seq<TxnId>, x: TxnId)
    ensures forall y :: y in Insert(q, x) <==> y == x || y in q
  {
    if q != [] && x > q[0] {
      InsertMembers(q[1..], x);
      assert q == [q[0]] + q[1..];
    }
  }

  lemma {:induction false} InsertAllMembers(q: seq<TxnId>, xs: seq<TxnId>)
    ensures forall y :: y in InsertAll(q, xs) <==> y in q || y in xs
    decreases |xs|
  {
    if xs != [] {
      InsertMembers(q, xs[0]);
      InsertAllMembers(Insert(q, xs[0]), xs[1..]);
      assert xs == [xs[0]] + xs[1..];
    }
  }

  lemma {:induction false} EraseMembers(q: seq<TxnId>, x: TxnId)
    ensures forall y :: y in Erase(q, x) <==> y != x && y in q
  {
    if q != [] {
      EraseMembers(q[1..], x);
      assert q == [q[0]] + q[1..];
    }
  }

  /** What a transaction has gathered from the rows it touched. */
  datatype Gathered = Gathered(
    uncommittedWrites: seq<TxnId>,
    uncommittedWritesY: seq<TxnId>,
    uncommittedReads: seq<TxnId>,
    greatestWrite: Ts,
    greatestRead: Ts)

  /** One end of the interval being computed, and the running transactions that will have to give way. */
  datatype Scan = Scan(bound: Ts, ids: seq<TxnId>)

  /** Lower bound of uncommitted writes greater than the upper bound of the transaction. */
  function ScanWrite(t: Table, id: TxnId, acc: Scan): Scan {
    var low := Lower(t, id);
    if acc.bound < low then acc
    else if Settled(StateOf(t, id)) then acc.(bound := if low > 0 then low - 1 else low)
    else if StateOf(t, id) == RUNNING then acc.(ids := Insert(acc.ids, id))
    else acc
  }

  function ScanWrites(t: Table, ids: seq<TxnId>, acc: Scan): Scan
    decreases |ids|
  {
    if ids == [] then acc else ScanWrites(t, ids[1..], ScanWrite(t, ids[0], acc))
  }

  /** Upper bound of uncommitted reads less than the lower bound of the transaction. */
  function ScanRead(t: Table, id: TxnId, acc: Scan): Scan {
    var up := Upper(t, id);
    if acc.bound > up then acc
    else if Settled(StateOf(t, id)) then acc.(bound := if up < UINT64_MAX then up + 1 else up)
    else if StateOf(t, id) == RUNNING then acc.(ids := Insert(acc.ids, id))
    else acc
  }

  function ScanReads(t: Table, ids: seq<TxnId>, acc: Scan): Scan
    decreases |ids|
  {
    if ids == [] then acc else ScanReads(t, ids[1..], ScanRead(t, ids[0], acc))
  }

  /** Upper bound of settled earlier prewriters less than the lower bound of the transaction. */
  function ScanWriteY(t: Table, id: TxnId, acc: Scan): Scan {
    var up := Upper(t, id);
    if Settled(StateOf(t, id)) then
      if acc.bound <= up then acc.(bound := if up < UINT64_MAX then up + 1 else up) else acc
    else if StateOf(t, id) == RUNNING then acc.(ids := Insert(acc.ids, id))
    else acc
  }

  function ScanWritesY(t: Table, ids: seq<TxnId>, acc: Scan): Scan
    decreases |ids|
  {
    if ids == [] then acc else ScanWritesY(t, ids[1..], ScanWriteY(t, ids[0], acc))
  }

  /** Step over the running readers that fit below the upper bound. */
  function RaiseOnce(t: Table, id: TxnId, lower: Ts, upper: Ts): Ts {
    if lower < Upper(t, id) < upper - 1 then Upper(t, id) + 1 else lower
  }

  function RaiseLower(t: Table, before: seq<TxnId>, lower: Ts, upper: Ts): Ts
    decreases |before|
  {
    if before == [] then lower else RaiseLower(t, before[1..], RaiseOnce(t, before[0], lower, upper), upper)
  }

  function CapOnce(t: Table, id: TxnId, lower: Ts): Table {
    if Upper(t, id) >= lower then SetUpper(t, id, if lower > 0 then lower - 1 else lower) else t
  }

  function CapUppers(t: Table, before: seq<TxnId>, lower: Ts): Table
    decreases |before|
  {
    if before == [] then t else CapUppers(CapOnce(t, before[0], lower), before[1..], lower)
  }

  /** Subtraction and addition of `uint64_t`. */
  function Sub64(a: Ts, b: Ts): Ts { if a < b then a - b + UINT64_MAX + 1 else a - b }

  function Add64(a: Ts, b: Ts): Ts { if a + b > UINT64_MAX then a + b - UINT64_MAX - 1 else a + b }

  function TrimOnce(t: Table, id: TxnId, lower: Ts, upper: Ts): Ts {
    var low, up := Lower(t, id), Upper(t, id);
    var u := if up != UINT64_MAX && up > Add64(lower, 2) && up < upper then Sub64(up, 2) else upper;
    if low < u && low > Add64(lower, 1) then Sub64(low, 1) else u
  }

  function TrimUpper(t: Table, after: seq<TxnId>, lower: Ts, upper: Ts): Ts
    decreases |after|
  {
    if after == [] then upper else TrimUpper(t, after[1..], lower, TrimOnce(t, after[0], lower, upper))
  }

  function LiftOnce(t: Table, id: TxnId, upper: Ts): Table {
    if Lower(t, id) <= upper then SetLower(t, id, if upper < UINT64_MAX then upper + 1 else upper) else t
  }

  function LiftLowers(t: Table, after: seq<TxnId>, upper: Ts): Table
    decreases |after|
  {
    if after == [] then t else LiftLowers(LiftOnce(t, after[0], upper), after[1..], upper)
  }

  datatype Verdict = Verdict(rc: RC, table: Table)

  function Above(lower: Ts, seen: Ts): Ts {
    if lower <= seen then Add64(seen, 1) else lower
  }

  /** The scans of `validate`: the two bounds before the verdict, and who must come before and after. */
  datatype Bounds = Bounds(lower: Ts, upper: Ts, before: seq<TxnId>, after: seq<TxnId>)

  function Scans(t: Table, id: TxnId, g: Gathered): Bounds {
    var low0 := Above(Lower(t, id), g.greatestWrite);
    var w := ScanWrites(t, g.uncommittedWrites, Scan(Upper(t, id), []));
    var low1 := Above(low0, g.greatestRead);
    var r := ScanReads(t, g.uncommittedReads, Scan(low1, []));
    var y := ScanWritesY(t, g.uncommittedWritesY, Scan(r.bound, w.ids));
    Bounds(y.bound, w.bound, r.ids, y.ids)
  }

  /** What `validate` does once the interval is not empty. */
  function Settle(t: Table, id: TxnId, b: Bounds): Table {
    var t1 := SetState(t, id, VALIDATED);
    var lower := RaiseLower(t1, b.before, b.lower, b.upper);
    var t2 := CapUppers(t1, b.before, lower);
    var upper := TrimUpper(t2, b.after, lower, b.upper);
    var t3 := LiftLowers(t2, b.after, upper);
    SetUpper(SetLower(t3, id, lower), id, upper)
  }

  function Validate(t: Table, id: TxnId, g: Gathered): Verdict {
    var b := Scans(t, id, g);
    if b.lower >= b.upper then
      Verdict(Abort, SetUpper(SetLower(SetState(t, id, ABORTED), id, b.lower), id, b.upper))
    else
      Verdict(RCOK, Settle(t, id, b))
  }

  /** `find_bound`; `commitTs` is meaningful on RCOK. */
  datatype Bound = Bound(rc: RC, table: Table, commitTs: Ts)

  function FindBound(t: Table, id: TxnId): Bound {
    if Lower(t, id) >= Upper(t, id)
    then Bound(Abort, SetState(t, id, VALIDATED), 0)
    else Bound(RCOK, SetState(t, id, COMMITTED), Lower(t, id))
  }

  datatype AccessType = RD | WR

  datatype RowState = RowState(
    uncommittedReads: seq<TxnId>,
    uncommittedWrites: seq<TxnId>,
    lastRead: Ts,
    lastWrite: Ts,
    data: Row)

  datatype Touching = Touching(row: RowState, gathered: Gathered)

  function ReadRow(r: RowState, id: TxnId, g: Gathered): Touching {
    Touching(r.(uncommittedReads := Insert(r.uncommittedReads, id)),
          g.(uncommittedWrites := InsertAll(g.uncommittedWrites, r.uncommittedWrites),
             greatestWrite := Max(g.greatestWrite, r.lastWrite)))
  }

  function PrewriteRow(r: RowState, id: TxnId, g: Gathered): Touching {
    Touching(r.(uncommittedWrites := Insert(r.uncommittedWrites, id)),
          g.(uncommittedReads := InsertAll(g.uncommittedReads, r.uncommittedReads),
             uncommittedWritesY := InsertAll(g.uncommittedWritesY, r.uncommittedWrites),
             greatestRead := Max(g.greatestRead, r.lastRead),
             greatestWrite := Max(g.greatestWrite, r.lastWrite)))
  }

  function AbortRow(r: RowState, id: TxnId, kind: AccessType): RowState {
    if kind == RD then r.(uncommittedReads := Erase(r.uncommittedReads, id))
    else r.(uncommittedWrites := Erase(r.uncommittedWrites, id))
  }

  function PushOnce(t: Table, id: TxnId, seen: seq<TxnId>, ts: Ts): Table {
    if id !in seen && Lower(t, id) <= ts then SetLower(t, id, Add64(ts, 1)) else t
  }

  /** Forward validation: the writers not yet seen must come after the commit timestamp. */
  function PushAfter(t: Table, ids: seq<TxnId>, seen: seq<TxnId>, ts: Ts): Table
    decreases |ids|
  {
    if ids == [] then t else PushAfter(PushOnce(t, ids[0], seen, ts), ids[1..], seen, ts)
  }

  function PullOnce(t: Table, id: TxnId, seen: seq<TxnId>, ts: Ts): Table {
    if id !in seen && Upper(t, id) >= ts then SetUpper(t, id, Sub64(ts, 1)) else t
  }

  /** Forward validation: the transactions not yet seen must come before the bound. */
  function PullBefore(t: Table, ids: seq<TxnId>, seen: seq<TxnId>, ts: Ts): Table
    decreases |ids|
  {
    if ids == [] then t else PullBefore(PullOnce(t, ids[0], seen, ts), ids[1..], seen, ts)
  }

  datatype RowCommit = RowCommit(row: RowState, table: Table)

  function CommitRow(r: RowState, t: Table, id: TxnId, g: Gathered, kind: AccessType, ts: Ts, data: Row): RowCommit {
    if kind == RD then
      RowCommit(r.(lastRead := Max(r.lastRead, ts), uncommittedReads := Erase(r.uncommittedReads, id)),
                PushAfter(t, r.uncommittedWrites, g.uncommittedWrites, ts))
    else
      var writers := Erase(r.uncommittedWrites, id);
      var t1 := PullBefore(t, writers, g.uncommittedWritesY, ts);
      RowCommit(r.(lastWrite := Max(r.lastWrite, ts), uncommittedWrites := writers, data := data),
                PullBefore(t1, r.uncommittedReads, g.uncommittedReads, Lower(t, id)))
  }
}
