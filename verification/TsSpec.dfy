/** One call of `Row_ts::access` (TS_TWR off) as a function on the row's state. */
module TsSpec {
  import opened Types
  import opened History
  import opened Queues

  /** R_REQ, P_REQ, W_REQ and XP_REQ. */
  datatype Kind = Read | Prewrite | Write | Cancel

  /** `row` is the argument of the call, `curRow` the row the transaction holds, which one branch buffers instead. */
  datatype Request = Request(kind: Kind, ts: Ts, row: Row, curRow: Row)

  /** Queues are written head first; the three minima are the cached ones. `base` is the contents of `_row`. */
  datatype State = State(
    wts: Ts, rts: Ts,
    minWts: Ts, minRts: Ts, minPts: Ts,
    readReq: seq<Ts>, writeReq: seq<Entry<Row>>, preReq: seq<Ts>,
    base: Row)

  /** The copy of the row a reader is given. */
  datatype Answer = Answer(reader: Ts, row: Row)

  datatype Outcome = Outcome(state: State, rc: RC, answers: seq<Answer>)

  function Fresh(row: Row): State {
    State(0, 0, UINT64_MAX, UINT64_MAX, UINT64_MAX, [], [], [], row)
  }

  function Min(a: Ts, b: Ts): Ts {
    if a < b then a else b
  }

  function Greatest(q: seq<Ts>, floor: Ts): Ts
    decreases |q|
  {
    if q == [] then floor else Greatest(q[1..], Max(floor, q[0]))
  }

  lemma {:induction false} GreatestBounds(q: seq<Ts>, floor: Ts)
    ensures floor <= Greatest(q, floor) && forall t :: t in q ==> t <= Greatest(q, floor)
    decreases |q|
  {
    if q != [] {
      GreatestBounds(q[1..], Max(floor, q[0]));
      assert q == [q[0]] + q[1..];
    }
  }

  function Copies(readers: seq<Ts>, row: Row): seq<Answer> {
    if readers == [] then [] else [Answer(readers[0], row)] + Copies(readers[1..], row)
  }

  lemma {:induction false} CopiesMembers(readers: seq<Ts>, row: Row)
    ensures forall a :: a in Copies(readers, row) <==> a.reader in readers && a.row == row
  {
    if readers != [] {
      CopiesMembers(readers[1..], row);
      assert readers == [readers[0]] + readers[1..];
    }
  }

  function ReadyWrites(q: seq<Entry<Row>>, m: Ts): seq<Entry<Row>> {
    if q == [] then [] else ReadyWrites(q[1..], m) + if q[0].ts <= m then [q[0]] else []
  }

  function BlockedWrites(q: seq<Entry<Row>>, m: Ts): (r: seq<Entry<Row>>)
    ensures |r| + |ReadyWrites(q, m)| == |q|
  {
    if q == [] then [] else (if q[0].ts <= m then [] else [q[0]]) + BlockedWrites(q[1..], m)
  }

  /** `young_ts`, before and after a request was picked. */
  function YoungTs(young: Option<Entry<Row>>): Ts {
    if young.Some? then young.value.ts else UINT64_MAX
  }

  /** The request that is replayed, the others being dropped; none if all have the largest timestamp there is. */
  function Oldest(q: seq<Entry<Row>>): Option<Entry<Row>> {
    if q == [] then None
    else
      var rest := Oldest(q[..|q| - 1]);
      if q[|q| - 1].ts < YoungTs(rest) then Some(q[|q| - 1]) else rest
  }

  /** It has the smallest timestamp. */
  lemma {:induction false} OldestIsLeast(q: seq<Entry<Row>>)
    ensures Oldest(q).Some? ==> Oldest(q).value in q && Oldest(q).value.ts < UINT64_MAX
    ensures forall e :: e in q ==> YoungTs(Oldest(q)) <= e.ts
  {
    if q != [] {
      OldestIsLeast(q[..|q| - 1]);
      assert q == q[..|q| - 1] + [q[|q| - 1]];
    }
  }

  function RemoveAll(q: seq<Ts>, writes: seq<Entry<Row>>): seq<Ts>
    decreases |writes|
  {
    if writes == [] then q else RemoveAll(Remove(q, writes[0].ts), writes[1..])
  }

  /** The first half of one pass of `update_buffer`: read out everything the new `min_pts` allows. */
  function ServeReads(s: State): Outcome {
    var m := Least(s.preReq);
    var ready := Ready(s.readReq, m);
    Outcome(
      s.(minPts := m, readReq := Blocked(s.readReq, m), rts := Greatest(ready, s.rts)),
      RCOK,
      Copies(ready, s.base))
  }

  /** The second half: replay a buffered write. */
  function ReplayWrites(s: State): State {
    var ready := ReadyWrites(s.writeReq, s.minRts);
    if ready == [] then s
    else
      s.(writeReq := BlockedWrites(s.writeReq, s.minRts),
         preReq := RemoveAll(s.preReq, ready),
         base := if Oldest(ready).Some? then Oldest(ready).value.row else s.base,
         wts := if Oldest(ready).Some? then Max(s.wts, Oldest(ready).value.ts) else s.wts)
  }

  /** `update_buffer`, every pass. */
  function UpdateBuffer(s: State): Outcome
    decreases |s.writeReq|
  {
    if Least(s.preReq) <= s.minPts then Outcome(s, RCOK, [])
    else
      var o := ServeReads(s);
      if o.answers == [] || Least(o.state.readReq) <= o.state.minRts then o
      else
        var s1 := o.state.(minRts := Least(o.state.readReq));
        if ReadyWrites(s1.writeReq, s1.minRts) == [] then o.(state := s1)
        else
          var rest := UpdateBuffer(ReplayWrites(s1));
          rest.(answers := o.answers + rest.answers)
  }

  function Access(s: State, req: Request): Outcome {
    match req.kind
    case Read =>
      if req.ts < s.wts then Outcome(s, Abort, [])
      else if req.ts > s.minPts then
        Outcome(s.(readReq := [req.ts] + s.readReq, minRts := Min(req.ts, s.minRts)), WAIT, [])
      else Outcome(s.(rts := Max(s.rts, req.ts)), RCOK, [Answer(req.ts, s.base)])
    case Prewrite =>
      if req.ts < s.rts || req.ts < s.wts then Outcome(s, Abort, [])
      else Outcome(s.(preReq := [req.ts] + s.preReq, minPts := Min(req.ts, s.minPts)), RCOK, [])
    case Write =>
      if req.ts > s.minPts || req.ts > s.minRts then
        var row := if req.ts > s.minPts then req.row else req.curRow;
        Outcome(s.(writeReq := [Entry(req.ts, row)] + s.writeReq, minWts := Min(req.ts, s.minWts)), RCOK, [])
      else
        UpdateBuffer(s.(base := req.row, wts := Max(s.wts, req.ts), preReq := Remove(s.preReq, req.ts)))
    case Cancel =>
      UpdateBuffer(s.(preReq := Remove(s.preReq, req.ts)))
  }
}
