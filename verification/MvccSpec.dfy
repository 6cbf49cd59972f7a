/** One call of `Row_mvcc::access` as a function on the row's state. */
module MvccSpec {
  import opened Types
  import opened History
  import opened Queues

  /** R_REQ, P_REQ, W_REQ and XP_REQ. */
  datatype Kind = Read | Prewrite | Write | Cancel

  /**
   * A request by the transaction whose timestamp is `ts`. `row` is the new version of a Write;
   * `minTs` is what `glob_manager.get_min_ts` would return during the call.
   */
  datatype Request = Request(kind: Kind, ts: Ts, row: Row, minTs: Ts)

  /** g_max_read_req, g_max_pre_req and g_his_recycle_len. */
  datatype Limits = Limits(maxReadReq: nat, maxPreReq: nat, recycleLen: nat)

  /** Every list is written head first. `base` is the contents of `_row`. */
  datatype State = State(
    readHis: seq<Entry<()>>,
    writeHis: seq<Entry<Row>>,
    readReq: seq<Ts>,
    preReq: seq<Ts>,
    base: Row)

  /** What a reader is handed: a version, or the base row when `version` is None. */
  datatype Answer = Answer(reader: Ts, version: Option<Ts>, row: Row)

  datatype Outcome = Outcome(state: State, rc: RC, answers: seq<Answer>)

  /** A read at `hi` would have to see a write at `lo` that is still pending. */
  ghost predicate Separates(s: State, lo: Ts, hi: Ts) {
    lo < hi && !Covered(s.writeHis, lo, hi)
  }

  ghost predicate ReadConflict(s: State, ts: Ts) {
    exists p :: p in s.preReq && 0 < p && Separates(s, p, ts)
  }

  ghost predicate PrewriteConflict(s: State, ts: Ts) {
    exists i :: 0 <= i < |s.readHis| && Separates(s, ts, s.readHis[i].ts)
  }

  function Lookup(s: State, ts: Ts): Answer {
    match Latest(s.writeHis, ts)
    case None => Answer(ts, None, s.base)
    case Some(e) => Answer(ts, Some(e.ts), e.row)
  }

  function RecordReads(h: seq<Entry<()>>, readers: seq<Ts>): seq<Entry<()>>
    decreases |readers|
  {
    if readers == [] then h else RecordReads(Insert(h, Entry(readers[0], ())), readers[1..])
  }

  function Answers(s: State, readers: seq<Ts>): seq<Answer> {
    if readers == [] then [] else [Lookup(s, readers[0])] + Answers(s, readers[1..])
  }

  lemma AnswersFrame(s: State, s': State, readers: seq<Ts>)
    requires s.writeHis == s'.writeHis && s.base == s'.base
    ensures Answers(s, readers) == Answers(s', readers)
  {
  }

  /** `update_buffer`. */
  function WakeReaders(s: State): Outcome {
    var ready := Ready(s.readReq, Least(s.preReq));
    Outcome(
      s.(readReq := Blocked(s.readReq, Least(s.preReq)), readHis := RecordReads(s.readHis, ready)),
      RCOK,
      Answers(s, ready))
  }

  function RecycleReads(s: State, minTs: Ts): State {
    if s.readHis != [] && s.readHis[|s.readHis| - 1].ts < minTs
    then s.(readHis := s.readHis[..Keep(s.readHis, minTs)])
    else s
  }

  function RecycleWrites(s: State, minTs: Ts): State {
    var k := Keep(s.writeHis, minTs);
    if |s.writeHis| > 1 && s.writeHis[|s.writeHis| - 2].ts < minTs && k < |s.writeHis|
    then s.(writeHis := s.writeHis[..k], base := s.writeHis[k].row)
    else s
  }

  function Recycle(s: State, limits: Limits, minTs: Ts): State {
    if |s.writeHis| > limits.recycleLen || |s.readHis| > limits.recycleLen
    then RecycleWrites(RecycleReads(s, minTs), minTs)
    else s
  }

  /** `access` up to the history recycling. */
  ghost function Decide(s: State, req: Request, limits: Limits): Outcome {
    match req.kind
    case Read =>
      if ReadConflict(s, req.ts) then
        if |s.readReq| < limits.maxReadReq
        then Outcome(s.(readReq := [req.ts] + s.readReq), WAIT, [])
        else Outcome(s, Abort, [])
      else
        Outcome(s.(readHis := Insert(s.readHis, Entry(req.ts, ()))), RCOK, [Lookup(s, req.ts)])
    case Prewrite =>
      if PrewriteConflict(s, req.ts) || |s.preReq| >= limits.maxPreReq
      then Outcome(s, Abort, [])
      else Outcome(s.(preReq := [req.ts] + s.preReq), RCOK, [])
    case Write =>
      WakeReaders(s.(writeHis := Insert(s.writeHis, Entry(req.ts, req.row)), preReq := Remove(s.preReq, req.ts)))
    case Cancel =>
      WakeReaders(s.(preReq := Remove(s.preReq, req.ts)))
  }

  ghost function Access(s: State, req: Request, limits: Limits): Outcome {
    var o := Decide(s, req, limits);
    if o.rc == RCOK then o.(state := Recycle(o.state, limits, req.minTs)) else o
  }
}
