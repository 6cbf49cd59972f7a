/**
 * Whole runs of one basic timestamp-ordering row under the discipline of `row_t::get_row` and `row_t::return_row`:
 * the cached minima stay exact, no write is ever buffered, writes are applied in timestamp order, and every read
 * returns the greatest write below it among all the writes the run ever applies.
 */
module TsOrder {
  import opened Types
  import opened History
  import opened Queues
  import opened TsSpec

  datatype World = World(
    row: State,
    log: seq<Entry<Row>>,    // the writes whose request was accepted, oldest call first
    answers: seq<Answer>)    // every answer given, oldest call first

  function Start(init: Row): World {
    World(Fresh(init), [], [])
  }

  ghost predicate Unwritten(w: World, ts: Ts) {
    forall e :: e in w.log ==> e.ts != ts
  }

  ghost predicate HasRead(w: World, ts: Ts) {
    exists a :: a in w.answers && a.reader == ts
  }

  /**
   * Timestamps are positive and belong to one transaction. A transaction prewrites a row once, has its own read of
   * the row answered before it writes, and neither writes nor cancels while that read is buffered.
   */
  ghost predicate Admissible(w: World, req: Request) {
    && 0 < req.ts
    && match req.kind
       case Read => req.ts !in w.row.readReq && Unwritten(w, req.ts)
       case Prewrite => req.ts !in w.row.preReq && Unwritten(w, req.ts)
       case Write => req.ts in w.row.preReq && req.ts !in w.row.readReq && HasRead(w, req.ts)
       case Cancel => req.ts in w.row.preReq && req.ts !in w.row.readReq
  }

  function Step(w: World, req: Request): World {
    World(
      Access(w.row, req).state,
      if req.kind == Write then w.log + [Entry(req.ts, req.row)] else w.log,
      w.answers + Access(w.row, req).answers)
  }

  ghost predicate AdmissibleRun(w: World, reqs: seq<Request>)
    decreases |reqs|
  {
    reqs == [] || (Admissible(w, reqs[0]) && AdmissibleRun(Step(w, reqs[0]), reqs[1..]))
  }

  function Run(w: World, reqs: seq<Request>): World
    decreases |reqs|
  {
    if reqs == [] then w else Run(Step(w, reqs[0]), reqs[1..])
  }

  /** `row` is what the greatest write of the log below `ts` wrote, or the initial row when there is none. */
  ghost predicate LatestBelow(log: seq<Entry<Row>>, init: Row, ts: Ts, row: Row) {
    || (row == init && forall e :: e in log ==> e.ts >= ts)
    || exists e :: e in log && e.ts < ts && e.row == row && forall f :: f in log && f.ts < ts ==> f.ts <= e.ts
  }

  ghost predicate Ascending(log: seq<Entry<Row>>) {
    forall i, j :: 0 <= i < j < |log| ==> log[i].ts < log[j].ts
  }

  /** The cached minima are the true ones, no write is buffered, and every buffered read is above `min_pts`. */
  ghost predicate Exact(s: State) {
    && s.minPts == Least(s.preReq) && s.minRts == Least(s.readReq)
    && s.writeReq == [] && s.minWts == UINT64_MAX
    && (forall r :: r in s.readReq ==> s.minPts < r)
    && Distinct(s.preReq)
  }

  /** The row is the last write, and everything pending is younger. */
  ghost predicate Current(w: World, init: Row) {
    && Ascending(w.log)
    && (if w.log == [] then w.row.wts == 0 && w.row.base == init
        else w.row.wts == w.log[|w.log| - 1].ts && w.row.base == w.log[|w.log| - 1].row)
    && (forall p :: p in w.row.preReq ==> w.row.wts < p)
    && (forall r :: r in w.row.readReq ==> w.row.wts < r)
  }

  /** A given answer is final: no later write can land below its reader. */
  ghost predicate Final(w: World, init: Row, a: Answer) {
    && LatestBelow(w.log, init, a.reader, a.row)
    && a.reader <= w.row.rts
    && forall p :: p in w.row.preReq ==> a.reader <= p
  }

  ghost predicate Inv(w: World, init: Row) {
    Exact(w.row) && Current(w, init) && forall a :: a in w.answers ==> Final(w, init, a)
  }

  lemma LastIsGreatest(log: seq<Entry<Row>>)
    requires Ascending(log) && log != []
    ensures forall f :: f in log ==> f.ts <= log[|log| - 1].ts
  {
  }

  lemma BaseIsLatest(w: World, init: Row, ts: Ts)
    requires Current(w, init) && w.row.wts < ts
    ensures LatestBelow(w.log, init, ts, w.row.base)
  {
    if w.log != [] {
      LastIsGreatest(w.log);
      assert w.log[|w.log| - 1] in w.log;
    }
  }

  lemma WtsIsLogged(w: World, init: Row, ts: Ts)
    requires Current(w, init) && Unwritten(w, ts) && 0 < ts && w.row.wts <= ts
    ensures w.row.wts < ts
  {
    if w.log != [] {
      assert w.log[|w.log| - 1] in w.log;
    }
  }

  lemma ReadKeepsInv(w: World, init: Row, req: Request)
    requires Inv(w, init) && Admissible(w, req) && req.kind == Read
    ensures Inv(Step(w, req), init)
  {
    if w.row.wts <= req.ts {
      WtsIsLogged(w, init, req.ts);
      if req.ts > w.row.minPts {
        BufferedReadKeepsInv(w, init, req.ts);
      } else {
        BaseIsLatest(w, init, req.ts);
        AnsweredReadKeepsInv(w, init, req.ts);
      }
    }
  }

  lemma BufferedReadKeepsInv(w: World, init: Row, ts: Ts)
    requires Inv(w, init) && w.row.minPts < ts && w.row.wts < ts
    ensures Inv(w.(row := w.row.(readReq := [ts] + w.row.readReq, minRts := Min(ts, w.row.minRts))), init)
  {
    var w' := w.(row := w.row.(readReq := [ts] + w.row.readReq, minRts := Min(ts, w.row.minRts)));
    assert Exact(w'.row) && Current(w', init);
    assert forall a :: a in w'.answers ==> Final(w, init, a);
  }

  lemma AnsweredReadKeepsInv(w: World, init: Row, ts: Ts)
    requires Inv(w, init) && ts <= w.row.minPts && LatestBelow(w.log, init, ts, w.row.base)
    ensures Inv(w.(row := w.row.(rts := Max(w.row.rts, ts)), answers := w.answers + [Answer(ts, w.row.base)]), init)
  {
    var w' := w.(row := w.row.(rts := Max(w.row.rts, ts)), answers := w.answers + [Answer(ts, w.row.base)]);
    assert Exact(w'.row) && Current(w', init);
    forall a | a in w'.answers ensures Final(w', init, a) {
      assert a in w.answers ==> Final(w, init, a);
    }
  }

  lemma PrewriteKeepsInv(w: World, init: Row, req: Request)
    requires Inv(w, init) && Admissible(w, req) && req.kind == Prewrite
    ensures Inv(Step(w, req), init)
  {
    if w.row.rts <= req.ts && w.row.wts <= req.ts {
      WtsIsLogged(w, init, req.ts);
      PrewriteBuffersKeepsInv(w, init, req.ts);
    }
  }

  lemma PrewriteBuffersKeepsInv(w: World, init: Row, ts: Ts)
    requires Inv(w, init) && w.row.rts <= ts && w.row.wts < ts && ts !in w.row.preReq
    ensures Inv(w.(row := w.row.(preReq := [ts] + w.row.preReq, minPts := Min(ts, w.row.minPts))), init)
  {
    var w' := w.(row := w.row.(preReq := [ts] + w.row.preReq, minPts := Min(ts, w.row.minPts)));
    assert Exact(w'.row) && Current(w', init);
    forall a | a in w'.answers ensures Final(w', init, a) {
      assert Final(w, init, a);
    }
  }

  /** A state whose minima are exact except that a prewrite has just been taken out. */
  ghost predicate Settling(s: State, gone: Ts) {
    && s.minPts <= Least(s.preReq) && s.minPts <= gone && s.minRts == Least(s.readReq)
    && s.writeReq == [] && s.minWts == UINT64_MAX
    && (forall r :: r in s.readReq ==> s.minPts < r)
    && Distinct(s.preReq)
  }

  /** With no write buffered, `update_buffer` makes one effective pass and restores the minima. */
  lemma UpdateBufferIsOnePass(s: State, gone: Ts)
    requires Settling(s, gone)
    ensures var o := UpdateBuffer(s);
            && Exact(o.state)
            && o.answers == Copies(Ready(s.readReq, Least(s.preReq)), s.base)
            && o.state == s.(minPts := Least(s.preReq),
                             minRts := Least(Blocked(s.readReq, Least(s.preReq))),
                             readReq := Blocked(s.readReq, Least(s.preReq)),
                             rts := Greatest(Ready(s.readReq, Least(s.preReq)), s.rts))
  {
    var m := Least(s.preReq);
    if m <= s.minPts {
      NoneReady(s.readReq, m);
    } else if Ready(s.readReq, m) == [] {
      forall r | r in s.readReq ensures m < r {
        assert r in Ready(s.readReq, m) <==> r <= m;
      }
      NoneReady(s.readReq, m);
    }
  }

  lemma SettledKeepsInv(w: World, init: Row, gone: Ts)
    requires Settling(w.row, gone) && Current(w, init)
    requires forall a :: a in w.answers ==> Final(w, init, a)
    ensures Inv(w.(row := UpdateBuffer(w.row).state, answers := w.answers + UpdateBuffer(w.row).answers), init)
  {
    UpdateBufferIsOnePass(w.row, gone);
    var o := UpdateBuffer(w.row);
    var ready := Ready(w.row.readReq, Least(w.row.preReq));
    CopiesMembers(ready, w.row.base);
    GreatestBounds(ready, w.row.rts);
    var w' := w.(row := o.state, answers := w.answers + o.answers);
    forall a | a in o.answers ensures Final(w', init, a) {
      BaseIsLatest(w, init, a.reader);
    }
  }

  lemma CancelKeepsInv(w: World, init: Row, req: Request)
    requires Inv(w, init) && Admissible(w, req) && req.kind == Cancel
    ensures Inv(Step(w, req), init)
  {
    CancelSettles(w, init, req.ts);
    SettledKeepsInv(w.(row := w.row.(preReq := Remove(w.row.preReq, req.ts))), init, req.ts);
  }

  lemma CancelSettles(w: World, init: Row, ts: Ts)
    requires Inv(w, init) && ts in w.row.preReq
    ensures var w' := w.(row := w.row.(preReq := Remove(w.row.preReq, ts)));
            && Settling(w'.row, ts) && Current(w', init) && forall a :: a in w'.answers ==> Final(w', init, a)
  {
    RemoveDistinct(w.row.preReq, ts);
    var w' := w.(row := w.row.(preReq := Remove(w.row.preReq, ts)));
    assert forall p :: p in w'.row.preReq ==> p in w.row.preReq;
    forall a | a in w'.answers ensures Final(w', init, a) {
      assert Final(w, init, a);
    }
  }

  /** When a transaction writes, its own prewrite is the oldest one pending and every buffered read is younger. */
  lemma WriterIsOldest(w: World, init: Row, req: Request)
    requires Inv(w, init) && Admissible(w, req) && req.kind == Write
    ensures w.row.minPts == req.ts && (w.row.readReq == [] || req.ts < w.row.minRts) && w.row.wts < req.ts
    ensures forall p :: p in w.row.preReq ==> req.ts <= p
  {
    var a :| a in w.answers && a.reader == req.ts;
    assert Final(w, init, a);
  }

  ghost function Written(w: World, ts: Ts, row: Row): World {
    World(w.row.(base := row, wts := ts, preReq := Remove(w.row.preReq, ts)), w.log + [Entry(ts, row)], w.answers)
  }

  lemma WrittenKeepsFinal(w: World, init: Row, ts: Ts, row: Row, a: Answer)
    requires Final(w, init, a) && a.reader <= ts
    ensures Final(Written(w, ts, row), init, a)
  {
    var log' := w.log + [Entry(ts, row)];
    if !(a.row == init && forall e :: e in w.log ==> e.ts >= a.reader) {
      var e :| && e in w.log && e.ts < a.reader && e.row == a.row
               && forall f :: f in w.log && f.ts < a.reader ==> f.ts <= e.ts;
      assert e in log';
    }
  }

  lemma WrittenIsCurrent(w: World, init: Row, req: Request)
    requires Inv(w, init) && Admissible(w, req) && req.kind == Write
    ensures Settling(Written(w, req.ts, req.row).row, req.ts) && Current(Written(w, req.ts, req.row), init)
    ensures Access(w.row, req) == UpdateBuffer(Written(w, req.ts, req.row).row)
  {
    WriterIsOldest(w, init, req);
    RemoveDistinct(w.row.preReq, req.ts);
    WrittenIsLast(w, init, req.ts, req.row);
    var s, s' := w.row, Written(w, req.ts, req.row).row;
    assert forall p :: p in s'.preReq ==> s.minPts <= p;
    assert s.minPts <= Least(s'.preReq);
  }

  lemma WrittenIsLast(w: World, init: Row, ts: Ts, row: Row)
    requires Current(w, init) && Distinct(w.row.preReq) && ts in w.row.preReq && w.row.wts < ts
    requires forall p :: p in w.row.preReq ==> ts <= p
    requires forall r :: r in w.row.readReq ==> ts < r
    ensures Current(Written(w, ts, row), init)
  {
    RemoveDistinct(w.row.preReq, ts);
    if w.log != [] {
      LastIsGreatest(w.log);
    }
  }

  lemma WriteKeepsInv(w: World, init: Row, req: Request)
    requires Inv(w, init) && Admissible(w, req) && req.kind == Write
    ensures Inv(Step(w, req), init)
    ensures Access(w.row, req).state.base == req.row && Access(w.row, req).state.wts == req.ts
  {
    var w' := Written(w, req.ts, req.row);
    WriterIsOldest(w, init, req);
    WrittenIsCurrent(w, init, req);
    forall a | a in w.answers ensures Final(w', init, a) {
      assert Final(w, init, a);
      WrittenKeepsFinal(w, init, req.ts, req.row, a);
    }
    SettledKeepsInv(w', init, req.ts);
    UpdateBufferIsOnePass(w'.row, req.ts);
  }

  lemma StepKeepsInv(w: World, init: Row, req: Request)
    requires Inv(w, init) && Admissible(w, req)
    ensures Inv(Step(w, req), init)
  {
    match req.kind
    case Read => ReadKeepsInv(w, init, req);
    case Prewrite => PrewriteKeepsInv(w, init, req);
    case Write => WriteKeepsInv(w, init, req);
    case Cancel => CancelKeepsInv(w, init, req);
  }

  lemma {:induction false} RunKeepsInv(w: World, init: Row, reqs: seq<Request>)
    requires Inv(w, init) && AdmissibleRun(w, reqs)
    ensures Inv(Run(w, reqs), init)
    decreases |reqs|
  {
    if reqs != [] {
      StepKeepsInv(w, init, reqs[0]);
      RunKeepsInv(Step(w, reqs[0]), init, reqs[1..]);
    }
  }

  /**
   * Serial order. After any admissible run the accepted writes have strictly increasing timestamps, the row holds the
   * last of them, and every read, immediate or buffered, was given the greatest write below it of the whole run.
   */
  lemma SerialOrder(init: Row, reqs: seq<Request>)
    requires AdmissibleRun(Start(init), reqs)
    ensures var w := Run(Start(init), reqs);
            && Ascending(w.log)
            && w.row.base == (if w.log == [] then init else w.log[|w.log| - 1].row)
            && forall a :: a in w.answers ==> LatestBelow(w.log, init, a.reader, a.row)
  {
    RunKeepsInv(Start(init), init, reqs);
  }

  /** No write is ever buffered and the cached minima are the true ones, with every buffered read above `min_pts`. */
  lemma MinimaExactAndNoWriteBuffered(init: Row, reqs: seq<Request>)
    requires AdmissibleRun(Start(init), reqs)
    ensures Exact(Run(Start(init), reqs).row)
  {
    RunKeepsInv(Start(init), init, reqs);
  }

  /** The next write of any run is applied at once, and the next read of a transaction that prewrote is not refused. */
  lemma WriterNeverRefused(init: Row, reqs: seq<Request>, req: Request)
    requires AdmissibleRun(Start(init), reqs) && Admissible(Run(Start(init), reqs), req)
    ensures var s := Run(Start(init), reqs).row;
            && (req.kind == Write ==> Access(s, req).state.base == req.row && Access(s, req).state.wts == req.ts)
            && (req.kind == Read && req.ts in s.preReq ==> Access(s, req).rc != Abort)
  {
    RunKeepsInv(Start(init), init, reqs);
    if req.kind == Write {
      WriteKeepsInv(Run(Start(init), reqs), init, req);
    }
  }
}
