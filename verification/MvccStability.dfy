/**
 * Whole runs of one multi-version row. Whatever the interleaving of requests, and with history recycling on,
 * every read is answered with the latest write below it among all the writes the run ever installs,
 * and no recycling takes that version away from a reader that may still be active.
 */
module MvccStability {
  import opened Types
  import opened History
  import opened Queues
  import opened MvccSpec

  /** The row, plus what the run has done so far. */
  datatype World = World(
    row: State,
    floor: Ts,              // the greatest threshold history has been recycled with
    log: seq<Entry<Row>>,   // every write installed, oldest call first
    answers: seq<Answer>)   // every answer given, oldest call first

  function Start(init: Row): World {
    World(State([], [], [], [], init), 0, [], [])
  }

  ghost predicate Unwritten(w: World, ts: Ts) {
    forall e :: e in w.log ==> e.ts != ts
  }

  /**
   * What `row_t::get_row`, `row_t::return_row` and the timestamp manager guarantee of a request: timestamps are
   * positive and belong to one transaction, a transaction prewrites a row once before it writes or cancels, it
   * does neither while its read is buffered, and no active transaction is older than a recycling threshold.
   */
  ghost predicate Admissible(w: World, req: Request) {
    && 0 < req.ts && w.floor <= req.ts && req.minTs <= req.ts
    && (forall t :: t in w.row.readReq ==> req.minTs <= t)
    && (forall t :: t in w.row.preReq ==> req.minTs <= t)
    && match req.kind
       case Read => req.ts !in w.row.readReq && Unwritten(w, req.ts)
       case Prewrite => req.ts !in w.row.preReq && Unwritten(w, req.ts)
       case Write => req.ts in w.row.preReq && req.ts !in w.row.readReq
       case Cancel => req.ts in w.row.preReq && req.ts !in w.row.readReq
  }

  ghost predicate Recycles(o: Outcome, limits: Limits) {
    o.rc == RCOK && (|o.state.writeHis| > limits.recycleLen || |o.state.readHis| > limits.recycleLen)
  }

  ghost function Step(w: World, req: Request, limits: Limits): World {
    World(
      Access(w.row, req, limits).state,
      if Recycles(Decide(w.row, req, limits), limits) then Max(w.floor, req.minTs) else w.floor,
      if req.kind == Write then w.log + [Entry(req.ts, req.row)] else w.log,
      w.answers + Access(w.row, req, limits).answers)
  }

  ghost predicate AdmissibleRun(w: World, reqs: seq<Request>, limits: Limits)
    decreases |reqs|
  {
    reqs == [] || (Admissible(w, reqs[0]) && AdmissibleRun(Step(w, reqs[0], limits), reqs[1..], limits))
  }

  ghost function Run(w: World, reqs: seq<Request>, limits: Limits): World
    decreases |reqs|
  {
    if reqs == [] then w else Run(Step(w, reqs[0], limits), reqs[1..], limits)
  }

  /** `a` is the greatest write of the log below the reader, or the initial row when there is none. */
  ghost predicate SeesLatest(a: Answer, log: seq<Entry<Row>>, init: Row) {
    match a.version
    case None =>
      a.row == init && forall e :: e in log ==> e.ts >= a.reader
    case Some(v) =>
      v < a.reader && Entry(v, a.row) in log && forall e :: e in log ==> e.ts <= v || e.ts >= a.reader
  }

  /** No pending prewrite may still slip in between the answer and its reader. */
  ghost predicate Sealed(a: Answer, preReq: seq<Ts>) {
    forall p :: p in preReq ==> p >= a.reader || (a.version.Some? && p < a.version.value)
  }

  ghost predicate Recorded(h: seq<Entry<()>>, ts: Ts) {
    exists i :: 0 <= i < |h| && h[i].ts == ts
  }

  /** The row still holds what the reader was handed. */
  ghost predicate Holds(s: State, a: Answer) {
    if a.version.None? then s.base == a.row else Entry(a.version.value, a.row) in s.writeHis
  }

  ghost predicate Ordered(s: State) {
    Strict(s.writeHis) && Descending(s.readHis) && Distinct(s.preReq)
  }

  /** The base row is the newest write that has been recycled, or the initial row if none has. */
  ghost predicate BaseOk(log: seq<Entry<Row>>, h: seq<Entry<Row>>, base: Row, init: Row) {
    if forall e :: e in log ==> e in h then base == init
    else exists e :: e in log && e !in h && e.row == base && forall f :: f in log && f !in h ==> f.ts <= e.ts
  }

  /** The write history is the log minus a recycled part that lies below the oldest version kept. */
  ghost predicate Faithful(w: World, init: Row) {
    var h := w.row.writeHis;
    && (forall e :: e in h ==> e in w.log)
    && (forall i, j :: 0 <= i < j < |w.log| ==> w.log[i].ts != w.log[j].ts)
    && (forall e :: e in w.log && e !in h ==> h != [] && e.ts < h[|h| - 1].ts < w.floor)
    && BaseOk(w.log, h, w.row.base, init)
  }

  ghost predicate PendingLive(w: World) {
    && (forall p :: p in w.row.preReq ==> 0 < p && w.floor <= p && Unwritten(w, p))
    && (forall r :: r in w.row.readReq ==> w.floor <= r && Unwritten(w, r))
  }

  ghost predicate AnswersStable(w: World, init: Row) {
    forall a :: a in w.answers ==>
      && SeesLatest(a, w.log, init)
      && Sealed(a, w.row.preReq)
      && (w.floor <= a.reader ==> Recorded(w.row.readHis, a.reader))
  }

  ghost predicate Core(w: World, init: Row) {
    Ordered(w.row) && Faithful(w, init) && PendingLive(w) && AnswersStable(w, init)
  }

  /** Every buffered read waits for a pending prewrite that is older than it. */
  ghost predicate Waking(s: State) {
    forall r :: r in s.readReq ==> exists p :: p in s.preReq && p < r
  }

  ghost predicate Inv(w: World, init: Row) {
    Core(w, init) && Waking(w.row)
  }

  /** Looking a version up finds the latest write below the reader. */
  lemma LookupSeesLatest(w: World, init: Row, ts: Ts)
    requires Ordered(w.row) && Faithful(w, init)
    requires w.floor <= ts && Unwritten(w, ts)
    ensures SeesLatest(Lookup(w.row, ts), w.log, init)
  {
    var h := w.row.writeHis;
    LatestIsGreatest(h, ts);
    if Latest(h, ts).None? && h != [] {
      assert h[|h| - 1] in h;
    }
    forall e | e in w.log && e !in h ensures Latest(h, ts).Some? && e.ts <= Latest(h, ts).value.ts {
      assert h[|h| - 1] in h;
    }
  }

  lemma RecordedAfterInsert(h: seq<Entry<()>>, ts: Ts)
    ensures Recorded(Insert(h, Entry(ts, ())), ts)
    ensures forall t :: Recorded(h, t) ==> Recorded(Insert(h, Entry(ts, ())), t)
  {
    var n := Newer(h, ts);
    var h' := Insert(h, Entry(ts, ()));
    assert h'[n].ts == ts;
    forall t | Recorded(h, t) ensures Recorded(h', t) {
      var i :| 0 <= i < |h| && h[i].ts == t;
      assert h'[if i < n then i else i + 1] == h[i];
    }
  }

  /** The world after one more read at `ts` has been answered. */
  ghost function Answered(w: World, ts: Ts): World {
    w.(row := w.row.(readHis := Insert(w.row.readHis, Entry(ts, ()))), answers := w.answers + [Lookup(w.row, ts)])
  }

  lemma AnsweredKeepsCore(w: World, init: Row, ts: Ts)
    requires Core(w, init) && w.floor <= ts && Unwritten(w, ts)
    requires Sealed(Lookup(w.row, ts), w.row.preReq)
    ensures Core(Answered(w, ts), init)
  {
    InsertKeepsDescending(w.row.readHis, Entry(ts, ()));
    AnsweredKeepsAnswers(w, init, ts);
    assert Faithful(Answered(w, ts), init) && PendingLive(Answered(w, ts));
  }

  lemma AnsweredKeepsAnswers(w: World, init: Row, ts: Ts)
    requires Ordered(w.row) && Faithful(w, init) && AnswersStable(w, init) && w.floor <= ts && Unwritten(w, ts)
    requires Sealed(Lookup(w.row, ts), w.row.preReq)
    ensures AnswersStable(Answered(w, ts), init)
  {
    LookupSeesLatest(w, init, ts);
    RecordedAfterInsert(w.row.readHis, ts);
  }

  /** When no pending prewrite conflicts with a read, none can later separate it from its version. */
  lemma NoConflictSeals(s: State, ts: Ts)
    requires Ordered(s) && !ReadConflict(s, ts) && forall p :: p in s.preReq ==> 0 < p
    ensures Sealed(Lookup(s, ts), s.preReq)
  {
    LatestIsGreatest(s.writeHis, ts);
    forall p | p in s.preReq && p < ts ensures Latest(s.writeHis, ts).Some? && p < Latest(s.writeHis, ts).value.ts {
      assert !Separates(s, p, ts);
      var i :| 0 <= i < |s.writeHis| && p < s.writeHis[i].ts < ts;
    }
  }

  lemma BufferedReadKeepsInv(w: World, init: Row, ts: Ts)
    requires Inv(w, init) && w.floor <= ts && Unwritten(w, ts) && ReadConflict(w.row, ts)
    ensures Inv(w.(row := w.row.(readReq := [ts] + w.row.readReq)), init)
  {
    var p :| p in w.row.preReq && 0 < p && Separates(w.row, p, ts);
  }

  lemma ReadKeepsInv(w: World, init: Row, req: Request, limits: Limits)
    requires Inv(w, init) && Admissible(w, req) && req.kind == Read
    ensures Inv(Applied(w, req, limits), init)
  {
    if ReadConflict(w.row, req.ts) {
      BufferedReadKeepsInv(w, init, req.ts);
      assert w.answers + [] == w.answers;
    } else {
      NoConflictSeals(w.row, req.ts);
      AnsweredKeepsCore(w, init, req.ts);
      assert Applied(w, req, limits) == Answered(w, req.ts);
    }
  }

  /** A prewrite that is let in falls between no answer and its reader. */
  lemma PrewriteStaysOutside(w: World, init: Row, ts: Ts, a: Answer)
    requires Core(w, init) && w.floor <= ts && Unwritten(w, ts) && !PrewriteConflict(w.row, ts) && a in w.answers
    ensures ts >= a.reader || (a.version.Some? && ts < a.version.value)
  {
    if ts < a.reader {
      var i :| 0 <= i < |w.row.readHis| && w.row.readHis[i].ts == a.reader;
      assert !Separates(w.row, ts, w.row.readHis[i].ts);
      var j :| 0 <= j < |w.row.writeHis| && ts < w.row.writeHis[j].ts < a.reader;
      assert w.row.writeHis[j] in w.log;
    }
  }

  lemma PrewriteKeepsInv(w: World, init: Row, req: Request, limits: Limits)
    requires Inv(w, init) && Admissible(w, req) && req.kind == Prewrite
    ensures Inv(Applied(w, req, limits), init)
  {
    if !PrewriteConflict(w.row, req.ts) && |w.row.preReq| < limits.maxPreReq {
      BufferedPrewriteKeepsInv(w, w.(row := w.row.(preReq := [req.ts] + w.row.preReq)), init, req.ts);
    }
  }

  lemma BufferedPrewriteKeepsInv(w: World, w': World, init: Row, ts: Ts)
    requires Inv(w, init) && w' == w.(row := w.row.(preReq := [ts] + w.row.preReq))
    requires 0 < ts && w.floor <= ts && ts !in w.row.preReq && Unwritten(w, ts) && !PrewriteConflict(w.row, ts)
    ensures Inv(w', init)
  {
    assert Ordered(w'.row) && Faithful(w', init) && PendingLive(w');
    BufferedPrewriteKeepsAnswers(w, w', init, ts);
    PrewriteKeepsWaking(w.row, w'.row, ts);
  }

  lemma BufferedPrewriteKeepsAnswers(w: World, w': World, init: Row, ts: Ts)
    requires Core(w, init) && w' == w.(row := w.row.(preReq := [ts] + w.row.preReq))
    requires w.floor <= ts && Unwritten(w, ts) && !PrewriteConflict(w.row, ts)
    ensures AnswersStable(w', init)
  {
    forall a | a in w.answers ensures Sealed(a, w'.row.preReq) {
      PrewriteStaysOutside(w, init, ts, a);
    }
  }

  lemma PrewriteKeepsWaking(s: State, s': State, ts: Ts)
    requires Waking(s) && s'.readReq == s.readReq && s'.preReq == [ts] + s.preReq
    ensures Waking(s')
  {
    forall r | r in s'.readReq ensures exists p :: p in s'.preReq && p < r {
      var p :| p in s.preReq && p < r;
      assert p in s'.preReq;
    }
  }

  /** Installing a write: the prewrite behind it already kept clear of every answer. */
  ghost function Installed(w: World, ts: Ts, row: Row): World {
    w.(row := w.row.(writeHis := Insert(w.row.writeHis, Entry(ts, row)), preReq := Remove(w.row.preReq, ts)),
       log := w.log + [Entry(ts, row)])
  }

  lemma InstallKeepsFaithful(w: World, init: Row, ts: Ts, row: Row)
    requires Core(w, init) && ts in w.row.preReq
    ensures Ordered(Installed(w, ts, row).row) && Faithful(Installed(w, ts, row), init)
  {
    InsertKeepsStrict(w.row.writeHis, Entry(ts, row));
    RemoveDistinct(w.row.preReq, ts);
    InstallKeepsLog(w, init, ts, row);
    InstallKeepsRecycled(w, init, ts, row);
    InstallKeepsBase(w, init, ts, row);
  }

  lemma InstallKeepsLog(w: World, init: Row, ts: Ts, row: Row)
    requires Faithful(w, init) && Unwritten(w, ts)
    ensures var w' := Installed(w, ts, row);
            && (forall e :: e in w'.row.writeHis ==> e in w'.log)
            && (forall i, j :: 0 <= i < j < |w'.log| ==> w'.log[i].ts != w'.log[j].ts)
  {
  }

  /** A new version goes in front of the oldest one kept. */
  lemma InstallKeepsRecycled(w: World, init: Row, ts: Ts, row: Row)
    requires Faithful(w, init) && w.floor <= ts
    ensures var w' := Installed(w, ts, row);
            var h' := w'.row.writeHis;
            forall e :: e in w'.log && e !in h' ==> h' != [] && e.ts < h'[|h'| - 1].ts < w'.floor
  {
    var w' := Installed(w, ts, row);
    var h, h' := w.row.writeHis, w'.row.writeHis;
    forall e | e in w'.log && e !in h' ensures h' != [] && e.ts < h'[|h'| - 1].ts < w'.floor {
      assert e in w.log && e !in h;
      assert h[|h| - 1] == h'[|h'| - 1];
    }
  }

  lemma InstallKeepsBase(w: World, init: Row, ts: Ts, row: Row)
    requires Faithful(w, init) && Unwritten(w, ts)
    ensures var w' := Installed(w, ts, row); BaseOk(w'.log, w'.row.writeHis, w'.row.base, init)
  {
    var w' := Installed(w, ts, row);
    var h, h' := w.row.writeHis, w'.row.writeHis;
    assert h'[Newer(h, ts)] == Entry(ts, row);
    forall e ensures e in w'.log && e !in h' <==> e in w.log && e !in h {
      InsertedMembers(h, Entry(ts, row), e);
    }
    SameRecycledSameBase(w.log, h, w'.log, h', w.row.base, init);
  }

  lemma InsertedMembers(h: seq<Entry<Row>>, x: Entry<Row>, e: Entry<Row>)
    ensures e in Insert(h, x) <==> e == x || e in h
  {
    var n := Newer(h, x.ts);
    assert h == h[..n] + h[n..];
  }

  lemma SameRecycledSameBase(
    log: seq<Entry<Row>>, h: seq<Entry<Row>>, log': seq<Entry<Row>>, h': seq<Entry<Row>>, base: Row, init: Row)
    requires BaseOk(log, h, base, init) && forall e :: e in log' && e !in h' <==> e in log && e !in h
    ensures BaseOk(log', h', base, init)
  {
    if forall e :: e in log ==> e in h {
      assert forall e :: e in log' ==> e in h';
    } else {
      var e :| e in log && e !in h && e.row == base && forall f :: f in log && f !in h ==> f.ts <= e.ts;
      assert e in log' && e !in h';
    }
  }

  lemma InstallKeepsPending(w: World, ts: Ts, row: Row)
    requires Distinct(w.row.preReq) && PendingLive(w) && ts !in w.row.readReq
    ensures PendingLive(Installed(w, ts, row))
  {
    RemoveDistinct(w.row.preReq, ts);
  }

  lemma InstallKeepsAnswer(w: World, init: Row, ts: Ts, row: Row, a: Answer)
    requires SeesLatest(a, w.log, init) && Sealed(a, w.row.preReq) && ts in w.row.preReq
    ensures SeesLatest(a, Installed(w, ts, row).log, init) && Sealed(a, Installed(w, ts, row).row.preReq)
  {
  }

  lemma InstallKeepsCore(w: World, init: Row, ts: Ts, row: Row)
    requires Core(w, init) && ts in w.row.preReq && ts !in w.row.readReq
    ensures Core(Installed(w, ts, row), init)
  {
    InstallKeepsFaithful(w, init, ts, row);
    InstallKeepsPending(w, ts, row);
    forall a | a in w.answers
      ensures SeesLatest(a, Installed(w, ts, row).log, init) && Sealed(a, Installed(w, ts, row).row.preReq)
    {
      InstallKeepsAnswer(w, init, ts, row, a);
    }
  }

  ghost function Cancelled(w: World, ts: Ts): World {
    w.(row := w.row.(preReq := Remove(w.row.preReq, ts)))
  }

  lemma CancelKeepsCore(w: World, init: Row, ts: Ts)
    requires Core(w, init)
    ensures Core(Cancelled(w, ts), init)
  {
    RemoveDistinct(w.row.preReq, ts);
    forall a | a in w.answers ensures Sealed(a, Remove(w.row.preReq, ts)) {
      assert Sealed(a, w.row.preReq);
    }
  }

  ghost function AllAnswered(w: World, readers: seq<Ts>): World
    decreases |readers|
  {
    if readers == [] then w else AllAnswered(Answered(w, readers[0]), readers[1..])
  }

  lemma {:induction false} AllAnsweredIsBatch(w: World, readers: seq<Ts>)
    ensures var w' := AllAnswered(w, readers);
            && w'.row == w.row.(readHis := RecordReads(w.row.readHis, readers))
            && w'.answers == w.answers + Answers(w.row, readers)
            && w'.log == w.log && w'.floor == w.floor
    decreases |readers|
  {
    if readers != [] {
      var w' := Answered(w, readers[0]);
      AllAnsweredIsBatch(w', readers[1..]);
      AnswersFrame(w.row, w'.row, readers[1..]);
      assert w'.answers + Answers(w'.row, readers[1..]) == w.answers + Answers(w.row, readers);
    }
  }

  lemma {:induction false} AllAnsweredKeepsCore(w: World, init: Row, readers: seq<Ts>)
    requires Core(w, init)
    requires forall r :: r in readers ==> w.floor <= r && Unwritten(w, r) && Sealed(Lookup(w.row, r), w.row.preReq)
    ensures Core(AllAnswered(w, readers), init)
    decreases |readers|
  {
    if readers != [] {
      assert readers[0] in readers;
      AnsweredKeepsCore(w, init, readers[0]);
      var w' := Answered(w, readers[0]);
      forall r | r in readers[1..] ensures w'.floor <= r && Unwritten(w', r) && Lookup(w'.row, r) == Lookup(w.row, r) {
        assert r in readers;
      }
      AllAnsweredKeepsCore(w', init, readers[1..]);
    }
  }

  ghost function Woken(w: World): World {
    w.(row := WakeReaders(w.row).state, answers := w.answers + WakeReaders(w.row).answers)
  }

  lemma UnblockedKeepsCore(w: World, init: Row, m: Ts)
    requires Core(w, init)
    ensures Core(w.(row := w.row.(readReq := Blocked(w.row.readReq, m))), init)
  {
  }

  lemma NoOlderPrewriteSeals(s: State, ts: Ts)
    requires ts <= Least(s.preReq)
    ensures Sealed(Lookup(s, ts), s.preReq)
  {
  }

  /** Waking answers exactly the reads no older prewrite holds up, and leaves the rest waiting for one. */
  lemma WakeEstablishesInv(w: World, init: Row)
    requires Core(w, init)
    ensures Inv(Woken(w), init)
  {
    var m := Least(w.row.preReq);
    var ready := Ready(w.row.readReq, m);
    var w0 := w.(row := w.row.(readReq := Blocked(w.row.readReq, m)));
    UnblockedKeepsCore(w, init, m);
    ReadyAreSealed(w, w0, init);
    AllAnsweredKeepsCore(w0, init, ready);
    WokenIsBatch(w);
    WakeLeavesBlocked(w.row);
  }

  lemma ReadyAreSealed(w: World, w0: World, init: Row)
    requires Core(w, init) && w0 == w.(row := w.row.(readReq := Blocked(w.row.readReq, Least(w.row.preReq))))
    ensures forall r :: r in Ready(w.row.readReq, Least(w.row.preReq)) ==>
              w0.floor <= r && Unwritten(w0, r) && Sealed(Lookup(w0.row, r), w0.row.preReq)
  {
    forall r | r in Ready(w.row.readReq, Least(w.row.preReq)) ensures Sealed(Lookup(w0.row, r), w0.row.preReq) {
      NoOlderPrewriteSeals(w0.row, r);
    }
  }

  lemma WokenIsBatch(w: World)
    ensures var m := Least(w.row.preReq);
            Woken(w) == AllAnswered(w.(row := w.row.(readReq := Blocked(w.row.readReq, m))), Ready(w.row.readReq, m))
  {
    var m := Least(w.row.preReq);
    var ready := Ready(w.row.readReq, m);
    var w0 := w.(row := w.row.(readReq := Blocked(w.row.readReq, m)));
    AllAnsweredIsBatch(w0, ready);
    AnswersFrame(w0.row, w.row, ready);
  }

  lemma WakeLeavesBlocked(s: State)
    ensures Waking(WakeReaders(s).state)
  {
    var m := Least(s.preReq);
    forall r | r in Blocked(s.readReq, m) ensures m in s.preReq && m < r {}
  }

  lemma WriteKeepsInv(w: World, init: Row, req: Request, limits: Limits)
    requires Inv(w, init) && Admissible(w, req) && (req.kind == Write || req.kind == Cancel)
    ensures Inv(Applied(w, req, limits), init)
  {
    if req.kind == Write {
      InstallKeepsCore(w, init, req.ts, req.row);
      WakeEstablishesInv(Installed(w, req.ts, req.row), init);
      assert Applied(w, req, limits) == Woken(Installed(w, req.ts, req.row));
    } else {
      CancelKeepsCore(w, init, req.ts);
      WakeEstablishesInv(Cancelled(w, req.ts), init);
      assert Applied(w, req, limits) == Woken(Cancelled(w, req.ts));
    }
  }

  /** The world after a request, before any recycling. */
  ghost function Applied(w: World, req: Request, limits: Limits): World {
    var o := Decide(w.row, req, limits);
    World(
      o.state,
      w.floor,
      if req.kind == Write then w.log + [Entry(req.ts, req.row)] else w.log,
      w.answers + o.answers)
  }

  lemma AppliedKeepsInv(w: World, init: Row, req: Request, limits: Limits)
    requires Inv(w, init) && Admissible(w, req)
    ensures Inv(Applied(w, req, limits), init)
  {
    match req.kind
    case Read => ReadKeepsInv(w, init, req, limits);
    case Prewrite => PrewriteKeepsInv(w, init, req, limits);
    case Write => WriteKeepsInv(w, init, req, limits);
    case Cancel => WriteKeepsInv(w, init, req, limits);
  }

  lemma RecycleReadsKeepsInv(w: World, init: Row, minTs: Ts)
    requires Inv(w, init) && minTs <= w.floor
    ensures Inv(w.(row := RecycleReads(w.row, minTs)), init)
  {
    var w' := w.(row := RecycleReads(w.row, minTs));
    forall ts | minTs <= ts && Recorded(w.row.readHis, ts) ensures Recorded(w'.row.readHis, ts) {
      RecycleReadsKeepsRecord(w.row, minTs, ts);
    }
    OtherReadsKeepRest(w, w', init);
    assert AnswersStable(w', init);
  }

  /** Nothing but `Ordered` and `AnswersStable` looks at the past reads. */
  lemma OtherReadsKeepRest(w: World, w': World, init: Row)
    requires Faithful(w, init) && PendingLive(w) && Waking(w.row)
    requires w' == w.(row := w.row.(readHis := w'.row.readHis))
    ensures Faithful(w', init) && PendingLive(w') && Waking(w'.row)
  {
  }

  lemma RecycleReadsKeepsRecord(s: State, minTs: Ts, ts: Ts)
    requires Descending(s.readHis) && minTs <= ts && Recorded(s.readHis, ts)
    ensures Recorded(RecycleReads(s, minTs).readHis, ts)
  {
    var h, h' := s.readHis, RecycleReads(s, minTs).readHis;
    var i :| 0 <= i < |h| && h[i].ts == ts;
    assert h'[i] == h[i];
  }

  lemma CutSplits(h: seq<Entry<Row>>, k: nat)
    requires Strict(h) && 1 <= k <= |h|
    ensures forall e :: e in h <==> e in h[..k] || e in h[k..]
    ensures forall e :: e in h[k..] ==> e.ts < h[k - 1].ts && e !in h[..k]
  {
    assert h == h[..k] + h[k..];
  }

  lemma CutKeepsFaithful(w: World, w': World, init: Row, k: nat)
    requires Strict(w.row.writeHis) && Faithful(w, init) && 1 <= k < |w.row.writeHis|
    requires w.row.writeHis[k - 1].ts < w.floor && w'.row.writeHis == w.row.writeHis[..k]
    requires w'.log == w.log && w'.floor == w.floor && w'.row.base == w.row.writeHis[k].row
    ensures Faithful(w', init)
  {
    CutKeepsRecycled(w, init, k);
    CutKeepsBase(w, init, k);
  }

  lemma CutKeepsRecycled(w: World, init: Row, k: nat)
    requires Strict(w.row.writeHis) && Faithful(w, init) && 1 <= k < |w.row.writeHis|
    requires w.row.writeHis[k - 1].ts < w.floor
    ensures var h' := w.row.writeHis[..k];
            && (forall e :: e in h' ==> e in w.log)
            && (forall e :: e in w.log && e !in h' ==> h' != [] && e.ts < h'[|h'| - 1].ts < w.floor)
  {
    var h' := w.row.writeHis[..k];
    forall e | e in h' ensures e in w.log {
      assert e in w.row.writeHis;
    }
    forall e | e in w.log && e !in h' ensures e.ts < h'[|h'| - 1].ts {
      CutOffIsOld(w, init, k, e);
    }
  }

  /** What is cut off, or was before, is not newer than the first entry cut off. */
  lemma CutKeepsBase(w: World, init: Row, k: nat)
    requires Strict(w.row.writeHis) && Faithful(w, init) && 1 <= k < |w.row.writeHis|
    ensures BaseOk(w.log, w.row.writeHis[..k], w.row.writeHis[k].row, init)
  {
    var h := w.row.writeHis;
    CutIsLogged(w, init, k);
    CutSplits(h, k);
    forall f | f in w.log && f !in h[..k] ensures f.ts <= h[k].ts {
      assert f in h ==> f in h[k..];
    }
  }

  lemma RecycleWritesKeepsFaithful(w: World, init: Row, minTs: Ts)
    requires Strict(w.row.writeHis) && Faithful(w, init) && minTs <= w.floor
    ensures Faithful(w.(row := RecycleWrites(w.row, minTs)), init)
  {
    var w' := w.(row := RecycleWrites(w.row, minTs));
    if w'.row != w.row {
      CutKeepsFaithful(w, w', init, Keep(w.row.writeHis, minTs));
    }
  }

  lemma CutIsLogged(w: World, init: Row, k: nat)
    requires Strict(w.row.writeHis) && Faithful(w, init) && 1 <= k < |w.row.writeHis|
    ensures w.row.writeHis[k] in w.log && w.row.writeHis[k] !in w.row.writeHis[..k]
  {
    var h := w.row.writeHis;
    CutSplits(h, k);
    assert h[k] in h && h[k] == h[k..][0];
  }

  lemma CutOffIsOld(w: World, init: Row, k: nat, e: Entry<Row>)
    requires Strict(w.row.writeHis) && Faithful(w, init) && 1 <= k < |w.row.writeHis|
    requires e in w.log && e !in w.row.writeHis[..k] && w.row.writeHis[k - 1].ts < w.floor
    ensures e.ts < w.row.writeHis[k - 1].ts
  {
    var h := w.row.writeHis;
    CutSplits(h, k);
    if e !in h {
      assert e.ts < h[|h| - 1].ts <= h[k - 1].ts;
    }
  }

  lemma RecycleWritesKeepsInv(w: World, init: Row, minTs: Ts)
    requires Inv(w, init) && minTs <= w.floor
    ensures Inv(w.(row := RecycleWrites(w.row, minTs)), init)
  {
    RecycleWritesKeepsFaithful(w, init, minTs);
    OtherWritesKeepRest(w, w.(row := RecycleWrites(w.row, minTs)), init);
  }

  /** Nothing but `Ordered` and `Faithful` looks at the versions and the row itself. */
  lemma OtherWritesKeepRest(w: World, w': World, init: Row)
    requires PendingLive(w) && AnswersStable(w, init) && Waking(w.row)
    requires w' == w.(row := w.row.(writeHis := w'.row.writeHis, base := w'.row.base))
    ensures PendingLive(w') && AnswersStable(w', init) && Waking(w'.row)
  {
  }

  lemma RaiseFloorKeepsInv(w: World, init: Row, minTs: Ts)
    requires Inv(w, init)
    requires forall t :: t in w.row.readReq ==> minTs <= t
    requires forall t :: t in w.row.preReq ==> minTs <= t
    ensures Inv(w.(floor := Max(w.floor, minTs)), init)
  {
  }

  lemma AppliedPending(w: World, req: Request, limits: Limits)
    requires Admissible(w, req)
    ensures forall t :: t in Applied(w, req, limits).row.readReq ==> req.minTs <= t
    ensures forall t :: t in Applied(w, req, limits).row.preReq ==> req.minTs <= t
  {
  }

  lemma StepKeepsInv(w: World, init: Row, req: Request, limits: Limits)
    requires Inv(w, init) && Admissible(w, req)
    ensures Inv(Step(w, req, limits), init)
  {
    AppliedKeepsInv(w, init, req, limits);
    var w1 := Applied(w, req, limits);
    if Recycles(Decide(w.row, req, limits), limits) {
      AppliedPending(w, req, limits);
      RaiseFloorKeepsInv(w1, init, req.minTs);
      var w2 := w1.(floor := Max(w.floor, req.minTs));
      RecycleReadsKeepsInv(w2, init, req.minTs);
      RecycleWritesKeepsInv(w2.(row := RecycleReads(w2.row, req.minTs)), init, req.minTs);
    }
  }

  lemma {:induction false} RunKeepsInv(w: World, init: Row, reqs: seq<Request>, limits: Limits)
    requires Inv(w, init) && AdmissibleRun(w, reqs, limits)
    ensures Inv(Run(w, reqs, limits), init)
    decreases |reqs|
  {
    if reqs != [] {
      StepKeepsInv(w, init, reqs[0], limits);
      RunKeepsInv(Step(w, reqs[0], limits), init, reqs[1..], limits);
    }
  }

  /**
   * Read stability. After any admissible run, every answer ever given names the greatest write below its reader
   * among all the writes of the run, those installed after the answer included, with that write's contents.
   */
  lemma ReadsAreStable(init: Row, reqs: seq<Request>, limits: Limits, a: Answer)
    requires AdmissibleRun(Start(init), reqs, limits)
    requires a in Run(Start(init), reqs, limits).answers
    ensures SeesLatest(a, Run(Start(init), reqs, limits).log, init)
  {
    RunKeepsInv(Start(init), init, reqs, limits);
  }

  lemma LiveAnswerHeld(w: World, init: Row, a: Answer)
    requires Core(w, init) && a in w.answers && w.floor <= a.reader
    ensures Holds(w.row, a)
  {
    var h := w.row.writeHis;
    if h != [] {
      assert h[|h| - 1] in h;
    }
  }

  /**
   * Version retention. Recycling never frees the version, nor overwrites the base row, that a reader was handed,
   * as long as the reader is not older than every threshold used.
   */
  lemma VersionsAreRetained(init: Row, reqs: seq<Request>, limits: Limits, a: Answer)
    requires AdmissibleRun(Start(init), reqs, limits)
    requires a in Run(Start(init), reqs, limits).answers
    requires Run(Start(init), reqs, limits).floor <= a.reader
    ensures Holds(Run(Start(init), reqs, limits).row, a)
  {
    RunKeepsInv(Start(init), init, reqs, limits);
    LiveAnswerHeld(Run(Start(init), reqs, limits), init, a);
  }

  lemma HeldAnswerRepeats(w: World, init: Row, a: Answer)
    requires Core(w, init) && a in w.answers && w.floor <= a.reader
    ensures var again := Lookup(w.row, a.reader); again == a || again.version == Some(a.reader)
  {
    LiveAnswerHeld(w, init, a);
    LatestIsGreatest(w.row.writeHis, a.reader);
    assert forall e :: e in w.row.writeHis ==> e in w.log;
  }

  /** Looking the version up again, at any later time, gives the same answer, or the reader's own write. */
  lemma RereadIsRepeatable(init: Row, reqs: seq<Request>, limits: Limits, a: Answer)
    requires AdmissibleRun(Start(init), reqs, limits)
    requires a in Run(Start(init), reqs, limits).answers
    requires Run(Start(init), reqs, limits).floor <= a.reader
    ensures var again := Lookup(Run(Start(init), reqs, limits).row, a.reader);
            again == a || again.version == Some(a.reader)
  {
    RunKeepsInv(Start(init), init, reqs, limits);
    HeldAnswerRepeats(Run(Start(init), reqs, limits), init, a);
  }
}
