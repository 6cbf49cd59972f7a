/**
 * The replies of a multi-version row, request by request, from nothing but what the row was asked and what it replied
 * before: which reads are answered at once, which prewrites are let in, and who is woken. Recycling plays no part.
 */
module MvccReplies {
  import opened Types
  import opened History
  import opened Queues
  import opened MvccSpec
  import opened MvccStability

  /** A request and what the caller and the woken readers were told. */
  datatype Event = Event(req: Request, rc: RC, answers: seq<Answer>)

  ghost function Reply(w: World, req: Request, limits: Limits): Event {
    Event(req, Access(w.row, req, limits).rc, Access(w.row, req, limits).answers)
  }

  ghost function Events(w: World, reqs: seq<Request>, limits: Limits): seq<Event>
    decreases |reqs|
  {
    if reqs == [] then [] else [Reply(w, reqs[0], limits)] + Events(Step(w, reqs[0], limits), reqs[1..], limits)
  }

  function Readers(answers: seq<Answer>): set<Ts> {
    set a | a in answers :: a.reader
  }

  function PendingAfter(before: set<Ts>, ev: Event): set<Ts> {
    match ev.req.kind
    case Read => before
    case Prewrite => if ev.rc == RCOK then before + {ev.req.ts} else before
    case Write => before - {ev.req.ts}
    case Cancel => before - {ev.req.ts}
  }

  function WaitingAfter(before: set<Ts>, ev: Event): set<Ts> {
    (if ev.req.kind == Read && ev.rc == WAIT then before + {ev.req.ts} else before) - Readers(ev.answers)
  }

  /** The transactions whose prewrite was accepted and that have neither written nor cancelled since. */
  function Pending(past: seq<Event>): set<Ts> {
    if past == [] then {} else PendingAfter(Pending(past[..|past| - 1]), past[|past| - 1])
  }

  /** The transactions whose read was told to wait and has not been answered since. */
  function Waiting(past: seq<Event>): set<Ts> {
    if past == [] then {} else WaitingAfter(Waiting(past[..|past| - 1]), past[|past| - 1])
  }

  /** A write of the run lies strictly between two timestamps. */
  ghost predicate WrittenBetween(log: seq<Entry<Row>>, lo: Ts, hi: Ts) {
    exists e :: e in log && lo < e.ts < hi
  }

  /** An unfinished prewrite may still become the version that a read at `ts` has to see. */
  ghost predicate HeldUp(log: seq<Entry<Row>>, pending: set<Ts>, ts: Ts) {
    exists p :: p in pending && p < ts && !WrittenBetween(log, p, ts)
  }

  /** A write at `ts` would come between an answered read and the version it was given. */
  ghost predicate TooLate(log: seq<Entry<Row>>, answers: seq<Answer>, ts: Ts) {
    exists r :: r in Readers(answers) && ts < r && !WrittenBetween(log, ts, r)
  }

  ghost predicate PendingBelow(pending: set<Ts>, ts: Ts) {
    exists p :: p in pending && p < ts
  }

  /** Exactly the waiting reads with no older prewrite left are answered. */
  ghost predicate Unblocked(pending: set<Ts>, waiting: set<Ts>, answers: seq<Answer>) {
    forall r :: r in Readers(answers) <==> r in waiting && !PendingBelow(pending, r)
  }

  /** What the event must be, given the writes and answers so far, who is pending and who waits. */
  ghost predicate Prescribed(w: World, pending: set<Ts>, waiting: set<Ts>, init: Row, limits: Limits, ev: Event) {
    var ts := ev.req.ts;
    match ev.req.kind
    case Read =>
      && ev.rc == (if !HeldUp(w.log, pending, ts) then RCOK else if |waiting| < limits.maxReadReq then WAIT else Abort)
      && (if ev.rc == RCOK
          then |ev.answers| == 1 && ev.answers[0].reader == ts && SeesLatest(ev.answers[0], w.log, init)
          else ev.answers == [])
    case Prewrite =>
      && ev.rc == (if TooLate(w.log, w.answers, ts) || |pending| >= limits.maxPreReq then Abort else RCOK)
      && ev.answers == []
    case Write => ev.rc == RCOK && Unblocked(pending - {ts}, waiting, ev.answers)
    case Cancel => ev.rc == RCOK && Unblocked(pending - {ts}, waiting, ev.answers)
  }

  /** The row's queues say the same as the events, and its past reads were answered. */
  ghost predicate Tracks(w: World, pending: set<Ts>, waiting: set<Ts>) {
    && (forall t :: t in w.row.preReq <==> t in pending)
    && (forall t :: t in w.row.readReq <==> t in waiting)
    && Distinct(w.row.readReq)
    && (forall e :: e in w.row.readHis ==> e.ts in Readers(w.answers))
  }

  lemma PastGrows(past: seq<Event>, ev: Event)
    ensures Pending(past + [ev]) == PendingAfter(Pending(past), ev)
    ensures Waiting(past + [ev]) == WaitingAfter(Waiting(past), ev)
  {
    assert (past + [ev])[..|past + [ev]| - 1] == past;
  }

  lemma {:induction false} DistinctCount(q: seq<Ts>, members: set<Ts>)
    requires Distinct(q) && forall t :: t in q <==> t in members
    ensures |q| == |members|
  {
    if q != [] {
      assert q == [q[0]] + q[1..];
      DistinctCount(q[1..], members - {q[0]});
    } else {
      assert members == {};
    }
  }

  lemma KeptReaders(answers: seq<Answer>, more: seq<Answer>)
    ensures Readers(answers + more) == Readers(answers) + Readers(more)
  {
  }

  /** Above the recycling thresholds the versions kept cover what the log covers. */
  lemma CoveredIffWritten(w: World, init: Row, lo: Ts, hi: Ts)
    requires Faithful(w, init) && w.floor <= lo
    ensures Covered(w.row.writeHis, lo, hi) <==> WrittenBetween(w.log, lo, hi)
  {
    var h := w.row.writeHis;
    if Covered(h, lo, hi) {
      var i :| 0 <= i < |h| && lo < h[i].ts < hi;
      assert h[i] in w.log;
    }
    if WrittenBetween(w.log, lo, hi) {
      var e :| e in w.log && lo < e.ts < hi;
      assert e in h;
    }
  }

  lemma ConflictIffHeldUp(w: World, init: Row, pending: set<Ts>, ts: Ts)
    requires Faithful(w, init) && PendingLive(w) && forall t :: t in w.row.preReq <==> t in pending
    ensures ReadConflict(w.row, ts) <==> HeldUp(w.log, pending, ts)
  {
    forall p | p in w.row.preReq ensures Covered(w.row.writeHis, p, ts) <==> WrittenBetween(w.log, p, ts) {
      CoveredIffWritten(w, init, p, ts);
    }
  }

  lemma ConflictIffTooLate(w: World, init: Row, ts: Ts)
    requires Faithful(w, init) && AnswersStable(w, init) && w.floor <= ts
    requires forall e :: e in w.row.readHis ==> e.ts in Readers(w.answers)
    ensures PrewriteConflict(w.row, ts) <==> TooLate(w.log, w.answers, ts)
  {
    var h := w.row.readHis;
    if PrewriteConflict(w.row, ts) {
      var i :| 0 <= i < |h| && Separates(w.row, ts, h[i].ts);
      assert h[i].ts in Readers(w.answers);
      CoveredIffWritten(w, init, ts, h[i].ts);
    }
    if TooLate(w.log, w.answers, ts) {
      var r :| r in Readers(w.answers) && ts < r && !WrittenBetween(w.log, ts, r);
      CoveredIffWritten(w, init, ts, r);
      assert Recorded(h, r);
      var i :| 0 <= i < |h| && h[i].ts == r;
      assert Separates(w.row, ts, h[i].ts);
    }
  }

  lemma ReadReply(w: World, init: Row, pending: set<Ts>, waiting: set<Ts>, req: Request, limits: Limits)
    requires Inv(w, init) && Tracks(w, pending, waiting) && Admissible(w, req) && req.kind == Read
    ensures Prescribed(w, pending, waiting, init, limits, Reply(w, req, limits))
  {
    ConflictIffHeldUp(w, init, pending, req.ts);
    DistinctCount(w.row.readReq, waiting);
    LookupSeesLatest(w, init, req.ts);
  }

  lemma PrewriteReply(w: World, init: Row, pending: set<Ts>, waiting: set<Ts>, req: Request, limits: Limits)
    requires Inv(w, init) && Tracks(w, pending, waiting) && Admissible(w, req) && req.kind == Prewrite
    ensures Prescribed(w, pending, waiting, init, limits, Reply(w, req, limits))
  {
    ConflictIffTooLate(w, init, req.ts);
    DistinctCount(w.row.preReq, pending);
  }

  lemma {:induction false} AnswersReaders(s: State, readers: seq<Ts>)
    ensures forall r :: r in Readers(Answers(s, readers)) <==> r in readers
  {
    if readers != [] {
      AnswersReaders(s, readers[1..]);
      KeptReaders([Lookup(s, readers[0])], Answers(s, readers[1..]));
      assert readers == [readers[0]] + readers[1..];
    }
  }

  /** The row in which a write has been installed, or a prewrite cancelled, and nobody woken yet. */
  ghost function Finished(s: State, req: Request): State {
    if req.kind == Write
    then s.(writeHis := Insert(s.writeHis, Entry(req.ts, req.row)), preReq := Remove(s.preReq, req.ts))
    else s.(preReq := Remove(s.preReq, req.ts))
  }

  lemma ReadyIffUnblocked(s: State, pending: set<Ts>, waiting: set<Ts>, r: Ts)
    requires (forall t :: t in s.preReq <==> t in pending) && (forall t :: t in s.readReq <==> t in waiting)
    ensures r in Ready(s.readReq, Least(s.preReq)) <==> r in waiting && !PendingBelow(pending, r)
    ensures r in Blocked(s.readReq, Least(s.preReq)) <==> r in waiting && PendingBelow(pending, r)
  {
  }

  lemma WakeReply(s: State, pending: set<Ts>, waiting: set<Ts>)
    requires (forall t :: t in s.preReq <==> t in pending) && (forall t :: t in s.readReq <==> t in waiting)
    ensures var o := WakeReaders(s);
            && Unblocked(pending, waiting, o.answers)
            && forall t :: t in o.state.readReq <==> t in waiting && t !in Readers(o.answers)
  {
    AnswersReaders(s, Ready(s.readReq, Least(s.preReq)));
    forall r
      ensures r in Ready(s.readReq, Least(s.preReq)) <==> r in waiting && !PendingBelow(pending, r)
      ensures r in Blocked(s.readReq, Least(s.preReq)) <==> r in waiting && PendingBelow(pending, r)
    {
      ReadyIffUnblocked(s, pending, waiting, r);
    }
  }

  lemma FinishReply(w: World, init: Row, pending: set<Ts>, waiting: set<Ts>, req: Request, limits: Limits)
    requires Inv(w, init) && Tracks(w, pending, waiting) && (req.kind == Write || req.kind == Cancel)
    ensures Prescribed(w, pending, waiting, init, limits, Reply(w, req, limits))
  {
    RemoveDistinct(w.row.preReq, req.ts);
    WakeReply(Finished(w.row, req), pending - {req.ts}, waiting);
  }

  lemma {:induction false} BlockedDistinct(q: seq<Ts>, m: Ts)
    requires Distinct(q)
    ensures Distinct(Blocked(q, m))
  {
    if q != [] {
      var rest := Blocked(q[1..], m);
      BlockedDistinct(q[1..], m);
      assert Blocked(q, m) == if q[0] <= m then rest else [q[0]] + rest;
      forall i | 0 <= i < |rest| ensures rest[i] != q[0] {
        assert rest[i] in q[1..];
      }
    }
  }

  lemma InsertedReads(h: seq<Entry<()>>, ts: Ts, e: Entry<()>)
    requires e in Insert(h, Entry(ts, ()))
    ensures e in h || e.ts == ts
  {
  }

  lemma {:induction false} RecordedReads(h: seq<Entry<()>>, readers: seq<Ts>, e: Entry<()>)
    requires e in RecordReads(h, readers)
    ensures e in h || e.ts in readers
    decreases |readers|
  {
    if readers != [] {
      RecordedReads(Insert(h, Entry(readers[0], ())), readers[1..], e);
      if e in Insert(h, Entry(readers[0], ())) { InsertedReads(h, readers[0], e); }
    }
  }

  lemma ReadTracks(w: World, pending: set<Ts>, waiting: set<Ts>, req: Request, limits: Limits)
    requires Tracks(w, pending, waiting) && Admissible(w, req) && req.kind == Read
    ensures var ev := Reply(w, req, limits);
            Tracks(Applied(w, req, limits), PendingAfter(pending, ev), WaitingAfter(waiting, ev))
  {
    var w', ev := Applied(w, req, limits), Reply(w, req, limits);
    KeptReaders(w.answers, ev.answers);
    if ev.rc == RCOK {
      assert Readers(ev.answers) == {req.ts} by {
        assert ev.answers == [Lookup(w.row, req.ts)];
      }
      forall e | e in w'.row.readHis ensures e.ts in Readers(w'.answers) {
        InsertedReads(w.row.readHis, req.ts, e);
      }
    } else {
      assert Readers(ev.answers) == {} && w'.answers == w.answers;
    }
  }

  lemma PrewriteTracks(w: World, pending: set<Ts>, waiting: set<Ts>, req: Request, limits: Limits)
    requires Tracks(w, pending, waiting) && req.kind == Prewrite
    ensures var ev := Reply(w, req, limits);
            Tracks(Applied(w, req, limits), PendingAfter(pending, ev), WaitingAfter(waiting, ev))
  {
    assert Applied(w, req, limits).answers == w.answers;
    assert Readers(Reply(w, req, limits).answers) == {};
  }

  lemma FinishTracks(w: World, pending: set<Ts>, waiting: set<Ts>, req: Request, limits: Limits)
    requires Distinct(w.row.preReq) && Tracks(w, pending, waiting) && (req.kind == Write || req.kind == Cancel)
    ensures var ev := Reply(w, req, limits);
            Tracks(Applied(w, req, limits), PendingAfter(pending, ev), WaitingAfter(waiting, ev))
  {
    var w', s := Applied(w, req, limits), Finished(w.row, req);
    RemoveDistinct(w.row.preReq, req.ts);
    WakeReply(s, pending - {req.ts}, waiting);
    BlockedDistinct(s.readReq, Least(s.preReq));
    AnswersReaders(s, Ready(s.readReq, Least(s.preReq)));
    KeptReaders(w.answers, WakeReaders(s).answers);
    forall e | e in w'.row.readHis ensures e.ts in Readers(w'.answers) {
      RecordedReads(w.row.readHis, Ready(s.readReq, Least(s.preReq)), e);
    }
  }

  lemma RecyclingTracks(w: World, w': World, pending: set<Ts>, waiting: set<Ts>)
    requires Tracks(w, pending, waiting) && w'.row.readHis <= w.row.readHis && w'.answers == w.answers
    requires w'.row.preReq == w.row.preReq && w'.row.readReq == w.row.readReq
    ensures Tracks(w', pending, waiting)
  {
    assert forall e :: e in w'.row.readHis ==> e in w.row.readHis;
  }

  lemma RecyclingFrame(w: World, req: Request, limits: Limits)
    ensures var w1, w' := Applied(w, req, limits), Step(w, req, limits);
            && w'.row.readHis <= w1.row.readHis && w'.answers == w1.answers
            && w'.row.preReq == w1.row.preReq && w'.row.readReq == w1.row.readReq
  {
  }

  lemma StepTracks(w: World, init: Row, pending: set<Ts>, waiting: set<Ts>, req: Request, limits: Limits)
    requires Inv(w, init) && Tracks(w, pending, waiting) && Admissible(w, req)
    ensures var ev := Reply(w, req, limits);
            Tracks(Step(w, req, limits), PendingAfter(pending, ev), WaitingAfter(waiting, ev))
  {
    match req.kind {
      case Read => ReadTracks(w, pending, waiting, req, limits);
      case Prewrite => PrewriteTracks(w, pending, waiting, req, limits);
      case Write => FinishTracks(w, pending, waiting, req, limits);
      case Cancel => FinishTracks(w, pending, waiting, req, limits);
    }
    var ev := Reply(w, req, limits);
    var w1, w' := Applied(w, req, limits), Step(w, req, limits);
    RecyclingFrame(w, req, limits);
    RecyclingTracks(w1, w', PendingAfter(pending, ev), WaitingAfter(waiting, ev));
  }

  lemma StepReplies(w: World, init: Row, pending: set<Ts>, waiting: set<Ts>, req: Request, limits: Limits)
    requires Inv(w, init) && Tracks(w, pending, waiting) && Admissible(w, req)
    ensures Prescribed(w, pending, waiting, init, limits, Reply(w, req, limits))
  {
    match req.kind
    case Read => ReadReply(w, init, pending, waiting, req, limits);
    case Prewrite => PrewriteReply(w, init, pending, waiting, req, limits);
    case Write => FinishReply(w, init, pending, waiting, req, limits);
    case Cancel => FinishReply(w, init, pending, waiting, req, limits);
  }

  lemma {:induction false} RunTracks(w: World, init: Row, past: seq<Event>, reqs: seq<Request>, limits: Limits)
    requires Inv(w, init) && Tracks(w, Pending(past), Waiting(past)) && AdmissibleRun(w, reqs, limits)
    ensures Inv(Run(w, reqs, limits), init)
    ensures var past' := past + Events(w, reqs, limits); Tracks(Run(w, reqs, limits), Pending(past'), Waiting(past'))
    decreases |reqs|
  {
    if reqs == [] {
      assert past + [] == past;
    } else {
      var w', ev := Step(w, reqs[0], limits), Reply(w, reqs[0], limits);
      StepTracks(w, init, Pending(past), Waiting(past), reqs[0], limits);
      StepKeepsInv(w, init, reqs[0], limits);
      PastGrows(past, ev);
      RunTracks(w', init, past + [ev], reqs[1..], limits);
      Regroup(past, [ev], Events(w', reqs[1..], limits));
    }
  }

  lemma StartTracks(init: Row)
    ensures Inv(Start(init), init) && Tracks(Start(init), Pending([]), Waiting([]))
  {
  }

  lemma ReachableTracks(init: Row, reqs: seq<Request>, limits: Limits)
    requires AdmissibleRun(Start(init), reqs, limits)
    ensures var w, past := Run(Start(init), reqs, limits), Events(Start(init), reqs, limits);
            Inv(w, init) && Tracks(w, Pending(past), Waiting(past))
  {
    StartTracks(init);
    RunTracks(Start(init), init, [], reqs, limits);
    assert [] + Events(Start(init), reqs, limits) == Events(Start(init), reqs, limits);
  }

  /**
   * The next request of any run gets the reply prescribed by the writes, the answers and the replies so far. A read is
   * answered at once exactly if no unfinished prewrite lies below it without a write of the run in between, and then
   * with the latest write; a prewrite is let in exactly if it comes between no answered read and its version and the
   * queue has room; a write or cancel answers exactly the waiting reads that no unfinished prewrite is below.
   */
  lemma RepliesAreExact(init: Row, reqs: seq<Request>, limits: Limits, req: Request)
    requires AdmissibleRun(Start(init), reqs, limits) && Admissible(Run(Start(init), reqs, limits), req)
    ensures var w, past := Run(Start(init), reqs, limits), Events(Start(init), reqs, limits);
            Prescribed(w, Pending(past), Waiting(past), init, limits, Reply(w, req, limits))
  {
    var past := Events(Start(init), reqs, limits);
    ReachableTracks(init, reqs, limits);
    StepReplies(Run(Start(init), reqs, limits), init, Pending(past), Waiting(past), req, limits);
  }

  /** The row's prewrite queue holds exactly the accepted, unfinished prewrites, its read queue the unanswered reads. */
  lemma QueuesAreThoseTold(init: Row, reqs: seq<Request>, limits: Limits, ts: Ts)
    requires AdmissibleRun(Start(init), reqs, limits)
    ensures var s, past := Run(Start(init), reqs, limits).row, Events(Start(init), reqs, limits);
            (ts in s.preReq <==> ts in Pending(past)) && (ts in s.readReq <==> ts in Waiting(past))
  {
    ReachableTracks(init, reqs, limits);
  }
}
