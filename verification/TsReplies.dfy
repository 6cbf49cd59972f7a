/**
 * The replies of a basic timestamp-ordering row, request by request, from nothing but what the row was asked and what
 * it replied before: who is refused, who waits, who is let in, and who is woken.
 */
module TsReplies {
  import opened Types
  import opened History
  import opened Queues
  import opened TsSpec
  import opened TsOrder

  /** A request and what the caller and the woken readers were told. */
  datatype Event = Event(req: Request, rc: RC, answers: seq<Answer>)

  function Reply(w: World, req: Request): Event {
    Event(req, Access(w.row, req).rc, Access(w.row, req).answers)
  }

  function Events(w: World, reqs: seq<Request>): seq<Event>
    decreases |reqs|
  {
    if reqs == [] then [] else [Reply(w, reqs[0])] + Events(Step(w, reqs[0]), reqs[1..])
  }

  function Readers(answers: seq<Answer>): set<Ts> {
    set a | a in answers :: a.reader
  }

  function PendingAfter(before: set<Ts>, ev: Event): set<Ts> {
    match ev.req.kind
    case Read => before
    case Prewrite => if ev.rc == RCOK then before + {ev.req.ts} else before
    case Write => before - {ev.req.ts}
    case Cancel => before - {ev.req.ts}
  }

  function WaitingAfter(before: set<Ts>, ev: Event): set<Ts> {
    (if ev.req.kind == Read && ev.rc == WAIT then before + {ev.req.ts} else before) - Readers(ev.answers)
  }

  /** The transactions whose prewrite was accepted and that have neither written nor cancelled since. */
  function Pending(past: seq<Event>): set<Ts> {
    if past == [] then {} else PendingAfter(Pending(past[..|past| - 1]), past[|past| - 1])
  }

  /** The transactions whose read was told to wait and has not been answered since. */
  function Waiting(past: seq<Event>): set<Ts> {
    if past == [] then {} else WaitingAfter(Waiting(past[..|past| - 1]), past[|past| - 1])
  }

  ghost predicate WrittenAbove(log: seq<Entry<Row>>, ts: Ts) {
    exists e :: e in log && e.ts > ts
  }

  ghost predicate ReadAbove(answers: seq<Answer>, ts: Ts) {
    exists a :: a in answers && a.reader > ts
  }

  ghost predicate PendingBelow(pending: set<Ts>, ts: Ts) {
    exists p :: p in pending && p < ts
  }

  /** What the event must be, given the writes and answers so far, who is pending and who waits. */
  ghost predicate Prescribed(
    log: seq<Entry<Row>>, answers: seq<Answer>, pending: set<Ts>, waiting: set<Ts>, init: Row, ev: Event)
  {
    var ts := ev.req.ts;
    match ev.req.kind
    case Read =>
      && ev.rc == (if WrittenAbove(log, ts) then Abort else if PendingBelow(pending, ts) then WAIT else RCOK)
      && (if ev.rc == RCOK
          then |ev.answers| == 1 && ev.answers[0].reader == ts && LatestBelow(log, init, ts, ev.answers[0].row)
          else ev.answers == [])
    case Prewrite =>
      ev.rc == (if WrittenAbove(log, ts) || ReadAbove(answers, ts) then Abort else RCOK) && ev.answers == []
    case Write => ev.rc == RCOK && Woken(pending - {ts}, waiting, ev.answers)
    case Cancel => ev.rc == RCOK && Woken(pending - {ts}, waiting, ev.answers)
  }

  /** Exactly the waiting reads with no older prewrite left are answered. */
  ghost predicate Woken(pending: set<Ts>, waiting: set<Ts>, answers: seq<Answer>) {
    forall r :: r in Readers(answers) <==> r in waiting && !PendingBelow(pending, r)
  }

  /** The row's queues and its cached read timestamp say the same as the events. */
  ghost predicate Tracks(w: World, pending: set<Ts>, waiting: set<Ts>) {
    && (forall t :: t in w.row.preReq <==> t in pending)
    && (forall t :: t in w.row.readReq <==> t in waiting)
    && (w.row.rts == 0 || w.row.rts in Readers(w.answers))
  }

  lemma PastGrows(past: seq<Event>, ev: Event)
    ensures Pending(past + [ev]) == PendingAfter(Pending(past), ev)
    ensures Waiting(past + [ev]) == WaitingAfter(Waiting(past), ev)
  {
    assert (past + [ev])[..|past + [ev]| - 1] == past;
  }

  lemma WtsIsGreatest(w: World, init: Row, ts: Ts)
    requires Current(w, init)
    ensures ts < w.row.wts <==> WrittenAbove(w.log, ts)
  {
    if w.log != [] {
      LastIsGreatest(w.log);
      assert w.log[|w.log| - 1] in w.log;
    }
  }

  lemma RtsIsGreatest(w: World, init: Row, ts: Ts)
    requires Inv(w, init) && (w.row.rts == 0 || w.row.rts in Readers(w.answers))
    ensures ts < w.row.rts <==> ReadAbove(w.answers, ts)
  {
    if ts < w.row.rts {
      var a :| a in w.answers && a.reader == w.row.rts;
    }
    if ReadAbove(w.answers, ts) {
      var a :| a in w.answers && a.reader > ts;
      assert Final(w, init, a);
    }
  }

  lemma LeastIsBelow(q: seq<Ts>, pending: set<Ts>, ts: Ts)
    requires forall t :: t in q <==> t in pending
    ensures Least(q) < ts <==> PendingBelow(pending, ts)
  {
  }

  lemma ReadReply(w: World, init: Row, pending: set<Ts>, waiting: set<Ts>, req: Request)
    requires Inv(w, init) && Tracks(w, pending, waiting) && Admissible(w, req) && req.kind == Read
    ensures Prescribed(w.log, w.answers, pending, waiting, init, Reply(w, req))
  {
    WtsIsGreatest(w, init, req.ts);
    LeastIsBelow(w.row.preReq, pending, req.ts);
    if w.row.wts <= req.ts {
      WtsIsLogged(w, init, req.ts);
      BaseIsLatest(w, init, req.ts);
    }
  }

  lemma ReadTracks(w: World, pending: set<Ts>, waiting: set<Ts>, req: Request)
    requires Tracks(w, pending, waiting) && Admissible(w, req) && req.kind == Read
    ensures Tracks(Step(w, req), PendingAfter(pending, Reply(w, req)), WaitingAfter(waiting, Reply(w, req)))
  {
    var w', ev := Step(w, req), Reply(w, req);
    if ev.rc == RCOK {
      assert ev.answers == [Answer(req.ts, w.row.base)];
      assert Readers(ev.answers) == {req.ts};
      assert Answer(req.ts, w.row.base) in w'.answers;
    } else {
      assert Readers(ev.answers) == {} && w'.answers == w.answers;
    }
    KeptReaders(w.answers, ev.answers);
  }

  lemma KeptReaders(answers: seq<Answer>, more: seq<Answer>)
    ensures Readers(answers + more) == Readers(answers) + Readers(more)
  {
  }

  lemma PrewriteReply(w: World, init: Row, pending: set<Ts>, waiting: set<Ts>, req: Request)
    requires Inv(w, init) && Tracks(w, pending, waiting) && req.kind == Prewrite
    ensures Prescribed(w.log, w.answers, pending, waiting, init, Reply(w, req))
  {
    WtsIsGreatest(w, init, req.ts);
    RtsIsGreatest(w, init, req.ts);
  }

  lemma PrewriteTracks(w: World, pending: set<Ts>, waiting: set<Ts>, req: Request)
    requires Tracks(w, pending, waiting) && req.kind == Prewrite
    ensures Tracks(Step(w, req), PendingAfter(pending, Reply(w, req)), WaitingAfter(waiting, Reply(w, req)))
  {
    assert Step(w, req).answers == w.answers;
    assert Readers(Reply(w, req).answers) == {};
  }

  /** The world in which a write has been applied, or a prewrite cancelled, and nobody woken yet. */
  ghost function Settled(w: World, req: Request): World {
    if req.kind == Write then Written(w, req.ts, req.row) else w.(row := w.row.(preReq := Remove(w.row.preReq, req.ts)))
  }

  lemma FinishSettles(w: World, init: Row, req: Request)
    requires Inv(w, init) && Admissible(w, req) && (req.kind == Write || req.kind == Cancel)
    ensures Settling(Settled(w, req).row, req.ts) && Access(w.row, req) == UpdateBuffer(Settled(w, req).row)
    ensures forall t :: t in Settled(w, req).row.preReq <==> t in w.row.preReq && t != req.ts
  {
    RemoveDistinct(w.row.preReq, req.ts);
    if req.kind == Write { WrittenIsCurrent(w, init, req); } else { CancelSettles(w, init, req.ts); }
  }

  lemma {:induction false} GreatestIsMember(q: seq<Ts>, floor: Ts)
    ensures Greatest(q, floor) == floor || Greatest(q, floor) in q
    decreases |q|
  {
    if q != [] {
      GreatestIsMember(q[1..], Max(floor, q[0]));
    }
  }

  lemma WakeReply(s: State, gone: Ts, pending: set<Ts>, waiting: set<Ts>)
    requires Settling(s, gone)
    requires (forall t :: t in s.preReq <==> t in pending) && (forall t :: t in s.readReq <==> t in waiting)
    ensures var o := UpdateBuffer(s);
            && o.rc == RCOK && Woken(pending, waiting, o.answers) && o.state.preReq == s.preReq
            && (forall t :: t in o.state.readReq <==> t in waiting && t !in Readers(o.answers))
            && (o.state.rts == s.rts || o.state.rts in Readers(o.answers))
  {
    UpdateBufferIsOnePass(s, gone);
    var ready := Ready(s.readReq, Least(s.preReq));
    GreatestIsMember(ready, s.rts);
    CopiesReaders(ready, s.base);
    forall r ensures r in ready <==> r in waiting && !PendingBelow(pending, r) {
      LeastIsBelow(s.preReq, pending, r);
    }
  }

  lemma CopiesReaders(readers: seq<Ts>, row: Row)
    ensures forall r :: r in Readers(Copies(readers, row)) <==> r in readers
  {
    CopiesMembers(readers, row);
    forall r ensures r in Readers(Copies(readers, row)) <==> r in readers {
      assert r in readers ==> Answer(r, row) in Copies(readers, row);
    }
  }

  lemma FinishReply(w: World, init: Row, pending: set<Ts>, waiting: set<Ts>, req: Request)
    requires Inv(w, init) && Tracks(w, pending, waiting) && Admissible(w, req)
    requires req.kind == Write || req.kind == Cancel
    ensures Prescribed(w.log, w.answers, pending, waiting, init, Reply(w, req))
    ensures Tracks(Step(w, req), PendingAfter(pending, Reply(w, req)), WaitingAfter(waiting, Reply(w, req)))
  {
    FinishSettles(w, init, req);
    WakeReply(Settled(w, req).row, req.ts, pending - {req.ts}, waiting);
    KeptReaders(w.answers, Reply(w, req).answers);
  }

  lemma StepReplies(w: World, init: Row, pending: set<Ts>, waiting: set<Ts>, req: Request)
    requires Inv(w, init) && Tracks(w, pending, waiting) && Admissible(w, req)
    ensures Prescribed(w.log, w.answers, pending, waiting, init, Reply(w, req))
    ensures Tracks(Step(w, req), PendingAfter(pending, Reply(w, req)), WaitingAfter(waiting, Reply(w, req)))
  {
    match req.kind
    case Read =>
      ReadReply(w, init, pending, waiting, req);
      ReadTracks(w, pending, waiting, req);
    case Prewrite =>
      PrewriteReply(w, init, pending, waiting, req);
      PrewriteTracks(w, pending, waiting, req);
    case Write => FinishReply(w, init, pending, waiting, req);
    case Cancel => FinishReply(w, init, pending, waiting, req);
  }

  lemma {:induction false} RunTracks(w: World, init: Row, past: seq<Event>, reqs: seq<Request>)
    requires Inv(w, init) && Tracks(w, Pending(past), Waiting(past)) && AdmissibleRun(w, reqs)
    ensures Inv(Run(w, reqs), init)
    ensures var past' := past + Events(w, reqs); Tracks(Run(w, reqs), Pending(past'), Waiting(past'))
    decreases |reqs|
  {
    if reqs == [] {
      assert past + [] == past;
    } else {
      var w', ev := Step(w, reqs[0]), Reply(w, reqs[0]);
      StepReplies(w, init, Pending(past), Waiting(past), reqs[0]);
      StepKeepsInv(w, init, reqs[0]);
      PastGrows(past, ev);
      RunTracks(w', init, past + [ev], reqs[1..]);
      Regroup(past, [ev], Events(w', reqs[1..]));
    }
  }

  lemma StartTracks(init: Row)
    ensures Inv(Start(init), init) && Tracks(Start(init), Pending([]), Waiting([]))
  {
  }

  lemma ReachableTracks(init: Row, reqs: seq<Request>)
    requires AdmissibleRun(Start(init), reqs)
    ensures var w, past := Run(Start(init), reqs), Events(Start(init), reqs);
            Inv(w, init) && Tracks(w, Pending(past), Waiting(past))
  {
    StartTracks(init);
    RunTracks(Start(init), init, [], reqs);
    assert [] + Events(Start(init), reqs) == Events(Start(init), reqs);
  }

  /**
   * The next request of any run gets the reply prescribed by the log, the answers and the replies so far. A read is
   * refused exactly if a write above it was applied, and told to wait exactly if an unfinished prewrite is below it; a
   * prewrite is let in exactly if no read and no write above it was answered; a write or cancel answers exactly the
   * waiting reads that no unfinished prewrite is below.
   */
  lemma RepliesAreExact(init: Row, reqs: seq<Request>, req: Request)
    requires AdmissibleRun(Start(init), reqs) && Admissible(Run(Start(init), reqs), req)
    ensures var w, past := Run(Start(init), reqs), Events(Start(init), reqs);
            Prescribed(w.log, w.answers, Pending(past), Waiting(past), init, Reply(w, req))
  {
    var past := Events(Start(init), reqs);
    ReachableTracks(init, reqs);
    StepReplies(Run(Start(init), reqs), init, Pending(past), Waiting(past), req);
  }

  /** The row's prewrite queue holds exactly the accepted, unfinished prewrites, its read queue the unanswered reads. */
  lemma QueuesAreThoseTold(init: Row, reqs: seq<Request>, ts: Ts)
    requires AdmissibleRun(Start(init), reqs)
    ensures var s, past := Run(Start(init), reqs).row, Events(Start(init), reqs);
            (ts in s.preReq <==> ts in Pending(past)) && (ts in s.readReq <==> ts in Waiting(past))
  {
    ReachableTracks(init, reqs);
  }
}
