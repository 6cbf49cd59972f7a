/**
 * History recycling cannot be observed: a row that recycles gives every request of an admissible run the return
 * code and the answers of a row that keeps every version and every read for ever.
 */
module MvccRecycling {
  import opened Types
  import opened History
  import opened Queues
  import opened MvccSpec
  import opened MvccStability

  datatype Reply = Reply(rc: RC, answers: seq<Answer>)

  ghost function Replies(w: World, reqs: seq<Request>, limits: Limits): seq<Reply>
    decreases |reqs|
  {
    if reqs == [] then []
    else
      var o := Access(w.row, reqs[0], limits);
      [Reply(o.rc, o.answers)] + Replies(Step(w, reqs[0], limits), reqs[1..], limits)
  }

  /** The same requests served by `access` without its recycling part. */
  ghost function RepliesWithoutRecycling(s: State, reqs: seq<Request>, limits: Limits): seq<Reply>
    decreases |reqs|
  {
    if reqs == [] then []
    else
      var o := Decide(s, reqs[0], limits);
      [Reply(o.rc, o.answers)] + RepliesWithoutRecycling(o.state, reqs[1..], limits)
  }

  /** `h` is `full` less a tail that lies below `floor`. */
  ghost predicate Trimmed<R>(h: seq<Entry<R>>, full: seq<Entry<R>>, floor: Ts) {
    && h <= full
    && forall i :: |h| <= i < |full| ==> full[i].ts < floor
  }

  /** `s` is the recycled form of `full`. Once versions are gone, an old one is kept and the base row not consulted. */
  ghost predicate Shadows(s: State, full: State, floor: Ts) {
    && s.readReq == full.readReq
    && s.preReq == full.preReq
    && Trimmed(s.readHis, full.readHis, floor)
    && Trimmed(s.writeHis, full.writeHis, floor)
    && if |s.writeHis| == |full.writeHis| then s.base == full.base
       else s.writeHis != [] && s.writeHis[|s.writeHis| - 1].ts < floor
  }

  lemma NewerByPrefix<R>(h: seq<Entry<R>>, full: seq<Entry<R>>, ts: Ts)
    requires h <= full && (|h| < |full| ==> full[|h|].ts <= ts)
    ensures Newer(h, ts) == Newer(full, ts)
  {
    if h != [] && h[0].ts > ts {
      NewerByPrefix(h[1..], full[1..], ts);
    }
  }

  lemma TrimmedInsert<R>(h: seq<Entry<R>>, full: seq<Entry<R>>, floor: Ts, e: Entry<R>)
    requires Trimmed(h, full, floor) && floor <= e.ts
    ensures Trimmed(Insert(h, e), Insert(full, e), floor)
  {
    NewerByPrefix(h, full, e.ts);
    var n := Newer(h, e.ts);
    assert full[n..] == h[n..] + full[|h|..];
    assert Insert(full, e) == Insert(h, e) + full[|h|..];
  }

  lemma TrimmedCovers<R>(h: seq<Entry<R>>, full: seq<Entry<R>>, floor: Ts, lo: Ts, hi: Ts)
    requires Trimmed(h, full, floor) && floor <= lo
    ensures Covered(h, lo, hi) <==> Covered(full, lo, hi)
  {
    if Covered(h, lo, hi) {
      var i :| 0 <= i < |h| && lo < h[i].ts < hi;
      assert full[i] == h[i];
    }
    if Covered(full, lo, hi) {
      var i :| 0 <= i < |full| && lo < full[i].ts < hi;
      assert h[i] == full[i];
    }
  }

  lemma SameLookup(s: State, full: State, floor: Ts, ts: Ts)
    requires Shadows(s, full, floor) && floor <= ts
    ensures Lookup(s, ts) == Lookup(full, ts)
  {
    NewerByPrefix(s.writeHis, full.writeHis, ts);
  }

  lemma {:induction false} SameAnswers(s: State, full: State, floor: Ts, readers: seq<Ts>)
    requires Shadows(s, full, floor) && forall r :: r in readers ==> floor <= r
    ensures Answers(s, readers) == Answers(full, readers)
  {
    if readers != [] {
      assert readers[0] in readers && forall r :: r in readers[1..] ==> r in readers;
      SameLookup(s, full, floor, readers[0]);
      SameAnswers(s, full, floor, readers[1..]);
    }
  }

  lemma SameConflicts(s: State, full: State, floor: Ts, ts: Ts)
    requires Shadows(s, full, floor) && floor <= ts && forall p :: p in s.preReq ==> floor <= p
    ensures ReadConflict(s, ts) <==> ReadConflict(full, ts)
    ensures PrewriteConflict(s, ts) <==> PrewriteConflict(full, ts)
  {
    forall p | p in s.preReq ensures Separates(s, p, ts) <==> Separates(full, p, ts) {
      TrimmedCovers(s.writeHis, full.writeHis, floor, p, ts);
    }
    forall r: Ts ensures Separates(s, ts, r) <==> Separates(full, ts, r) {
      TrimmedCovers(s.writeHis, full.writeHis, floor, ts, r);
    }
    if PrewriteConflict(s, ts) {
      var i :| 0 <= i < |s.readHis| && Separates(s, ts, s.readHis[i].ts);
      assert Separates(full, ts, full.readHis[i].ts);
    }
    if PrewriteConflict(full, ts) {
      var i :| 0 <= i < |full.readHis| && Separates(full, ts, full.readHis[i].ts);
      assert Separates(s, ts, s.readHis[i].ts);
    }
  }

  lemma {:induction false} SameRecords(h: seq<Entry<()>>, full: seq<Entry<()>>, floor: Ts, readers: seq<Ts>)
    requires Trimmed(h, full, floor) && forall r :: r in readers ==> floor <= r
    ensures Trimmed(RecordReads(h, readers), RecordReads(full, readers), floor)
    decreases |readers|
  {
    if readers != [] {
      assert readers[0] in readers && forall r :: r in readers[1..] ==> r in readers;
      TrimmedInsert(h, full, floor, Entry(readers[0], ()));
      SameRecords(Insert(h, Entry(readers[0], ())), Insert(full, Entry(readers[0], ())), floor, readers[1..]);
    }
  }

  lemma SameWake(s: State, full: State, floor: Ts)
    requires Shadows(s, full, floor) && forall r :: r in s.readReq ==> floor <= r
    ensures WakeReaders(s).answers == WakeReaders(full).answers
    ensures Shadows(WakeReaders(s).state, WakeReaders(full).state, floor)
  {
    var ready := Ready(s.readReq, Least(s.preReq));
    SameAnswers(s, full, floor, ready);
    SameRecords(s.readHis, full.readHis, floor, ready);
  }

  lemma ShadowedInsert(s: State, full: State, floor: Ts, e: Entry<Row>, preReq: seq<Ts>)
    requires Shadows(s, full, floor) && floor <= e.ts
    ensures Shadows(s.(writeHis := Insert(s.writeHis, e), preReq := preReq),
                    full.(writeHis := Insert(full.writeHis, e), preReq := preReq), floor)
  {
    TrimmedInsert(s.writeHis, full.writeHis, floor, e);
  }

  lemma SameRead(s: State, full: State, floor: Ts, req: Request, limits: Limits)
    requires Shadows(s, full, floor) && floor <= req.ts && req.kind == Read
    requires forall p :: p in s.preReq ==> floor <= p
    ensures Decide(s, req, limits).rc == Decide(full, req, limits).rc
    ensures Decide(s, req, limits).answers == Decide(full, req, limits).answers
    ensures Shadows(Decide(s, req, limits).state, Decide(full, req, limits).state, floor)
  {
    SameConflicts(s, full, floor, req.ts);
    SameLookup(s, full, floor, req.ts);
    TrimmedInsert(s.readHis, full.readHis, floor, Entry(req.ts, ()));
  }

  /** One request, decided alike on a row and on its recycled form. */
  lemma SameDecision(s: State, full: State, floor: Ts, req: Request, limits: Limits)
    requires Shadows(s, full, floor) && floor <= req.ts
    requires forall p :: p in s.preReq ==> floor <= p
    requires forall r :: r in s.readReq ==> floor <= r
    ensures Decide(s, req, limits).rc == Decide(full, req, limits).rc
    ensures Decide(s, req, limits).answers == Decide(full, req, limits).answers
    ensures Shadows(Decide(s, req, limits).state, Decide(full, req, limits).state, floor)
  {
    match req.kind
    case Read => SameRead(s, full, floor, req, limits);
    case Prewrite =>
      SameConflicts(s, full, floor, req.ts);
    case Write =>
      var e, preReq := Entry(req.ts, req.row), Remove(s.preReq, req.ts);
      ShadowedInsert(s, full, floor, e, preReq);
      SameWake(s.(writeHis := Insert(s.writeHis, e), preReq := preReq),
               full.(writeHis := Insert(full.writeHis, e), preReq := preReq), floor);
    case Cancel =>
      var preReq := Remove(s.preReq, req.ts);
      SameWake(s.(preReq := preReq), full.(preReq := preReq), floor);
  }

  lemma RecycleStaysShadow(s: State, full: State, floor: Ts, limits: Limits, minTs: Ts)
    requires Shadows(s, full, floor) && Descending(s.readHis) && Descending(s.writeHis) && minTs <= floor
    ensures Shadows(Recycle(s, limits, minTs), full, floor)
  {
    RecycleReadsStaysShadow(s, full, floor, minTs);
    RecycleWritesStaysShadow(RecycleReads(s, minTs), full, floor, minTs);
  }

  /** What is cut off a history lies below the threshold. */
  lemma KeepTrims<R>(h: seq<Entry<R>>, full: seq<Entry<R>>, floor: Ts, minTs: Ts)
    requires Trimmed(h, full, floor) && Descending(h) && minTs <= floor
    ensures Trimmed(h[..Keep(h, minTs)], full, floor)
  {
    var k := Keep(h, minTs);
    assert forall i :: k <= i < |h| ==> h[i].ts <= h[k - 1].ts;
  }

  lemma RecycleReadsStaysShadow(s: State, full: State, floor: Ts, minTs: Ts)
    requires Shadows(s, full, floor) && Descending(s.readHis) && minTs <= floor
    ensures Shadows(RecycleReads(s, minTs), full, floor)
  {
    KeepTrims(s.readHis, full.readHis, floor, minTs);
  }

  lemma RecycleWritesStaysShadow(s: State, full: State, floor: Ts, minTs: Ts)
    requires Shadows(s, full, floor) && Descending(s.writeHis) && minTs <= floor
    ensures Shadows(RecycleWrites(s, minTs), full, floor)
  {
    KeepTrims(s.writeHis, full.writeHis, floor, minTs);
  }

  lemma RaiseFloorStaysShadow(s: State, full: State, floor: Ts, floor': Ts)
    requires Shadows(s, full, floor) && floor <= floor'
    ensures Shadows(s, full, floor')
  {
  }

  lemma {:induction false} RecyclingIsInvisibleFrom(
    w: World, full: State, init: Row, reqs: seq<Request>, limits: Limits)
    requires Inv(w, init) && AdmissibleRun(w, reqs, limits) && Shadows(w.row, full, w.floor)
    ensures Replies(w, reqs, limits) == RepliesWithoutRecycling(full, reqs, limits)
    decreases |reqs|
  {
    if reqs != [] {
      var req := reqs[0];
      var w' := Step(w, req, limits);
      var o, f := Decide(w.row, req, limits), Decide(full, req, limits);
      SameDecision(w.row, full, w.floor, req, limits);
      StepKeepsInv(w, init, req, limits);
      if Recycles(o, limits) {
        AppliedKeepsInv(w, init, req, limits);
        RaiseFloorStaysShadow(o.state, f.state, w.floor, w'.floor);
        RecycleStaysShadow(o.state, f.state, w'.floor, limits, req.minTs);
      }
      assert Shadows(w'.row, f.state, w'.floor);
      RecyclingIsInvisibleFrom(w', f.state, init, reqs[1..], limits);
    }
  }

  /** Recycling is invisible, from a fresh row and for every admissible run. */
  lemma RecyclingIsInvisible(init: Row, reqs: seq<Request>, limits: Limits)
    requires AdmissibleRun(Start(init), reqs, limits)
    ensures Replies(Start(init), reqs, limits) == RepliesWithoutRecycling(Start(init).row, reqs, limits)
  {
    RecyclingIsInvisibleFrom(Start(init), Start(init).row, init, reqs, limits);
  }

  /** At most the oldest entry of a history is below `minTs`. */
  ghost predicate OneOld<R>(h: seq<Entry<R>>, minTs: Ts) {
    forall i :: 0 <= i < |h| - 1 ==> minTs <= h[i].ts
  }

  lemma KeepLeavesOneOld<R>(h: seq<Entry<R>>, minTs: Ts)
    requires Descending(h)
    ensures OneOld(h[..Keep(h, minTs)], minTs)
  {
  }

  lemma RecycleLeavesOneOld(s: State, minTs: Ts)
    requires Descending(s.readHis) && Descending(s.writeHis)
    ensures var s' := RecycleWrites(RecycleReads(s, minTs), minTs);
            OneOld(s'.readHis, minTs) && OneOld(s'.writeHis, minTs)
  {
    KeepLeavesOneOld(s.readHis, minTs);
    KeepLeavesOneOld(s.writeHis, minTs);
  }

  /**
   * Recycling does its work. After a request of any run that was carried out and found a history too long, at most one
   * version and one past read are older than the threshold, and after every request the base row holds the newest write
   * that has been recycled, or the initial row if none has.
   */
  lemma OldHistoryIsGone(init: Row, reqs: seq<Request>, limits: Limits, req: Request)
    requires AdmissibleRun(Start(init), reqs, limits) && Admissible(Run(Start(init), reqs, limits), req)
    ensures var w := Run(Start(init), reqs, limits);
            var w' := Step(w, req, limits);
            && BaseOk(w'.log, w'.row.writeHis, w'.row.base, init)
            && (Recycles(Decide(w.row, req, limits), limits) ==>
                  OneOld(w'.row.readHis, req.minTs) && OneOld(w'.row.writeHis, req.minTs))
  {
    var w := Run(Start(init), reqs, limits);
    RunKeepsInv(Start(init), init, reqs, limits);
    StepKeepsInv(w, init, req, limits);
    AppliedKeepsInv(w, init, req, limits);
    RecycleLeavesOneOld(Applied(w, req, limits).row, req.minTs);
  }
}
