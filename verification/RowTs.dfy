/** `Row_ts` itself, with every pass of `update_buffer` and its write replay. */
module RowTs {
  import opened Types
  import opened History
  import opened Queues
  import opened TsSpec

  /** `debuffer_req(W_REQ, ts)`. */
  method TakeReadyWrites(queue: seq<Entry<Row>>, m: Ts) returns (ready: seq<Entry<Row>>, blocked: seq<Entry<Row>>)
    ensures ready == ReadyWrites(queue, m) && blocked == BlockedWrites(queue, m)
  {
    ready, blocked := [], [];
    for i := 0 to |queue|
      invariant ReadyWrites(queue, m) == ReadyWrites(queue[i..], m) + ready
      invariant BlockedWrites(queue, m) == blocked + BlockedWrites(queue[i..], m)
    {
      SplitStep(queue[i..], m);
      assert queue[i..][1..] == queue[i + 1..];
      if queue[i].ts <= m {
        Regroup(ReadyWrites(queue[i + 1..], m), [queue[i]], ready);
        ready := [queue[i]] + ready;
      } else {
        Regroup(blocked, [queue[i]], BlockedWrites(queue[i + 1..], m));
        blocked := blocked + [queue[i]];
      }
    }
  }

  lemma SplitStep(q: seq<Entry<Row>>, m: Ts)
    requires q != []
    ensures ReadyWrites(q, m) == if q[0].ts <= m then ReadyWrites(q[1..], m) + [q[0]] else ReadyWrites(q[1..], m)
    ensures BlockedWrites(q, m) == if q[0].ts <= m then BlockedWrites(q[1..], m) else [q[0]] + BlockedWrites(q[1..], m)
  {
  }

  /** The loop over the ready writes: drop each one's prewrite and pick the oldest. */
  method DropPrewrites(queue: seq<Ts>, writes: seq<Entry<Row>>) returns (queue': seq<Ts>, young: Option<Entry<Row>>)
    requires Backed(writes, queue)
    ensures queue' == RemoveAll(queue, writes) && young == Oldest(writes)
    ensures young.Some? ==> young.value in writes
    ensures forall e :: e in writes ==> YoungTs(young) <= e.ts
  {
    queue' := queue;
    var youngTs: Ts := UINT64_MAX;
    young := None;
    for i := 0 to |writes|
      invariant Backed(writes[i..], queue')
      invariant RemoveAll(queue, writes) == RemoveAll(queue', writes[i..])
      invariant young == Oldest(writes[..i]) && youngTs == YoungTs(young)
    {
      var req := writes[i];
      BackedTail(writes[i..], queue');
      assert writes[i..][1..] == writes[i + 1..];
      queue' := Unlink(queue', req.ts);
      assert writes[..i + 1][..i] == writes[..i];
      if req.ts < youngTs {
        youngTs, young := req.ts, Some(req);
      }
    }
    assert writes[..|writes|] == writes;
    OldestIsLeast(writes);
  }

  /** Every buffered write has its own prewrite pending. */
  ghost predicate Backed(writes: seq<Entry<Row>>, pre: seq<Ts>) {
    Apart(writes) && (forall i :: 0 <= i < |writes| ==> writes[i].ts in pre)
  }

  lemma BackedTail(writes: seq<Entry<Row>>, pre: seq<Ts>)
    requires writes != [] && Backed(writes, pre)
    ensures writes[0].ts in pre && Backed(writes[1..], Remove(pre, writes[0].ts))
  {
  }

  lemma SplitMembers(q: seq<Entry<Row>>, m: Ts)
    ensures forall e :: e in ReadyWrites(q, m) <==> e in q && e.ts <= m
    ensures forall e :: e in BlockedWrites(q, m) <==> e in q && e.ts > m
  {
  }

  ghost predicate Apart(writes: seq<Entry<Row>>) {
    forall i, j :: 0 <= i < j < |writes| ==> writes[i].ts != writes[j].ts
  }

  lemma {:induction false} SplitApart(q: seq<Entry<Row>>, m: Ts)
    requires Apart(q)
    ensures Apart(ReadyWrites(q, m)) && Apart(BlockedWrites(q, m))
  {
    if q != [] {
      SplitApart(q[1..], m);
      SplitMembers(q[1..], m);
      forall e | e in q[1..] ensures e.ts != q[0].ts {
        var j: nat :| j < |q[1..]| && q[1..][j] == e;
        assert q[j + 1] == e;
      }
      BothEnds(ReadyWrites(q[1..], m), q[0]);
      BothEnds(BlockedWrites(q[1..], m), q[0]);
    }
  }

  lemma BothEnds(q: seq<Entry<Row>>, e: Entry<Row>)
    requires Apart(q)
    ensures (forall f :: f in q ==> f.ts != e.ts) ==> Apart(q + [e]) && Apart([e] + q)
  {
    assert forall i :: 0 <= i < |q| ==> q[i] in q;
  }

  lemma SplitBacked(q: seq<Entry<Row>>, m: Ts, pre: seq<Ts>)
    requires Backed(q, pre)
    ensures Backed(ReadyWrites(q, m), pre) && Backed(BlockedWrites(q, m), pre)
  {
    SplitApart(q, m);
    SplitMembers(q, m);
    var ready, blocked := ReadyWrites(q, m), BlockedWrites(q, m);
    assert forall i :: 0 <= i < |ready| ==> ready[i] in ready;
    assert forall i :: 0 <= i < |blocked| ==> blocked[i] in blocked;
  }

  lemma {:induction false} RemoveAllKeeps(pre: seq<Ts>, writes: seq<Entry<Row>>, ts: Ts)
    requires ts in pre && forall e :: e in writes ==> e.ts != ts
    ensures ts in RemoveAll(pre, writes)
    decreases |writes|
  {
    if writes != [] {
      assert writes[0] in writes && forall e :: e in writes[1..] ==> e in writes;
      RemoveAllKeeps(Remove(pre, writes[0].ts), writes[1..], ts);
    }
  }

  lemma ReplayKeepsBacked(q: seq<Entry<Row>>, m: Ts, pre: seq<Ts>)
    requires Backed(q, pre)
    ensures Backed(ReadyWrites(q, m), pre) && Backed(BlockedWrites(q, m), RemoveAll(pre, ReadyWrites(q, m)))
  {
    SplitBacked(q, m, pre);
    SplitMembers(q, m);
    var blocked, ready := BlockedWrites(q, m), ReadyWrites(q, m);
    forall i | 0 <= i < |blocked| ensures blocked[i].ts in RemoveAll(pre, ready) {
      assert blocked[i] in blocked;
      RemoveAllKeeps(pre, ready, blocked[i].ts);
    }
  }

  lemma {:induction false} RemoveAllMembers(pre: seq<Ts>, writes: seq<Entry<Row>>, ts: Ts)
    requires Distinct(pre)
    ensures ts in RemoveAll(pre, writes) <==> ts in pre && forall e :: e in writes ==> e.ts != ts
    decreases |writes|
  {
    if writes != [] {
      assert writes == [writes[0]] + writes[1..];
      RemoveDistinct(pre, writes[0].ts);
      RemoveAllMembers(Remove(pre, writes[0].ts), writes[1..], ts);
    }
  }

  /** A buffered write that a replay takes out. */
  ghost predicate Due(s: State, e: Entry<Row>) {
    e in s.writeReq && e.ts <= s.minRts
  }

  /**
   * One replay takes out exactly the buffered writes that are due, with their prewrites, and applies the oldest of them
   * alone. A write with the largest timestamp there is, is taken out and not applied.
   */
  lemma ReplayAppliesOldest(s: State)
    requires Distinct(s.preReq)
    ensures var s' := ReplayWrites(s);
            && (forall e :: e in s'.writeReq <==> e in s.writeReq && !Due(s, e))
            && (forall t :: t in s'.preReq <==> t in s.preReq && forall e :: Due(s, e) ==> e.ts != t)
            && ((exists e :: Due(s, e) && e.ts < UINT64_MAX) ==>
                  exists e :: Due(s, e) && s'.base == e.row && s'.wts == Max(s.wts, e.ts)
                    && forall f :: Due(s, f) ==> e.ts <= f.ts)
            && ((forall e :: Due(s, e) ==> e.ts == UINT64_MAX) ==> s'.base == s.base && s'.wts == s.wts)
  {
    var ready := ReadyWrites(s.writeReq, s.minRts);
    SplitMembers(s.writeReq, s.minRts);
    OldestIsLeast(ready);
    forall t ensures t in RemoveAll(s.preReq, ready) <==> t in s.preReq && forall e :: e in ready ==> e.ts != t {
      RemoveAllMembers(s.preReq, ready, t);
    }
    assert forall e :: Due(s, e) <==> e in ready;
    if Oldest(ready).Some? {
      assert Due(s, Oldest(ready).value);
    }
  }

  lemma WritesReturnOk(s: State)
    ensures UpdateBuffer(s).rc == RCOK
    decreases |s.writeReq|
  {
  }

  lemma BackedPush(writes: seq<Entry<Row>>, pre: seq<Ts>, e: Entry<Row>)
    requires Backed(writes, pre) && e.ts in pre && forall f :: f in writes ==> f.ts != e.ts
    ensures Backed([e] + writes, pre)
  {
  }

  class RowManager {
    var wts: Ts
    var rts: Ts
    var minWts: Ts
    var minRts: Ts
    var minPts: Ts
    var readReq: seq<Ts>
    var writeReq: seq<Entry<Row>>
    var preReq: seq<Ts>
    var preqLen: nat
    var base: Row

    ghost function View(): State
      reads this
    {
      State(wts, rts, minWts, minRts, minPts, readReq, writeReq, preReq, base)
    }

    ghost predicate Valid()
      reads this
    {
      preqLen == |preReq| && Backed(writeReq, preReq)
    }

    constructor (row: Row)
      ensures Valid() && View() == Fresh(row)
    {
      wts, rts, minWts, minRts, minPts := 0, 0, UINT64_MAX, UINT64_MAX, UINT64_MAX;
      readReq, writeReq, preReq, preqLen, base := [], [], [], 0, row;
    }

    method BufferRead(ts: Ts)
      modifies this`readReq, this`minRts
      ensures readReq == [ts] + old(readReq) && minRts == Min(ts, old(minRts))
    {
      readReq := [ts] + readReq;
      if ts < minRts { minRts := ts; }
    }

    method BufferWrite(ts: Ts, row: Row)
      modifies this`writeReq, this`minWts
      ensures writeReq == [Entry(ts, row)] + old(writeReq) && minWts == Min(ts, old(minWts))
    {
      writeReq := [Entry(ts, row)] + writeReq;
      if ts < minWts { minWts := ts; }
    }

    method BufferPrewrite(ts: Ts)
      modifies this`preReq, this`preqLen, this`minPts
      ensures preReq == [ts] + old(preReq) && preqLen == old(preqLen) + 1 && minPts == Min(ts, old(minPts))
    {
      preReq, preqLen := [ts] + preReq, preqLen + 1;
      if ts < minPts { minPts := ts; }
    }

    /** Copy the row out to each reader, raising `rts`. */
    method ReadOut(ready: seq<Ts>) returns (answers: seq<Answer>)
      modifies this`rts
      ensures answers == Copies(ready, base) && rts == Greatest(ready, old(rts))
    {
      answers := [];
      for i := 0 to |ready|
        invariant Copies(ready, base) == answers + Copies(ready[i..], base)
        invariant Greatest(ready, old(rts)) == Greatest(ready[i..], rts)
      {
        assert ready[i..][1..] == ready[i + 1..];
        Regroup(answers, [Answer(ready[i], base)], Copies(ready[i + 1..], base));
        answers := answers + [Answer(ready[i], base)];
        if rts < ready[i] { rts := ready[i]; }
      }
    }

    /** The first half of a pass, once `min_pts` has risen. */
    method ServeReadQueue() returns (answers: seq<Answer>)
      modifies this`minPts, this`readReq, this`rts
      ensures View() == ServeReads(old(View())).state && answers == ServeReads(old(View())).answers
    {
      minPts := LeastOf(preReq);
      var ready, blocked := TakeReady(readReq, minPts);
      readReq := blocked;
      answers := ReadOut(ready);
    }

    /** Drop the prewrites of the writes that are ready and apply the oldest of them. */
    method Replay(ready: seq<Entry<Row>>, blocked: seq<Entry<Row>>)
      requires Backed(ready, preReq)
      modifies this`preReq, this`preqLen, this`writeReq, this`base, this`wts
      ensures preReq == RemoveAll(old(preReq), ready) && preqLen == |preReq| && writeReq == blocked
      ensures base == if Oldest(ready).Some? then Oldest(ready).value.row else old(base)
      ensures wts == if Oldest(ready).Some? then Max(old(wts), Oldest(ready).value.ts) else old(wts)
    {
      var young;
      preReq, young := DropPrewrites(preReq, ready);
      preqLen := |preReq|;
      writeReq := blocked;
      if young.Some? {
        base := young.value.row;
        if wts < young.value.ts { wts := young.value.ts; }
      }
    }

    /** The second half of a pass. */
    method ReplayWriteQueue() returns (replayed: bool)
      requires Valid()
      modifies this
      ensures Valid() && View() == ReplayWrites(old(View()))
      ensures replayed <==> ReadyWrites(old(writeReq), old(minRts)) != []
    {
      ReplayKeepsBacked(writeReq, minRts, preReq);
      var ready, blocked := TakeReadyWrites(writeReq, minRts);
      replayed := ready != [];
      if replayed {
        Replay(ready, blocked);
      }
    }

    /** `update_buffer`: passes go on as long as a write was replayed. */
    method UpdateBuffer() returns (answers: seq<Answer>)
      requires Valid()
      modifies this
      ensures Valid()
      ensures Outcome(View(), RCOK, answers) == TsSpec.UpdateBuffer(old(View()))
    {
      ghost var goal := TsSpec.UpdateBuffer(View());
      WritesReturnOk(View());
      var again;
      again, answers := Pass();
      while again
        invariant Valid()
        invariant goal.state == if again then TsSpec.UpdateBuffer(View()).state else View()
        invariant goal.answers == answers + if again then TsSpec.UpdateBuffer(View()).answers else []
        decreases again, |writeReq|
      {
        var copies;
        ghost var before := answers;
        again, copies := Pass();
        answers := answers + copies;
        Regroup(before, copies, if again then TsSpec.UpdateBuffer(View()).answers else []);
      }
    }

    /** One pass; another follows if a write was replayed. */
    method Pass() returns (again: bool, copies: seq<Answer>)
      requires Valid()
      modifies this
      ensures Valid() && (again ==> |writeReq| < |old(writeReq)|)
      ensures var o, rest := TsSpec.UpdateBuffer(old(View())), TsSpec.UpdateBuffer(View());
              && o.state == (if again then rest.state else View())
              && o.answers == copies + if again then rest.answers else []
    {
      again, copies := false, [];
      var newMinPts := LeastOf(preReq);
      if newMinPts <= minPts { return; }
      copies := ServeReadQueue();
      if copies == [] { return; }
      var newMinRts := LeastOf(readReq);
      if newMinRts <= minRts { return; }
      minRts := newMinRts;
      again := ReplayWriteQueue();
    }

    /** `debuffer_req(P_REQ, txn)`. */
    method DebufferPrewrite(ts: Ts)
      requires Valid() && ts in preReq && forall e :: e in writeReq ==> e.ts != ts
      modifies this`preReq, this`preqLen
      ensures Valid() && preReq == Remove(old(preReq), ts)
    {
      preReq := Unlink(preReq, ts);
      preqLen := preqLen - 1;
    }

    method AccessRead(ts: Ts) returns (rc: RC, answers: seq<Answer>)
      requires Valid()
      modifies this
      ensures Valid()
      ensures forall row, cur :: Outcome(View(), rc, answers) == TsSpec.Access(old(View()), Request(Read, ts, row, cur))
    {
      rc, answers := RCOK, [];
      if ts < wts {
        rc := Abort;
      } else if ts > minPts {
        BufferRead(ts);
        rc := WAIT;
      } else {
        answers := [Answer(ts, base)];
        if rts < ts { rts := ts; }
      }
    }

    method AccessPrewrite(ts: Ts) returns (rc: RC)
      requires Valid()
      modifies this
      ensures Valid()
      ensures forall row, cur :: Outcome(View(), rc, []) == TsSpec.Access(old(View()), Request(Prewrite, ts, row, cur))
    {
      rc := RCOK;
      if ts < rts || ts < wts {
        rc := Abort;
      } else {
        BufferPrewrite(ts);
      }
    }

    method AccessWrite(ts: Ts, row: Row, curRow: Row) returns (answers: seq<Answer>)
      requires Valid() && ts in preReq && forall e :: e in writeReq ==> e.ts != ts
      modifies this
      ensures Valid()
      ensures Outcome(View(), RCOK, answers) == TsSpec.Access(old(View()), Request(Write, ts, row, curRow))
    {
      answers := [];
      if ts > minPts {
        BackedPush(writeReq, preReq, Entry(ts, row));
        BufferWrite(ts, row);
      } else if ts > minRts {
        BackedPush(writeReq, preReq, Entry(ts, curRow));
        BufferWrite(ts, curRow);
      } else {
        base := row;
        if wts < ts { wts := ts; }
        DebufferPrewrite(ts);
        ghost var s := old(View());
        assert View() == s.(base := row, wts := Max(s.wts, ts), preReq := Remove(s.preReq, ts));
        answers := UpdateBuffer();
      }
    }

    method AccessCancel(ts: Ts) returns (answers: seq<Answer>)
      requires Valid() && ts in preReq && forall e :: e in writeReq ==> e.ts != ts
      modifies this
      ensures Valid()
      ensures forall row, cur ::
                Outcome(View(), RCOK, answers) == TsSpec.Access(old(View()), Request(Cancel, ts, row, cur))
    {
      DebufferPrewrite(ts);
      answers := UpdateBuffer();
    }

    /** `access`, under the row latch. A Write or Cancel needs the caller's prewrite pending and no write buffered. */
    method Access(req: Request) returns (rc: RC, answers: seq<Answer>)
      requires Valid()
      requires req.kind == Write || req.kind == Cancel ==>
                 req.ts in preReq && forall e :: e in writeReq ==> e.ts != req.ts
      modifies this
      ensures Valid()
      ensures Outcome(View(), rc, answers) == TsSpec.Access(old(View()), req)
    {
      rc, answers := RCOK, [];
      match req.kind {
        case Read =>
          rc, answers := AccessRead(req.ts);
        case Prewrite =>
          rc := AccessPrewrite(req.ts);
        case Write =>
          answers := AccessWrite(req.ts, req.row, req.curRow);
        case Cancel =>
          answers := AccessCancel(req.ts);
      }
    }
  }
}
