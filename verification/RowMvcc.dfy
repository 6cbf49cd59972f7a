/** `Row_mvcc` itself: the linked lists become sequence fields, the pointer walks become loops over indices. */
module RowMvcc {
  import opened Types
  import opened History
  import opened Queues
  import opened MvccSpec

  /** The walk of `insert_history`: past every newer entry, then link the new one in. */
  method InsertHistory<R>(queue: seq<Entry<R>>, e: Entry<R>) returns (queue': seq<Entry<R>>)
    ensures queue' == Insert(queue, e)
  {
    var i := 0;
    while i < |queue| && e.ts < queue[i].ts
      invariant 0 <= i <= |queue|
      invariant Newer(queue, e.ts) == i + Newer(queue[i..], e.ts)
    {
      i := i + 1;
    }
    queue' := queue[..i] + [e] + queue[i..];
  }

  /** The walk of `clear_history` from the tail. `latest` is the row of the newest entry removed. */
  method ClearHistory<R>(queue: seq<Entry<R>>, threshold: Ts) returns (queue': seq<Entry<R>>, latest: Option<R>)
    ensures queue' == queue[..Keep(queue, threshold)]
    ensures latest == if |queue'| < |queue| then Some(queue[|queue'|].row) else None
  {
    var his := |queue|;
    latest := None;
    assert queue[..his] == queue;
    while his >= 2 && queue[his - 2].ts < threshold
      invariant 0 <= his <= |queue|
      invariant Keep(queue, threshold) == Keep(queue[..his], threshold)
      invariant latest == if his < |queue| then Some(queue[his].row) else None
    {
      latest := Some(queue[his - 1].row);
      assert queue[..his][..his - 1] == queue[..his - 1];
      his := his - 1;
    }
    queue' := queue[..his];
  }

  /** The version walk of `access` and of `update_buffer`. */
  method FindVersion(writeHis: seq<Entry<Row>>, base: Row, ts: Ts) returns (a: Answer)
    ensures forall s: State :: s.writeHis == writeHis && s.base == base ==> a == Lookup(s, ts)
  {
    var i := 0;
    while i < |writeHis| && writeHis[i].ts > ts
      invariant 0 <= i <= |writeHis|
      invariant Newer(writeHis, ts) == i + Newer(writeHis[i..], ts)
    {
      i := i + 1;
    }
    a := if i == |writeHis| then Answer(ts, None, base) else Answer(ts, Some(writeHis[i].ts), writeHis[i].row);
  }

  class RowManager {
    var readHis: seq<Entry<()>>
    var writeHis: seq<Entry<Row>>
    var readReq: seq<Ts>
    var preReq: seq<Ts>
    var base: Row
    var whisLen: nat
    var rhisLen: nat
    var rreqLen: nat
    var preqLen: nat

    ghost function View(): State
      reads this
    {
      State(readHis, writeHis, readReq, preReq, base)
    }

    ghost predicate Valid()
      reads this
    {
      && whisLen == |writeHis| && rhisLen == |readHis| && rreqLen == |readReq| && preqLen == |preReq|
      && Descending(writeHis) && Descending(readHis)
    }

    constructor (row: Row)
      ensures Valid() && View() == State([], [], [], [], row)
    {
      readHis, writeHis, readReq, preReq, base := [], [], [], [], row;
      whisLen, rhisLen, rreqLen, preqLen := 0, 0, 0, 0;
    }

    /** `conflict(R_REQ, ts)`: only the youngest prewrite below the read is compared with the versions. */
    method ReadConflicts(ts: Ts) returns (c: bool)
      requires Valid()
      ensures c <==> ReadConflict(View(), ts)
    {
      var pts: Ts := 0;
      for i := 0 to |preReq|
        invariant pts == 0 || (pts in preReq && pts < ts)
        invariant forall k :: 0 <= k < i && preReq[k] < ts ==> preReq[k] <= pts
      {
        if preReq[i] < ts && preReq[i] > pts {
          pts := preReq[i];
        }
      }
      if pts == 0 {
        return false;
      }
      var covered := AnyVersionBetween(pts, ts);
      if covered {
        forall p | p in preReq && 0 < p < ts ensures Covered(writeHis, p, ts) {
          var i :| 0 <= i < |writeHis| && pts < writeHis[i].ts < ts;
        }
      } else {
        assert Separates(View(), pts, ts);
      }
      c := !covered;
    }

    /** `conflict(P_REQ, ts)`: only the oldest read above the prewrite is compared with the versions. */
    method PrewriteConflicts(ts: Ts) returns (c: bool)
      requires Valid()
      ensures c <==> PrewriteConflict(View(), ts)
    {
      var rts: Ts := 0;
      var i := 0;
      while i < |readHis| && readHis[i].ts > ts
        invariant 0 <= i <= |readHis|
        invariant forall k :: 0 <= k < i ==> readHis[k].ts > ts
        invariant rts == if i == 0 then 0 else readHis[i - 1].ts
      {
        rts := readHis[i].ts;
        i := i + 1;
      }
      if rts == 0 {
        return false;
      }
      var covered := AnyVersionBetween(ts, rts);
      if covered {
        forall k | 0 <= k < |readHis| && ts < readHis[k].ts ensures Covered(writeHis, ts, readHis[k].ts) {
          var j :| 0 <= j < |writeHis| && ts < writeHis[j].ts < rts;
        }
      } else {
        assert Separates(View(), ts, readHis[i - 1].ts);
      }
      c := !covered;
    }

    /** The scan of the versions that ends `conflict`. */
    method AnyVersionBetween(lo: Ts, hi: Ts) returns (found: bool)
      requires Valid()
      ensures found <==> Covered(writeHis, lo, hi)
    {
      var i := 0;
      while i < |writeHis| && writeHis[i].ts > lo
        invariant 0 <= i <= |writeHis|
        invariant forall k :: 0 <= k < i ==> writeHis[k].ts >= hi
      {
        if writeHis[i].ts < hi {
          return true;
        }
        i := i + 1;
      }
      found := false;
    }

    /** `debuffer_req(P_REQ, txn)`. */
    method DebufferPrewrite(ts: Ts)
      requires Valid() && ts in preReq
      modifies this`preReq, this`preqLen
      ensures Valid() && preReq == Remove(old(preReq), ts)
    {
      preReq := Unlink(preReq, ts);
      preqLen := preqLen - 1;
    }

    /** `debuffer_req(R_REQ, NULL)`: take out every read no pending prewrite is older than. */
    method DebufferReads() returns (ready: seq<Ts>)
      requires Valid()
      modifies this`readReq, this`rreqLen
      ensures Valid()
      ensures ready == Ready(old(readReq), Least(preReq)) && readReq == Blocked(old(readReq), Least(preReq))
    {
      var minPts := LeastOf(preReq);
      var blocked;
      ready, blocked := TakeReady(readReq, minPts);
      readReq, rreqLen := blocked, |blocked|;
    }

    /** `update_buffer`: answer and restart the reads that have become ready. */
    method UpdateBuffer() returns (answers: seq<Answer>)
      requires Valid()
      modifies this`readReq, this`rreqLen, this`readHis, this`rhisLen
      ensures Valid()
      ensures View() == WakeReaders(old(View())).state && answers == WakeReaders(old(View())).answers
    {
      var ready := DebufferReads();
      AnswersFrame(View(), old(View()), ready);
      answers := AnswerAll(ready);
    }

    method AnswerAll(ready: seq<Ts>) returns (answers: seq<Answer>)
      requires Valid()
      modifies this`readHis, this`rhisLen
      ensures Valid() && readHis == RecordReads(old(readHis), ready) && answers == Answers(old(View()), ready)
    {
      ghost var s := View();
      answers := [];
      for i := 0 to |ready|
        invariant Valid() && View() == s.(readHis := readHis)
        invariant RecordReads(readHis, ready[i..]) == RecordReads(s.readHis, ready)
        invariant Answers(s, ready) == answers + Answers(s, ready[i..])
      {
        assert ready[i..][1..] == ready[i + 1..];
        var a := AnswerRead(ready[i]);
        assert a == Lookup(s, ready[i]);
        Regroup(answers, [a], Answers(s, ready[i + 1..]));
        answers := answers + [a];
      }
    }

    /** Hands a reader its version and records the read. */
    method AnswerRead(ts: Ts) returns (a: Answer)
      requires Valid()
      modifies this`readHis, this`rhisLen
      ensures Valid() && a == Lookup(old(View()), ts) && readHis == Insert(old(readHis), Entry(ts, ()))
    {
      a := FindVersion(writeHis, base, ts);
      InsertKeepsDescending(readHis, Entry(ts, ()));
      readHis := InsertHistory(readHis, Entry(ts, ()));
      rhisLen := rhisLen + 1;
    }

    method RecycleReadHistory(minTs: Ts)
      requires Valid()
      modifies this`readHis, this`rhisLen
      ensures Valid() && View() == RecycleReads(old(View()), minTs)
    {
      if readHis != [] && readHis[|readHis| - 1].ts < minTs {
        var unused;
        readHis, unused := ClearHistory(readHis, minTs);
        rhisLen := |readHis|;
      }
    }

    method RecycleWriteHistory(minTs: Ts)
      requires Valid()
      modifies this`writeHis, this`whisLen, this`base
      ensures Valid() && View() == RecycleWrites(old(View()), minTs)
    {
      if whisLen > 1 && writeHis[whisLen - 2].ts < minTs {
        var latest;
        ghost var h := writeHis;
        writeHis, latest := ClearHistory(writeHis, minTs);
        assert |writeHis| == Keep(h, minTs) && writeHis == h[..Keep(h, minTs)];
        whisLen := |writeHis|;
        if latest.Some? {
          base := latest.value;
        }
      }
    }

    /** The recycling at the end of `access`. */
    method RecycleHistory(limits: Limits, minTs: Ts)
      requires Valid()
      modifies this`readHis, this`rhisLen, this`writeHis, this`whisLen, this`base
      ensures Valid() && View() == Recycle(old(View()), limits, minTs)
    {
      if whisLen > limits.recycleLen || rhisLen > limits.recycleLen {
        RecycleReadHistory(minTs);
        RecycleWriteHistory(minTs);
      }
    }

    /** `access`, under the row latch. A Write or Cancel needs the caller's prewrite to be pending. */
    method Access(req: Request, limits: Limits) returns (rc: RC, answers: seq<Answer>)
      requires Valid()
      requires req.kind == Write || req.kind == Cancel ==> req.ts in preReq
      modifies this
      ensures Valid()
      ensures var o := MvccSpec.Access(old(View()), req, limits);
              View() == o.state && rc == o.rc && answers == o.answers
    {
      rc, answers := RCOK, [];
      match req.kind {
        case Read =>
          rc, answers := ServeRead(req, limits);
        case Prewrite =>
          rc := ServePrewrite(req, limits);
        case Write =>
          answers := ServeWrite(req, limits);
        case Cancel =>
          DebufferPrewrite(req.ts);
          answers := UpdateBuffer();
      }
      if rc == RCOK {
        RecycleHistory(limits, req.minTs);
      }
    }

    method ServeRead(req: Request, limits: Limits) returns (rc: RC, answers: seq<Answer>)
      requires Valid() && req.kind == Read
      modifies this
      ensures Valid() && Outcome(View(), rc, answers) == Decide(old(View()), req, limits)
    {
      rc, answers := RCOK, [];
      var conf := ReadConflicts(req.ts);
      if conf && rreqLen < limits.maxReadReq {
        rc := WAIT;
        readReq, rreqLen := [req.ts] + readReq, rreqLen + 1;
      } else if conf {
        rc := Abort;
      } else {
        var a := AnswerRead(req.ts);
        answers := [a];
      }
    }

    method ServePrewrite(req: Request, limits: Limits) returns (rc: RC)
      requires Valid() && req.kind == Prewrite
      modifies this`preReq, this`preqLen
      ensures Valid() && Outcome(View(), rc, []) == Decide(old(View()), req, limits)
    {
      rc := RCOK;
      var conf := PrewriteConflicts(req.ts);
      if conf || preqLen >= limits.maxPreReq {
        rc := Abort;
      } else {
        preReq, preqLen := [req.ts] + preReq, preqLen + 1;
      }
    }

    method ServeWrite(req: Request, ghost limits: Limits) returns (answers: seq<Answer>)
      requires Valid() && req.kind == Write && req.ts in preReq
      modifies this
      ensures Valid() && Outcome(View(), RCOK, answers) == Decide(old(View()), req, limits)
    {
      InsertKeepsDescending(writeHis, Entry(req.ts, req.row));
      writeHis := InsertHistory(writeHis, Entry(req.ts, req.row));
      whisLen := whisLen + 1;
      DebufferPrewrite(req.ts);
      answers := UpdateBuffer();
    }
  }
}
