/** Waiting and waking across many multi-version rows: no lost wake-up, no cycle of waits, always someone to run. */
module MvccProgress {
  import opened Types
  import opened Queues
  import opened MvccSpec
  import opened MvccStability

  type Key = int

  /** A request sent to one of the rows. */
  datatype Event = Event(key: Key, req: Request)

  type System = map<Key, World>

  function StartAll(rows: map<Key, Row>): System {
    map k | k in rows :: Start(rows[k])
  }

  ghost function Deliver(sys: System, ev: Event, limits: Limits): System
    requires ev.key in sys
  {
    sys[ev.key := Step(sys[ev.key], ev.req, limits)]
  }

  ghost predicate AdmissibleEvents(sys: System, evs: seq<Event>, limits: Limits)
    decreases |evs|
  {
    evs == [] ||
    (evs[0].key in sys && Admissible(sys[evs[0].key], evs[0].req)
     && AdmissibleEvents(Deliver(sys, evs[0], limits), evs[1..], limits))
  }

  ghost function After(sys: System, evs: seq<Event>, limits: Limits): System
    requires AdmissibleEvents(sys, evs, limits)
    decreases |evs|
  {
    if evs == [] then sys else After(Deliver(sys, evs[0], limits), evs[1..], limits)
  }

  /** `update_buffer` would keep `reader` buffered even if `writer` were the only prewrite pending. */
  ghost predicate HoldsUp(s: State, reader: Ts, writer: Ts) {
    reader in s.readReq && writer in s.preReq && reader !in Ready(s.readReq, Least([writer]))
  }

  ghost predicate WaitsFor(sys: System, reader: Ts, writer: Ts) {
    exists k :: k in sys && HoldsUp(sys[k].row, reader, writer)
  }

  ghost predicate Waiting(sys: System, ts: Ts) {
    exists k :: k in sys && ts in sys[k].row.readReq
  }

  /** Each transaction of the path waits for the next one. */
  ghost predicate WaitPath(sys: System, path: seq<Ts>) {
    |path| >= 2 ==> WaitsFor(sys, path[0], path[1]) && WaitPath(sys, path[1..])
  }

  lemma {:induction false} EveryRowKeepsInv(
    sys: System, rows: map<Key, Row>, evs: seq<Event>, limits: Limits)
    requires sys.Keys == rows.Keys && (forall k :: k in sys ==> Inv(sys[k], rows[k]))
    requires AdmissibleEvents(sys, evs, limits)
    ensures After(sys, evs, limits).Keys == rows.Keys
    ensures forall k :: k in rows ==> Inv(After(sys, evs, limits)[k], rows[k])
    decreases |evs|
  {
    if evs != [] {
      var k := evs[0].key;
      StepKeepsInv(sys[k], rows[k], evs[0].req, limits);
      EveryRowKeepsInv(Deliver(sys, evs[0], limits), rows, evs[1..], limits);
    }
  }

  /**
   * Wake-ups. After the prewrite behind a write or a cancel is gone, a buffered read is answered in that very call
   * when no older prewrite is left, and stays buffered otherwise.
   */
  lemma WakesExactlyTheUnblocked(s: State, r: Ts)
    requires r in s.readReq
    ensures var o := WakeReaders(s);
            && (Lookup(s, r) in o.answers <==> forall p :: p in s.preReq ==> r <= p)
            && (r in o.state.readReq <==> exists p :: p in s.preReq && p < r)
  {
    var m := Least(s.preReq);
    var ready := Ready(s.readReq, m);
    AnswersContain(s, ready, r);
    assert m < r ==> m in s.preReq;
  }

  lemma {:induction false} AnswersContain(s: State, readers: seq<Ts>, r: Ts)
    ensures Lookup(s, r) in Answers(s, readers) <==> r in readers
  {
    if readers != [] {
      AnswersContain(s, readers[1..], r);
      assert readers == [readers[0]] + readers[1..];
    }
  }

  lemma {:induction false} WaitPathDescends(sys: System, path: seq<Ts>)
    requires |path| >= 2 && WaitPath(sys, path)
    ensures path[|path| - 1] < path[0]
    decreases |path|
  {
    var k :| k in sys && HoldsUp(sys[k].row, path[0], path[1]);
    if |path| > 2 {
      WaitPathDescends(sys, path[1..]);
    }
  }

  /**
   * The readers-wait-for-writers relation over all rows has no cycle. A reader is held up by older writers only, so
   * this needs no run; that such a writer can always go on does.
   */
  lemma NoWaitCycle(sys: System, path: seq<Ts>)
    requires |path| >= 2 && path[0] == path[|path| - 1]
    ensures !WaitPath(sys, path)
  {
    if WaitPath(sys, path) {
      WaitPathDescends(sys, path);
    }
  }

  lemma {:induction false} OldestOf(s: set<Ts>) returns (m: Ts)
    requires s != {}
    ensures m in s && forall t :: t in s ==> m <= t
  {
    m :| m in s;
    if s != {m} {
      var rest := s - {m};
      var m' := OldestOf(rest);
      assert forall t :: t in s ==> t == m || t in rest;
      if m' < m { m := m'; }
    }
  }

  lemma OldestWaiterHasRunnableWriter(sys: System, ts: Ts)
    requires Waiting(sys, ts) && forall k :: k in sys ==> Waking(sys[k].row)
    ensures exists reader, writer :: WaitsFor(sys, reader, writer) && !Waiting(sys, writer)
  {
    var waiting := set k, t | k in sys && t in sys[k].row.readReq :: t;
    var k0 :| k0 in sys && ts in sys[k0].row.readReq;
    assert ts in waiting;
    var reader := OldestOf(waiting);
    var k :| k in sys && reader in sys[k].row.readReq;
    var writer :| writer in sys[k].row.preReq && writer < reader;
    assert HoldsUp(sys[k].row, reader, writer) by {
      assert writer in [writer];
    }
    assert Waiting(sys, writer) ==> writer in waiting;
    assert WaitsFor(sys, reader, writer) && !Waiting(sys, writer);
  }

  /**
   * Progress. In every reachable state of any number of rows, if some transaction's read is buffered then
   * some pending writer that holds a read up is itself not waiting on any row.
   */
  lemma SomeWriterCanRun(rows: map<Key, Row>, evs: seq<Event>, limits: Limits, ts: Ts)
    requires AdmissibleEvents(StartAll(rows), evs, limits)
    requires Waiting(After(StartAll(rows), evs, limits), ts)
    ensures var sys := After(StartAll(rows), evs, limits);
            exists reader, writer :: WaitsFor(sys, reader, writer) && !Waiting(sys, writer)
  {
    EveryRowKeepsInv(StartAll(rows), rows, evs, limits);
    OldestWaiterHasRunnableWriter(After(StartAll(rows), evs, limits), ts);
  }
}
