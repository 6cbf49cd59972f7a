/**
 * What MaaT's rows contain. Seen from outside, a run of transactions works on a plain store: each transaction collects
 * a write buffer, a commit installs the whole buffer at once, and nothing else changes a row.
 */
module MaatStore {
  import opened Types
  import opened MaatSpec
  import opened MaatOrder

  datatype Store = Store(contents: map<Key, Row>, buffers: map<TxnId, map<Key, Row>>)

  /** One action on the store; `committed` is the verdict its caller was given. */
  function Observe(st: Store, a: Action, committed: bool): Store {
    match a
    case Begin(id) => st.(buffers := st.buffers[id := map[]])
    case Touch(id, key, kind, data) =>
      if kind == WR && id in st.buffers then st.(buffers := st.buffers[id := st.buffers[id][key := data]]) else st
    case Finish(id) =>
      Store(if committed && id in st.buffers then st.contents + st.buffers[id] else st.contents, st.buffers - {id})
    case GiveUp(id) => st.(buffers := st.buffers - {id})
  }

  /** The verdict of an attempt to commit. */
  predicate Commits(s: Sys, a: Action)
    requires Allowed(s, a)
  {
    a.Finish? &&
    var v := Validate(s.table, a.id, s.txns[a.id].gathered);
    v.rc == RCOK && FindBound(v.table, a.id).rc == RCOK
  }

  ghost function ObserveAll(s: Sys, st: Store, run: seq<Action>): Store
    requires AllowedRun(s, run)
    decreases |run|
  {
    if run == [] then st else ObserveAll(Step(s, run[0]), Observe(st, run[0], Commits(s, run[0])), run[1..])
  }

  /** Each transaction's rows are listed once and exist. */
  ghost predicate Listed(s: Sys, x: Txn) {
    Unique(x.order) && (forall k :: k in x.order <==> k in x.accesses) && x.accesses.Keys <= s.rows.Keys
  }

  ghost predicate BufferOk(x: Txn, buffer: map<Key, Row>) {
    forall k ::
      && (k in buffer <==> k in x.accesses && x.accesses[k].kind == WR)
      && (k in buffer ==> buffer[k] == x.accesses[k].data)
  }

  ghost predicate Matches(s: Sys, st: Store, keys: set<Key>) {
    && s.rows.Keys == s.past.Keys == st.contents.Keys == keys && s.txns.Keys == st.buffers.Keys
    && (forall k :: k in s.rows ==> s.rows[k].data == st.contents[k])
    && (forall id :: id in s.txns ==> Listed(s, s.txns[id]) && BufferOk(s.txns[id], st.buffers[id]))
  }

  lemma TouchMatches(s: Sys, st: Store, keys: set<Key>, a: Action)
    requires Matches(s, st, keys) && Allowed(s, a) && a.Touch?
    ensures Matches(Step(s, a), Observe(st, a, false), keys)
  {
    TouchShape(s, st, a);
    TouchedMatches(s, st, Step(s, a), Observe(st, a, false), keys, a);
  }

  lemma TouchedMatches(s: Sys, st: Store, s': Sys, st': Store, keys: set<Key>, a: Action)
    requires Matches(s, st, keys) && Allowed(s, a) && a.Touch? && Touched(s, st, s', st', a)
    ensures Matches(s', st', keys)
  {
    assert Listed(s, s.txns[a.id]) && BufferOk(s.txns[a.id], st.buffers[a.id]);
    TouchedIsListed(s, s', s.txns[a.id], s'.txns[a.id], a);
    TouchedIsBuffered(s.txns[a.id], s'.txns[a.id], st.buffers[a.id], st'.buffers[a.id], a);
    forall id | id in s'.txns && id != a.id ensures Listed(s', s'.txns[id]) && BufferOk(s'.txns[id], st'.buffers[id]) {
      assert Listed(s, s.txns[id]) && BufferOk(s.txns[id], st.buffers[id]);
    }
  }

  /** A transaction has touched one more row: its list of accesses and its buffer have grown, the contents stay. */
  ghost predicate Touched(s: Sys, st: Store, s': Sys, st': Store, a: Action)
    requires a.Touch?
  {
    && a.id in s.txns && a.id in st.buffers
    && s'.rows.Keys == s.rows.Keys && s'.past == s.past && st'.contents == st.contents
    && (forall k :: k in s.rows ==> s'.rows[k].data == s.rows[k].data)
    && a.id in s'.txns && s'.txns == s.txns[a.id := s'.txns[a.id]]
    && s'.txns[a.id].order == s.txns[a.id].order + [a.key]
    && a.key in s'.txns[a.id].accesses
    && s'.txns[a.id].accesses == s.txns[a.id].accesses[a.key := s'.txns[a.id].accesses[a.key]]
    && s'.txns[a.id].accesses[a.key].kind == a.kind && s'.txns[a.id].accesses[a.key].data == a.data
    && a.id in st'.buffers && st'.buffers == st.buffers[a.id := st'.buffers[a.id]]
    && st'.buffers[a.id] == if a.kind == WR then st.buffers[a.id][a.key := a.data] else st.buffers[a.id]
  }

  lemma TouchShape(s: Sys, st: Store, a: Action)
    requires Allowed(s, a) && a.Touch? && a.id in st.buffers
    ensures Touched(s, st, Step(s, a), Observe(st, a, false), a)
  {
  }

  lemma TouchedIsListed(s: Sys, s': Sys, x: Txn, x': Txn, a: Action)
    requires a.Touch? && a.key in s.rows && a.key !in x.accesses && Listed(s, x) && s'.rows.Keys == s.rows.Keys
    requires x'.order == x.order + [a.key] && x'.accesses.Keys == x.accesses.Keys + {a.key}
    ensures Listed(s', x')
  {
    assert forall k :: k in x'.order <==> k in x.order || k == a.key;
  }

  lemma TouchedIsBuffered(x: Txn, x': Txn, buffer: map<Key, Row>, buffer': map<Key, Row>, a: Action)
    requires a.Touch? && a.key !in x.accesses && BufferOk(x, buffer)
    requires a.key in x'.accesses && x'.accesses == x.accesses[a.key := x'.accesses[a.key]]
    requires x'.accesses[a.key].kind == a.kind && x'.accesses[a.key].data == a.data
    requires buffer' == if a.kind == WR then buffer[a.key := a.data] else buffer
    ensures BufferOk(x', buffer')
  {
  }

  /** `id` is gone and nobody else has moved. */
  lemma GoneMatches(s: Sys, st: Store, s': Sys, st': Store, keys: set<Key>, id: TxnId)
    requires Matches(s, st, keys) && s'.txns == s.txns - {id} && st'.buffers == st.buffers - {id}
    requires s'.rows.Keys == s'.past.Keys == st'.contents.Keys == keys
    requires forall k :: k in s'.rows ==> s'.rows[k].data == st'.contents[k]
    ensures Matches(s', st', keys)
  {
    forall y | y in s'.txns ensures Listed(s', s'.txns[y]) && BufferOk(s'.txns[y], st'.buffers[y]) {
      assert Listed(s, s.txns[y]) && BufferOk(s.txns[y], st.buffers[y]);
    }
  }

  lemma AbortMatches(s: Sys, st: Store, keys: set<Key>, t: Table, id: TxnId)
    requires Matches(s, st, keys) && id in s.txns
    ensures Matches(Release(AbortAll(s.(table := t), id, s.txns[id], s.txns[id].order), id),
                    st.(buffers := st.buffers - {id}), keys)
  {
    assert Listed(s, s.txns[id]);
    AbortAllMeans(s.(table := t), id, s.txns[id], s.txns[id].order);
    var s' := Release(AbortAll(s.(table := t), id, s.txns[id], s.txns[id].order), id);
    GoneMatches(s, st, s', st.(buffers := st.buffers - {id}), keys, id);
  }

  lemma CommittedContents(r: RowState, id: TxnId, a: Access, ts: Ts)
    ensures CommittedRow(r, id, a, ts).data == if a.kind == WR then a.data else r.data
  {
  }

  lemma MergedContents(x: Txn, contents: map<Key, Row>, buffer: map<Key, Row>)
    requires BufferOk(x, buffer) && x.accesses.Keys <= contents.Keys
    ensures (contents + buffer).Keys == contents.Keys
    ensures forall k :: k in contents ==>
              (contents + buffer)[k]
              == if k in x.accesses && x.accesses[k].kind == WR then x.accesses[k].data else contents[k]
  {
    assert forall k :: k in buffer ==> k in x.accesses;
  }

  lemma CommitMatches(s: Sys, st: Store, keys: set<Key>, t: Table, id: TxnId, ts: Ts)
    requires Matches(s, st, keys) && id in s.txns
    ensures Matches(Release(CommitAll(s.(table := t), id, s.txns[id], s.txns[id].order, ts), id),
                    Store(st.contents + st.buffers[id], st.buffers - {id}), keys)
  {
    var x := s.txns[id];
    assert Listed(s, x);
    CommitAllRows(s.(table := t), id, x, x.order, ts);
    MergedContents(x, st.contents, st.buffers[id]);
    var s', st' := Release(CommitAll(s.(table := t), id, x, x.order, ts), id),
                   Store(st.contents + st.buffers[id], st.buffers - {id});
    forall k | k in s'.rows ensures s'.rows[k].data == st'.contents[k] {
      if k in x.order { CommittedContents(s.rows[k], id, x.accesses[k], ts); }
    }
    GoneMatches(s, st, s', st', keys, id);
  }

  lemma BeginMatches(s: Sys, st: Store, keys: set<Key>, id: TxnId)
    requires Matches(s, st, keys) && id !in s.txns
    ensures Matches(Step(s, Begin(id)), Observe(st, Begin(id), false), keys)
  {
    var s', st' := Step(s, Begin(id)), Observe(st, Begin(id), false);
    forall y | y in s'.txns ensures Listed(s', s'.txns[y]) && BufferOk(s'.txns[y], st'.buffers[y]) {
      assert y != id ==> Listed(s, s.txns[y]) && BufferOk(s.txns[y], st.buffers[y]);
    }
  }

  lemma StepMatches(s: Sys, st: Store, keys: set<Key>, a: Action)
    requires Matches(s, st, keys) && Allowed(s, a)
    ensures Matches(Step(s, a), Observe(st, a, Commits(s, a)), keys)
  {
    match a
    case Begin(id) => BeginMatches(s, st, keys, id);
    case Touch(_, _, _, _) => TouchMatches(s, st, keys, a);
    case Finish(id) =>
      var v := Validate(s.table, id, s.txns[id].gathered);
      var f := FindBound(v.table, id);
      if Commits(s, a) {
        CommitMatches(s, st, keys, f.table, id, f.commitTs);
      } else {
        AbortMatches(s, st, keys, v.table, id);
      }
    case GiveUp(id) => AbortMatches(s, st, keys, s.table, id);
  }

  lemma {:induction false} RunMatches(s: Sys, st: Store, keys: set<Key>, run: seq<Action>)
    requires Matches(s, st, keys) && AllowedRun(s, run)
    ensures Matches(Run(s, run), ObserveAll(s, st, run), keys)
    decreases |run|
  {
    if run != [] {
      StepMatches(s, st, keys, run[0]);
      RunMatches(Step(s, run[0]), Observe(st, run[0], Commits(s, run[0])), keys, run[1..]);
    }
  }

  /**
   * After any run, every row holds the buffer of the last transaction that was told it committed and had touched the
   * row to write it, or its initial contents if there is none.
   */
  lemma RowsHoldCommittedBuffers(rows: map<Key, Row>, run: seq<Action>, k: Key)
    requires AllowedRun(Start(rows), run) && k in rows
    ensures var s, st := Run(Start(rows), run), ObserveAll(Start(rows), Store(rows, map[]), run);
            k in s.rows && k in st.contents && s.rows[k].data == st.contents[k]
  {
    RunMatches(Start(rows), Store(rows, map[]), rows.Keys, run);
  }
}
