/** The version and read histories of `Row_mvcc`: lists kept newest first. */
module History {
  import opened Types

  /** `MVHisEntry`; a read history carries no row, so there R is the unit type. */
  datatype Entry<+R> = Entry(ts: Ts, row: R)

  ghost predicate Descending<R>(h: seq<Entry<R>>) {
    forall i, j :: 0 <= i < j < |h| ==> h[i].ts >= h[j].ts
  }

  ghost predicate Strict<R>(h: seq<Entry<R>>) {
    forall i, j :: 0 <= i < j < |h| ==> h[i].ts > h[j].ts
  }

  /** Some entry lies strictly between two timestamps. */
  ghost predicate Covered<R>(h: seq<Entry<R>>, lo: Ts, hi: Ts) {
    exists i :: 0 <= i < |h| && lo < h[i].ts < hi
  }

  /** How many leading entries are newer than `ts`. */
  function Newer<R>(h: seq<Entry<R>>, ts: Ts): (n: nat)
    ensures n <= |h|
    ensures forall i :: 0 <= i < n ==> h[i].ts > ts
    ensures n < |h| ==> h[n].ts <= ts
  {
    if h == [] || h[0].ts <= ts then 0 else 1 + Newer(h[1..], ts)
  }

  /** The list after `insert_history`. */
  function Insert<R>(h: seq<Entry<R>>, e: Entry<R>): seq<Entry<R>> {
    h[..Newer(h, e.ts)] + [e] + h[Newer(h, e.ts)..]
  }

  /** The newest entry that is not after `ts`, if any. */
  function Latest<R>(h: seq<Entry<R>>, ts: Ts): Option<Entry<R>> {
    if Newer(h, ts) == |h| then None else Some(h[Newer(h, ts)])
  }

  /** How many entries `clear_history` keeps: it drops the tail while the entry before it is below the threshold. */
  function Keep<R>(h: seq<Entry<R>>, threshold: Ts): (k: nat)
    ensures k <= |h|
    ensures k < |h| ==> 1 <= k && h[k - 1].ts < threshold
    ensures 2 <= k ==> h[k - 2].ts >= threshold
  {
    if |h| >= 2 && h[|h| - 2].ts < threshold then Keep(h[..|h| - 1], threshold) else |h|
  }

  lemma InsertKeepsDescending<R>(h: seq<Entry<R>>, e: Entry<R>)
    requires Descending(h)
    ensures Descending(Insert(h, e))
  {
  }

  lemma InsertKeepsStrict<R>(h: seq<Entry<R>>, e: Entry<R>)
    requires Strict(h) && forall i :: 0 <= i < |h| ==> h[i].ts != e.ts
    ensures Strict(Insert(h, e))
  {
  }

  /** `Latest` is the greatest entry at or below `ts`. */
  lemma LatestIsGreatest<R>(h: seq<Entry<R>>, ts: Ts)
    requires Descending(h)
    ensures Latest(h, ts).None? ==> forall e :: e in h ==> e.ts > ts
    ensures Latest(h, ts).Some? ==>
              && Latest(h, ts).value in h
              && Latest(h, ts).value.ts <= ts
              && forall e :: e in h && e.ts <= ts ==> e.ts <= Latest(h, ts).value.ts
  {
  }
}
