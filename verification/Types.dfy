/** Names shared by the models of Deneva's concurrency-control managers. */
module Types {
  const UINT64_MAX: int := 0xFFFF_FFFF_FFFF_FFFF

  /** `ts_t`: an unsigned 64-bit timestamp. */
  type Ts = t: int | 0 <= t <= UINT64_MAX

  /** The contents of a row. No manager looks inside. */
  type Row = int

  datatype Option<+T> = None | Some(value: T)

  /** The return codes the row managers use. */
  datatype RC = RCOK | Abort | WAIT

  function Max(a: Ts, b: Ts): (m: Ts) {
    if a < b then b else a
  }

  lemma Regroup<T>(a: seq<T>, b: seq<T>, c: seq<T>)
    ensures a + (b + c) == (a + b) + c
  {
  }
}
