/** The request queues of `Row_mvcc` and `Row_ts`: stacks of requests, named by their transactions' timestamps. */
module Queues {
  import opened Types

  function Least(q: seq<Ts>): (m: Ts)
    ensures forall t :: t in q ==> m <= t
    ensures m == UINT64_MAX || m in q
  {
    if q == [] then UINT64_MAX
    else
      var rest := Least(q[1..]);
      assert q == [q[0]] + q[1..];
      if q[0] < rest then q[0] else rest
  }

  /** The requests `debuffer_req` takes out, in the order it returns them, and the ones it leaves. */
  function Ready(q: seq<Ts>, m: Ts): (r: seq<Ts>)
    ensures forall t :: t in r <==> t in q && t <= m
  {
    if q == [] then [] else Ready(q[1..], m) + if q[0] <= m then [q[0]] else []
  }

  function Blocked(q: seq<Ts>, m: Ts): (r: seq<Ts>)
    ensures forall t :: t in r <==> t in q && t > m
  {
    if q == [] then [] else (if q[0] <= m then [] else [q[0]]) + Blocked(q[1..], m)
  }

  lemma {:induction false} NoneReady(q: seq<Ts>, m: Ts)
    requires forall t :: t in q ==> m < t
    ensures Ready(q, m) == [] && Blocked(q, m) == q
  {
    if q != [] {
      assert q[0] in q && forall t :: t in q[1..] ==> t in q;
      NoneReady(q[1..], m);
    }
  }

  function Remove(q: seq<Ts>, ts: Ts): (r: seq<Ts>)
    ensures forall t :: t in r ==> t in q
    ensures forall t :: t in q && t != ts ==> t in r
    ensures |r| == if ts in q then |q| - 1 else |q|
  {
    if q == [] then [] else if q[0] == ts then q[1..] else [q[0]] + Remove(q[1..], ts)
  }

  ghost predicate Distinct(q: seq<Ts>) {
    forall i, j :: 0 <= i < j < |q| ==> q[i] != q[j]
  }

  lemma {:induction false} RemoveDistinct(q: seq<Ts>, ts: Ts)
    requires Distinct(q)
    ensures Distinct(Remove(q, ts)) && ts !in Remove(q, ts)
  {
    if q != [] && q[0] != ts {
      RemoveDistinct(q[1..], ts);
      forall t | t in Remove(q[1..], ts) ensures t != q[0] {}
    }
  }

  lemma {:induction false} RemoveAt(q: seq<Ts>, i: nat)
    requires i < |q| && q[i] !in q[..i]
    ensures Remove(q, q[i]) == q[..i] + q[i + 1..]
  {
    if i > 0 {
      var rest := q[1..];
      assert rest[..i - 1] == q[..i][1..] && q[0] == q[..i][0] && rest[i - 1] == q[i];
      RemoveAt(rest, i - 1);
      assert q[..i] == [q[0]] + rest[..i - 1] && q[i + 1..] == rest[i..];
      assert [q[0]] + (rest[..i - 1] + rest[i..]) == ([q[0]] + rest[..i - 1]) + rest[i..];
    }
  }

  /** The walk of `debuffer_req(P_REQ, txn)` to the transaction's own entry, which it unlinks. */
  method Unlink(queue: seq<Ts>, ts: Ts) returns (queue': seq<Ts>)
    requires ts in queue
    ensures queue' == Remove(queue, ts)
  {
    var i := 0;
    while queue[i] != ts
      invariant 0 <= i < |queue| && ts !in queue[..i]
      decreases |queue| - i
    {
      i := i + 1;
    }
    RemoveAt(queue, i);
    queue' := queue[..i] + queue[i + 1..];
  }

  /** The walk that finds the smallest timestamp of a queue. */
  method LeastOf(queue: seq<Ts>) returns (m: Ts)
    ensures m == Least(queue)
  {
    m := UINT64_MAX;
    for i := 0 to |queue|
      invariant forall k :: 0 <= k < i ==> m <= queue[k]
      invariant m == UINT64_MAX || m in queue
    {
      if queue[i] < m {
        m := queue[i];
      }
    }
  }

  /** The walk that moves every request not above `m` to the list it returns. */
  method TakeReady(queue: seq<Ts>, m: Ts) returns (ready: seq<Ts>, blocked: seq<Ts>)
    ensures ready == Ready(queue, m) && blocked == Blocked(queue, m)
  {
    ready, blocked := [], [];
    for i := 0 to |queue|
      invariant Ready(queue, m) == Ready(queue[i..], m) + ready
      invariant Blocked(queue, m) == blocked + Blocked(queue[i..], m)
    {
      assert queue[i..] == [queue[i]] + queue[i + 1..];
      if queue[i] <= m {
        ready := [queue[i]] + ready;
      } else {
        blocked := blocked + [queue[i]];
      }
    }
  }
}
