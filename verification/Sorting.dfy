/** What `StatsArr::quicksort` computes, on sequences. */
module Sorting {
  ghost predicate SortedRange(s: seq<int>, lo: int, hi: int) {
    forall i, j :: 0 <= lo <= i < j <= hi < |s| ==> s[i] <= s[j]
  }

  /** `t` is `s` with the range from `lo` to `hi` put in order and the rest left alone. */
  ghost predicate Rearranged(s: seq<int>, t: seq<int>, lo: int, hi: int) {
    && |s| == |t| && 0 <= lo <= hi + 1 <= |s|
    && s[..lo] == t[..lo] && s[hi + 1..] == t[hi + 1..]
    && multiset(s[lo..hi + 1]) == multiset(t[lo..hi + 1])
  }

  lemma Outside(s: seq<int>, t: seq<int>, lo: int, hi: int, k: int)
    requires Rearranged(s, t, lo, hi) && 0 <= k < |s| && (k < lo || hi < k)
    ensures t[k] == s[k]
  {
    if k < lo {
      assert s[..lo][k] == t[..lo][k];
    } else {
      assert s[hi + 1..][k - hi - 1] == t[hi + 1..][k - hi - 1];
    }
  }

  /** Every element of the rearranged range was somewhere in the range before. */
  lemma ComesFrom(s: seq<int>, t: seq<int>, lo: int, hi: int, k: int) returns (j: int)
    requires Rearranged(s, t, lo, hi) && lo <= k <= hi
    ensures lo <= j <= hi && s[j] == t[k]
  {
    assert t[lo..hi + 1][k - lo] == t[k];
    assert t[k] in multiset(t[lo..hi + 1]);
    assert t[k] in s[lo..hi + 1];
    var i :| 0 <= i < |s[lo..hi + 1]| && s[lo..hi + 1][i] == t[k];
    j := lo + i;
  }

  lemma Widen(s: seq<int>, t: seq<int>, lo: int, hi: int, lo': int, hi': int)
    requires Rearranged(s, t, lo, hi) && 0 <= lo' <= lo && hi <= hi' && hi' + 1 <= |s|
    ensures Rearranged(s, t, lo', hi')
  {
    assert s[..lo'] == s[..lo][..lo'] && t[..lo'] == t[..lo][..lo'];
    assert s[hi' + 1..] == s[hi + 1..][hi' - hi..] && t[hi' + 1..] == t[hi + 1..][hi' - hi..];
    assert s[lo'..hi' + 1] == s[lo'..lo] + s[lo..hi + 1] + s[hi + 1..hi' + 1];
    assert t[lo'..hi' + 1] == t[lo'..lo] + t[lo..hi + 1] + t[hi + 1..hi' + 1];
    assert s[lo'..lo] == s[..lo][lo'..] && t[lo'..lo] == t[..lo][lo'..];
    assert s[hi + 1..hi' + 1] == s[hi + 1..][..hi' - hi] && t[hi + 1..hi' + 1] == t[hi + 1..][..hi' - hi];
  }

  lemma ExchangeRearranges(s: seq<int>, i: int, j: int)
    requires 0 <= i <= j < |s|
    ensures Rearranged(s, s[i := s[j]][j := s[i]], i, j)
  {
    var t := s[i := s[j]][j := s[i]];
    if i < j {
      assert s[i..j + 1] == [s[i]] + s[i + 1..j] + [s[j]];
      assert t[i..j + 1] == [s[j]] + s[i + 1..j] + [s[i]];
    } else {
      assert t == s;
    }
  }

  /** Below the pivot on the left, above it on the right, and at most one element in neither part. */
  ghost predicate Split(s: seq<int>, lo: int, hi: int, low: int, high: int, pivot: int) {
    && 0 <= lo < low <= hi + 1 && lo - 1 <= high < hi < |s| && high <= low <= high + 2
    && (forall k :: lo <= k < low ==> s[k] <= pivot)
    && (forall k :: high < k <= hi ==> pivot <= s[k])
  }

  /** Sorting a range in which only the last element may exceed the pivot leaves only the last one there. */
  lemma OneAbove(s: seq<int>, t: seq<int>, lo: int, m: int, pivot: int, k: int)
    requires Rearranged(s, t, lo, m) && SortedRange(t, lo, m) && lo <= k < m
    requires forall i :: lo <= i < m ==> s[i] <= pivot
    ensures t[k] <= pivot
  {
    var head, tail := s[lo..m], t[lo..m];
    assert s[lo..m + 1] == head + [s[m]] && t[lo..m + 1] == tail + [t[m]];
    assert tail[k - lo] == t[k] && t[k] in tail;
    assert forall x :: x in head ==> x <= pivot;
    OneAboveIn(head, s[m], tail, t[m], pivot, t[k]);
  }

  lemma OneAboveIn(head: seq<int>, h: int, tail: seq<int>, t: int, pivot: int, x: int)
    requires multiset(head) + multiset{h} == multiset(tail) + multiset{t} && x in tail && x <= t
    requires forall y :: y in head ==> y <= pivot
    ensures x <= pivot
  {
    var a, b := multiset(head) + multiset{h}, multiset(tail) + multiset{t};
    assert a[x] == b[x] && a[t] == b[t];
    assert x in multiset(tail);
    assert x > pivot ==> x !in head && t !in head;
    assert multiset(head)[x] > 0 ==> x in head;
    assert multiset(head)[t] > 0 ==> t in head;
  }

  /** After the left range has been sorted, everything before `low` is at most everything from `low` on. */
  lemma LeftSorted(s: seq<int>, t: seq<int>, lo: int, hi: int, low: int, high: int, pivot: int, i: int, j: int)
    requires Split(s, lo, hi, low, high, pivot) && Rearranged(s, t, lo, high) && SortedRange(t, lo, high)
    requires lo <= i < low <= j <= hi
    ensures t[i] <= t[j]
  {
    if i <= high {
      if i < low && low > high {
        var i' := ComesFrom(s, t, lo, high, i);
        Outside(s, t, lo, high, j);
      } else {
        OneAbove(s, t, lo, high, pivot, i);
        if j > high { Outside(s, t, lo, high, j); }
      }
    } else {
      Outside(s, t, lo, high, i);
      Outside(s, t, lo, high, j);
    }
  }

  /** Sorting the left range and then the right one, which may share an element, sorts the whole. */
  lemma BothSorted(s: seq<int>, t: seq<int>, u: seq<int>, lo: int, hi: int, low: int, high: int, pivot: int)
    requires Split(s, lo, hi, low, high, pivot)
    requires Rearranged(s, t, lo, high) && SortedRange(t, lo, high)
    requires Rearranged(t, u, low, hi) && SortedRange(u, low, hi)
    ensures SortedRange(u, lo, hi)
  {
    forall i, j | lo <= i < j <= hi ensures u[i] <= u[j] {
      if i < low {
        Outside(t, u, low, hi, i);
        if j < low {
          Outside(t, u, low, hi, j);
          LeftPrefixSorted(s, t, lo, hi, low, high, pivot, i, j);
        } else {
          var j' := ComesFrom(t, u, low, hi, j);
          LeftSorted(s, t, lo, hi, low, high, pivot, i, j');
        }
      }
    }
  }

  lemma LeftPrefixSorted(s: seq<int>, t: seq<int>, lo: int, hi: int, low: int, high: int, pivot: int, i: int, j: int)
    requires Split(s, lo, hi, low, high, pivot) && Rearranged(s, t, lo, high) && SortedRange(t, lo, high)
    requires lo <= i < j < low
    ensures t[i] <= t[j]
  {
    if j > high {
      Outside(s, t, lo, high, j);
      if i <= high {
        var i' := ComesFrom(s, t, lo, high, i);
      } else {
        Outside(s, t, lo, high, i);
      }
    }
  }

  function CountBelow(s: seq<int>, x: int): nat {
    if s == [] then 0 else (if s[0] < x then 1 else 0) + CountBelow(s[1..], x)
  }

  lemma CountBelowConcat(s: seq<int>, t: seq<int>, x: int)
    ensures CountBelow(s + t, x) == CountBelow(s, x) + CountBelow(t, x)
  {
    if s == [] {
      assert s + t == t;
    } else {
      assert (s + t)[1..] == s[1..] + t;
    }
  }

  lemma TakeOut(s: seq<int>, j: int)
    requires 0 <= j < |s|
    ensures multiset(s) == multiset(s[..j] + s[j + 1..]) + multiset{s[j]}
    ensures forall x :: CountBelow(s, x) == CountBelow(s[..j] + s[j + 1..], x) + (if s[j] < x then 1 else 0)
  {
    assert s == s[..j] + ([s[j]] + s[j + 1..]);
    forall x ensures CountBelow(s, x) == CountBelow(s[..j] + s[j + 1..], x) + (if s[j] < x then 1 else 0) {
      CountBelowConcat(s[..j], [s[j]] + s[j + 1..], x);
      CountBelowConcat(s[..j], s[j + 1..], x);
    }
  }

  lemma Cancel(a: multiset<int>, b: multiset<int>, x: int)
    requires a + multiset{x} == b + multiset{x}
    ensures a == b
  {
    forall y ensures a[y] == b[y] {
      assert (a + multiset{x})[y] == (b + multiset{x})[y];
    }
  }

  /** How many values lie below `x` does not depend on their order. */
  lemma {:induction false} CountBelowPermuted(s: seq<int>, t: seq<int>, x: int)
    requires multiset(s) == multiset(t)
    ensures CountBelow(s, x) == CountBelow(t, x)
  {
    if s == [] {
      assert |multiset(t)| == 0;
    } else {
      assert s[0] in multiset(t);
      var j :| 0 <= j < |t| && t[j] == s[0];
      TakeOut(s, 0);
      TakeOut(t, j);
      assert s[..0] + s[1..] == s[1..];
      Cancel(multiset(s[1..]), multiset(t[..j] + t[j + 1..]), s[0]);
      CountBelowPermuted(s[1..], t[..j] + t[j + 1..], x);
    }
  }

  lemma {:induction false} CountBelowSorted(s: seq<int>, x: int, k: int)
    requires SortedRange(s, 0, |s| - 1) && 0 <= k <= |s|
    requires (forall i :: 0 <= i < k ==> s[i] < x) && (forall i :: k <= i < |s| ==> s[i] >= x)
    ensures CountBelow(s, x) == k
  {
    if s != [] {
      CountBelowSorted(s[1..], x, if k == 0 then 0 else k - 1);
    }
  }

  /** The place of `x` among the first positions of a sorted sequence. */
  lemma Cut(s: seq<int>, x: int) returns (k: int)
    requires SortedRange(s, 0, |s| - 1)
    ensures 0 <= k <= |s| && (forall i :: 0 <= i < k ==> s[i] < x) && (forall i :: k <= i < |s| ==> s[i] >= x)
  {
    k := 0;
    while k < |s| && s[k] < x
      invariant 0 <= k <= |s| && forall i :: 0 <= i < k ==> s[i] < x
    {
      k := k + 1;
    }
  }

  /** Entry `k` of the sorted data has rank `k`: at most `k` values lie below it, more than `k` lie at or below it. */
  lemma SortedEntryHasRank(data: seq<int>, sorted: seq<int>, k: int)
    requires multiset(data) == multiset(sorted) && SortedRange(sorted, 0, |sorted| - 1) && 0 <= k < |sorted|
    ensures CountBelow(data, sorted[k]) <= k < CountBelow(data, sorted[k] + 1)
  {
    CountBelowPermuted(data, sorted, sorted[k]);
    CountBelowPermuted(data, sorted, sorted[k] + 1);
    var a := Cut(sorted, sorted[k]);
    var b := Cut(sorted, sorted[k] + 1);
    CountBelowSorted(sorted, sorted[k], a);
    CountBelowSorted(sorted, sorted[k] + 1, b);
    assert a <= k < b;
  }
}
