/** `StatsArr`: the array in which latencies are collected, sorted and read off by percentile. */
module Statistics {
  import opened Sorting

  /** The middle of a range, dividing as C does: towards zero. */
  function Middle(low: int, high: int): int {
    if low + high >= 0 then (low + high) / 2 else -(-(low + high) / 2)
  }

  method Exchange(arr: array<int>, low: int, high: int)
    requires 0 <= low <= high < arr.Length
    modifies arr
    ensures arr[..] == old(arr[..])[low := old(arr[high])][high := old(arr[low])]
    ensures Rearranged(old(arr[..]), arr[..], low, high)
  {
    ExchangeRearranges(arr[..], low, high);
    arr[low], arr[high] := arr[high], arr[low];
    assert arr[..] == old(arr[..])[low := old(arr[high])][high := old(arr[low])];
  }

  /** What the partition loop has established between two of its rounds. */
  ghost predicate Partial(s: seq<int>, lo: int, hi: int, low: int, high: int, pivot: int) {
    && 0 <= lo <= low <= hi + 1 && lo - 1 <= high <= hi < |s| && low <= high + 2
    && (forall k :: lo <= k < low ==> s[k] <= pivot)
    && (forall k :: high < k <= hi ==> pivot <= s[k])
    && ((low == lo && high == hi && exists p :: lo <= p <= hi && s[p] == pivot) || (lo < low && high < hi))
  }

  /** The two scans of a round: neither leaves the range, because of a pivot or a value swapped before. */
  method Scan(arr: array<int>, lo: int, hi: int, low: int, high: int, pivot: int) returns (low': int, high': int)
    requires Partial(arr[..], lo, hi, low, high, pivot) && low < high
    ensures low <= low' <= high' + 1 && high' <= high && lo <= high' && low' <= hi
    ensures pivot <= arr[low'] && arr[high'] <= pivot
    ensures forall k :: lo <= k < low' ==> arr[k] <= pivot
    ensures forall k :: high' < k <= hi ==> pivot <= arr[k]
    ensures low' > high' ==> lo < low && high < hi
  {
    low', high' := low, high;
    ghost var stop :| low <= stop <= hi && stop <= high + 1 && arr[stop] >= pivot && (high < hi || arr[stop] == pivot);
    while arr[low'] < pivot
      invariant low <= low' <= stop
      invariant forall k :: lo <= k < low' ==> arr[k] <= pivot
      decreases stop - low'
    {
      low' := low' + 1;
    }
    ghost var halt := if lo < low then low' - 1 else stop;
    while arr[high'] > pivot
      invariant halt <= high' <= high
      invariant forall k :: high' < k <= hi ==> pivot <= arr[k]
      decreases high' - halt
    {
      high' := high' - 1;
    }
  }

  lemma ExchangeAdvances(s: seq<int>, t: seq<int>, lo: int, hi: int, low: int, high: int, pivot: int)
    requires 0 <= lo <= low <= high <= hi < |s| && t == s[low := s[high]][high := s[low]]
    requires pivot <= s[low] && s[high] <= pivot
    requires forall k :: lo <= k < low ==> s[k] <= pivot
    requires forall k :: high < k <= hi ==> pivot <= s[k]
    ensures Partial(t, lo, hi, low + 1, high - 1, pivot)
    ensures Rearranged(s, t, lo, hi)
  {
    ExchangeRearranges(s, low, high);
    Widen(s, t, low, high, lo, hi);
  }

  /** The partition loop. */
  method Partition(arr: array<int>, lo: int, hi: int, pivot: int) returns (low: int, high: int)
    requires 0 <= lo < hi < arr.Length && exists p :: lo <= p <= hi && arr[..][p] == pivot
    modifies arr
    ensures Rearranged(old(arr[..]), arr[..], lo, hi)
    ensures Split(arr[..], lo, hi, low, high, pivot)
  {
    low, high := lo, hi;
    while low < high
      invariant Partial(arr[..], lo, hi, low, high, pivot)
      invariant low == lo ==> low < high
      invariant Rearranged(old(arr[..]), arr[..], lo, hi)
      decreases high - low
    {
      low, high := Scan(arr, lo, hi, low, high, pivot);
      if low <= high {
        ghost var before := arr[..];
        Exchange(arr, low, high);
        ExchangeAdvances(before, arr[..], lo, hi, low, high, pivot);
        low, high := low + 1, high - 1;
      }
    }
  }

  /** Sorts the range from `lo` to `hi` in place and leaves the rest alone. */
  method Quicksort(arr: array<int>, lo: int, hi: int)
    requires 0 <= lo && lo <= hi + 1 <= arr.Length && 0 <= Middle(lo, hi) < arr.Length
    modifies arr
    ensures Rearranged(old(arr[..]), arr[..], lo, hi)
    ensures SortedRange(arr[..], lo, hi)
    decreases hi - lo
  {
    var pivot := arr[Middle(lo, hi)];
    if lo < hi {
      assert arr[..][Middle(lo, hi)] == pivot;
      var low, high := Partition(arr, lo, hi, pivot);
      ghost var split := arr[..];
      if lo < high {
        Quicksort(arr, lo, high);
      }
      ghost var left := arr[..];
      if low < hi {
        Quicksort(arr, low, hi);
      }
      BothSorted(split, left, arr[..], lo, hi, low, high, pivot);
      Widen(split, left, lo, high, lo, hi);
      Widen(left, arr[..], low, hi, lo, hi);
    }
  }

  lemma RankInRangeIff(ile: nat, n: nat)
    requires n > 0
    ensures ile * n / 100 < n <==> ile < 100
  {
    if ile < 100 {
      assert ile * n <= 99 * n;
    } else {
      assert ile * n >= 100 * n;
    }
  }

  /** A percentile reads a sample if and only if it is below the hundredth, and the sample has the rank asked for. */
  lemma PercentileHasRank(data: seq<int>, sorted: seq<int>, ile: nat)
    requires multiset(data) == multiset(sorted) && SortedRange(sorted, 0, |sorted| - 1) && data != []
    ensures |sorted| == |data| && (ile * |sorted| / 100 < |sorted| <==> ile < 100)
    ensures ile < 100 ==> CountBelow(data, sorted[ile * |sorted| / 100]) <= ile * |data| / 100
    ensures ile < 100 ==> ile * |data| / 100 < CountBelow(data, sorted[ile * |sorted| / 100] + 1)
  {
    assert |multiset(data)| == |data| && |multiset(sorted)| == |sorted|;
    RankInRangeIff(ile, |sorted|);
    if ile < 100 {
      SortedEntryHasRank(data, sorted, ile * |sorted| / 100);
    }
  }

  /** One more value in its bin, the last bin taking what is too large. */
  function Bumped(bins: seq<int>, item: int): seq<int>
    requires bins != []
  {
    var bin := if 0 <= item < |bins| then item else |bins| - 1;
    bins[bin := bins[bin] + 1]
  }

  function Binned(bins: seq<int>, items: seq<int>): (r: seq<int>)
    requires bins != []
    ensures |r| == |bins|
  {
    if items == [] then bins else Bumped(Binned(bins, items[..|items| - 1]), items[|items| - 1])
  }

  datatype StatsArrType = ArrInsert | ArrIncr

  class StatsArr {
    var arr: array<int>
    var cnt: nat
    const kind: StatsArrType

    ghost predicate Valid()
      reads this
    {
      arr.Length > 0 && (kind.ArrIncr? ==> cnt <= arr.Length)
    }

    /** The values inserted since the last `Clear`, in their present order. */
    ghost function Items(): seq<int>
      requires Valid() && kind.ArrIncr?
      reads this, arr
    {
      arr[..cnt]
    }

    constructor (size: nat, kind: StatsArrType)
      ensures Valid() && cnt == 0 && this.kind == kind
      ensures fresh(arr) && arr.Length == size + 1 && forall i :: 0 <= i < arr.Length ==> arr[i] == 0
    {
      this.kind := kind;
      cnt := 0;
      arr := new int[size + 1](_ => 0);
    }

    method Clear()
      requires Valid()
      modifies this`cnt
      ensures Valid() && cnt == 0
      ensures kind.ArrIncr? ==> Items() == []
    {
      cnt := 0;
    }

    /** Doubles the capacity; the new half holds zeros. */
    method Resize()
      requires Valid()
      modifies this`arr
      ensures Valid() && fresh(arr) && arr.Length == 2 * old(arr.Length)
      ensures arr[..old(arr.Length)] == old(arr[..])
      ensures forall i :: old(arr.Length) <= i < arr.Length ==> arr[i] == 0
    {
      var narrow, size := arr, arr.Length;
      var wider := new int[2 * size];
      for i := 0 to size
        invariant arr == narrow && wider[..i] == narrow[..i]
      {
        wider[i] := narrow[i];
      }
      for i := size to 2 * size
        invariant arr == narrow && wider[..size] == narrow[..]
        invariant forall j :: size <= j < i ==> wider[j] == 0
      {
        wider[i] := 0;
      }
      arr := wider;
    }

    /** Appends a sample, growing when the array is full; or counts it in its bin, the last bin taking the overflow. */
    method Insert(item: nat)
      requires Valid()
      modifies this, arr
      ensures Valid() && cnt == old(cnt) + 1 && (arr == old(arr) || fresh(arr))
      ensures kind.ArrIncr? ==> Items() == old(Items()) + [item]
      ensures kind.ArrInsert? ==> arr == old(arr) && arr[..] == Bumped(old(arr[..]), item)
    {
      if kind == ArrIncr {
        var mine := cnt;
        cnt := cnt + 1;
        ghost var items := old(Items());
        if mine == arr.Length {
          cnt := mine;
          Resize();
          cnt := mine + 1;
        }
        arr[mine] := item;
        assert arr[..mine] == items;
      } else {
        if item >= arr.Length {
          arr[arr.Length - 1] := arr[arr.Length - 1] + 1;
        } else {
          arr[item] := arr[item] + 1;
        }
        cnt := cnt + 1;
      }
    }

    /** Inserts the first `cnt` entries of another array one by one, whatever the kinds of the two. */
    method Append(other: StatsArr)
      requires Valid() && other.Valid() && other.cnt <= other.arr.Length && other != this && other.arr != arr
      requires forall i :: 0 <= i < other.cnt ==> other.arr[i] >= 0
      modifies this, arr
      ensures Valid() && cnt == old(cnt) + other.cnt
      ensures kind.ArrIncr? ==> Items() == old(Items()) + old(other.arr[..other.cnt])
      ensures kind.ArrInsert? ==> arr == old(arr) && arr[..] == Binned(old(arr[..]), old(other.arr[..other.cnt]))
    {
      ghost var given := other.arr[..other.cnt];
      var i := 0;
      while i < other.cnt
        invariant 0 <= i <= other.cnt && Valid() && (arr == old(arr) || fresh(arr)) && cnt == old(cnt) + i
        invariant other.arr != arr && other.arr[..other.cnt] == given
        invariant kind.ArrIncr? ==> Items() == old(Items()) + given[..i]
        invariant kind.ArrInsert? ==> arr == old(arr) && arr[..] == Binned(old(arr[..]), given[..i])
      {
        assert given[i] == other.arr[i] == old(other.arr[i]);
        assert given[..i + 1][..i] == given[..i];
        Insert(other.arr[i]);
        i := i + 1;
      }
      assert given[..other.cnt] == given;
    }

    /** Reads the entry at the rank, which the caller has to know to exist. */
    method GetPercentile(ile: nat) returns (r: int)
      requires Valid() && ile * cnt / 100 < arr.Length
      ensures r == arr[..][ile * cnt / 100]
      ensures kind.ArrIncr? && cnt > 0 ==> (ile * cnt / 100 < |Items()| <==> ile < 100)
    {
      r := arr[ile * cnt / 100];
      if cnt > 0 {
        RankInRangeIff(ile, cnt);
      }
    }

    /** Sorts the samples and reads off a percentile: the sample whose rank among all of them is the one asked for. */
    method SortedPercentile(ile: nat) returns (r: int)
      requires Valid() && kind.ArrIncr? && cnt > 0 && ile < 100
      modifies arr
      ensures multiset(Items()) == multiset(old(Items())) && SortedRange(Items(), 0, cnt - 1)
      ensures CountBelow(old(Items()), r) <= ile * cnt / 100 < CountBelow(old(Items()), r + 1)
    {
      Quicksort(arr, 0, cnt - 1);
      assert old(arr[..])[0..cnt] == old(Items()) && arr[..][0..cnt] == Items();
      PercentileHasRank(old(Items()), Items(), ile);
      r := GetPercentile(ile);
    }
  }
}
