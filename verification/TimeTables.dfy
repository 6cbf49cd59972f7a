/** `TimeTable`: a chained hash map from transaction ids to intervals, refining the map the MaaT functions work on. */
module TimeTables {
  import opened Types
  import opened MaatSpec

  /** `TimeTableEntry`. */
  datatype Item = Item(key: TxnId, entry: Entry)

  /** A bucket holds the items that hash to it, each key once, and agrees with the map. */
  ghost predicate Agrees(bucket: seq<Item>, view: Table, i: int, size: nat)
    requires size > 0
  {
    && (forall j :: 0 <= j < |bucket| ==>
          && bucket[j].key % size == i && bucket[j].key in view && view[bucket[j].key] == bucket[j].entry)
    && (forall j, l :: 0 <= j < l < |bucket| ==> bucket[j].key != bucket[l].key)
    && (forall key :: key in view && key % size == i ==> Has(bucket, key))
  }

  ghost predicate Has(bucket: seq<Item>, key: TxnId) {
    exists j :: 0 <= j < |bucket| && bucket[j].key == key
  }

  lemma AppendAgrees(bucket: seq<Item>, view: Table, size: nat, key: TxnId, e: Entry)
    requires size > 0 && Agrees(bucket, view, key % size, size) && key !in view
    ensures Agrees(bucket + [Item(key, e)], view[key := e], key % size, size)
  {
    var b := bucket + [Item(key, e)];
    forall k | k in view[key := e] && k % size == key % size ensures Has(b, k) {
      if k == key {
        assert b[|bucket|].key == k;
      } else {
        var l :| 0 <= l < |bucket| && bucket[l].key == k;
        assert b[l].key == k;
      }
    }
  }

  lemma UnlinkAgrees(bucket: seq<Item>, view: Table, size: nat, key: TxnId, j: nat)
    requires size > 0 && Agrees(bucket, view, key % size, size) && j < |bucket| && bucket[j].key == key
    ensures Agrees(bucket[..j] + bucket[j + 1..], view - {key}, key % size, size)
  {
    var b := bucket[..j] + bucket[j + 1..];
    assert forall l :: 0 <= l < |b| ==> b[l] == bucket[if l < j then l else l + 1];
    forall k | k in view - {key} && k % size == key % size ensures Has(b, k) {
      var l :| 0 <= l < |bucket| && bucket[l].key == k;
      assert b[if l < j then l else l - 1].key == k;
    }
  }

  lemma RewriteAgrees(bucket: seq<Item>, view: Table, size: nat, key: TxnId, j: nat, e: Entry)
    requires size > 0 && Agrees(bucket, view, key % size, size) && j < |bucket| && bucket[j].key == key
    ensures Agrees(bucket[j := Item(key, e)], view[key := e], key % size, size)
  {
    var b := bucket[j := Item(key, e)];
    forall k | k in view[key := e] && k % size == key % size ensures Has(b, k) {
      var l :| 0 <= l < |bucket| && bucket[l].key == k;
      assert b[l].key == k;
    }
  }

  lemma OtherAgrees(bucket: seq<Item>, view: Table, view': Table, size: nat, i: int, key: TxnId)
    requires size > 0 && Agrees(bucket, view, i, size) && i != key % size
    requires forall k :: k != key ==> (k in view' <==> k in view) && (k in view' ==> view'[k] == view[k])
    ensures Agrees(bucket, view', i, size)
  {
  }

  class TimeTable {
    const size: nat
    const table: array<seq<Item>>   // one list a bucket, head first
    ghost var view: Table

    ghost predicate Valid()
      reads this, table
    {
      size > 0 && table.Length == size && forall i :: 0 <= i < size ==> Agrees(table[i], view, i, size)
    }

    constructor (size: nat)
      requires size > 0
      ensures Valid() && view == map[] && fresh(table)
    {
      this.size := size;
      table := new seq<Item>[size](_ => []);
      view := map[];
    }

    /** The walk down one bucket. */
    method Find(key: TxnId) returns (j: nat, found: bool)
      requires Valid()
      ensures found <==> key in view
      ensures found ==> j < |table[key % size]| && table[key % size][j] == Item(key, view[key])
    {
      var bucket := table[key % size];
      j := 0;
      while j < |bucket| && bucket[j].key != key
        invariant 0 <= j <= |bucket|
        invariant forall l :: 0 <= l < j ==> bucket[l].key != key
      {
        j := j + 1;
      }
      found := j < |bucket|;
      assert Agrees(bucket, view, key % size, size);
    }

    /** Rewriting bucket `key % size` so that it agrees with the new map leaves the other buckets in order. */
    twostate lemma OtherBuckets(key: TxnId)
      requires old(Valid()) && table.Length == size
      requires forall i :: 0 <= i < size && i != key % size ==> table[i] == old(table[i])
      requires forall k :: k != key ==> (k in view <==> k in old(view)) && (k in view ==> view[k] == old(view)[k])
      requires Agrees(table[key % size], view, key % size, size)
      ensures Valid()
    {
      forall i | 0 <= i < size && i != key % size ensures Agrees(table[i], view, i, size) {
        OtherAgrees(table[i], old(view), view, size, i, key);
      }
    }

    method Init(key: TxnId)
      requires Valid()
      modifies this`view, table
      ensures Valid()
      ensures view == if key in old(view) then old(view) else old(view)[key := Entry(0, UINT64_MAX, RUNNING)]
    {
      var j, found := Find(key);
      if !found {
        var i := key % size;
        AppendAgrees(table[i], view, size, key, Entry(0, UINT64_MAX, RUNNING));
        table[i] := table[i] + [Item(key, Entry(0, UINT64_MAX, RUNNING))];
        view := view[key := Entry(0, UINT64_MAX, RUNNING)];
        OtherBuckets(key);
      }
    }

    method Release(key: TxnId)
      requires Valid()
      modifies this`view, table
      ensures Valid() && view == old(view) - {key}
    {
      var j, found := Find(key);
      if found {
        var i := key % size;
        UnlinkAgrees(table[i], view, size, key, j);
        table[i] := table[i][..j] + table[i][j + 1..];
        view := view - {key};
        OtherBuckets(key);
      }
    }

    method GetLower(key: TxnId) returns (v: Ts)
      requires Valid()
      ensures v == Lower(view, key)
    {
      v := 0;
      var j, found := Find(key);
      if found { v := table[key % size][j].entry.lower; }
    }

    method GetUpper(key: TxnId) returns (v: Ts)
      requires Valid()
      ensures v == Upper(view, key)
    {
      v := UINT64_MAX;
      var j, found := Find(key);
      if found { v := table[key % size][j].entry.upper; }
    }

    method GetState(key: TxnId) returns (v: TxnState)
      requires Valid()
      ensures v == StateOf(view, key)
    {
      v := ABORTED;
      var j, found := Find(key);
      if found { v := table[key % size][j].entry.state; }
    }

    /** Overwrite the entry of a key that is present. */
    method Overwrite(key: TxnId, j: nat, e: Entry)
      requires Valid() && j < |table[key % size]| && table[key % size][j].key == key
      modifies this`view, table
      ensures Valid() && view == old(view)[key := e]
    {
      var i := key % size;
      RewriteAgrees(table[i], view, size, key, j, e);
      table[i] := table[i][j := Item(key, e)];
      view := view[key := e];
      OtherBuckets(key);
    }

    method PutLower(key: TxnId, v: Ts)
      requires Valid()
      modifies this`view, table
      ensures Valid() && view == SetLower(old(view), key, v)
    {
      var j, found := Find(key);
      if found { Overwrite(key, j, table[key % size][j].entry.(lower := v)); }
    }

    method PutUpper(key: TxnId, v: Ts)
      requires Valid()
      modifies this`view, table
      ensures Valid() && view == SetUpper(old(view), key, v)
    {
      var j, found := Find(key);
      if found { Overwrite(key, j, table[key % size][j].entry.(upper := v)); }
    }

    method PutState(key: TxnId, v: TxnState)
      requires Valid()
      modifies this`view, table
      ensures Valid() && view == SetState(old(view), key, v)
    {
      var j, found := Find(key);
      if found { Overwrite(key, j, table[key % size][j].entry.(state := v)); }
    }
  }
}
