/** The B+-tree index of `storage/index_btree.cpp`, one partition, over a pool of nodes. */
module IndexBtree {
  import opened Types
  import opened BTreeSpec
  import opened BTreeInsert
  import opened BTreeFill
  import opened BTreeAsWritten

  method TurnIndex(keys: seq<Key>, key: Key) returns (i: nat)
    requires Ascending(keys)
    ensures Turns(keys, key, i)
  {
    i := 0;
    while i < |keys| && !(key < keys[i])
      invariant i <= |keys| && forall j :: 0 <= j < i ==> keys[j] <= key
    {
      i := i + 1;
    }
  }

  method SlotIndex(keys: seq<Key>, key: Key) returns (i: nat)
    requires Ascending(keys)
    ensures Slot(keys, key, i)
  {
    i := 0;
    while i < |keys| && keys[i] < key
      invariant i <= |keys| && forall j :: 0 <= j < i ==> keys[j] < key
    {
      i := i + 1;
    }
  }

  method LeafHasKey(keys: seq<Key>, key: Key) returns (idx: int)
    ensures idx == -1 <==> key !in keys
    ensures idx != -1 ==> 0 <= idx < |keys| && keys[idx] == key
  {
    for i := 0 to |keys|
      invariant key !in keys[..i]
    {
      if keys[i] == key {
        return i;
      }
    }
    idx := -1;
  }

  /** Moves the entries from `at` on one place up and writes `x` into the gap. */
  method ShiftIn<T>(q: seq<T>, at: nat, x: T) returns (r: seq<T>)
    requires at <= |q|
    ensures r == InsertAt(q, at, x)
  {
    r := q + [x];
    var i := |q|;
    while i > at
      invariant at <= i <= |q| && |r| == |q| + 1
      invariant r[..i] == q[..i] && r[i + 1..] == q[i..]
    {
      r := r[i := r[i - 1]];
      i := i - 1;
    }
    r := r[at := x];
  }

  /** The same for the keys and children of a parent, on the source's counter; the first place is not among them. */
  method ShiftPair(keys: seq<Key>, children: seq<nat>, at: nat, key: Key, right: nat)
    returns (keys': seq<Key>, children': seq<nat>)
    requires 0 < at <= |keys| && |children| == |keys| + 1
    ensures keys' == InsertAt(keys, at, key) && children' == InsertAt(children, at + 1, right)
  {
    keys', children' := keys + [key], children + [right];
    var i := |keys| - 1;
    while i >= at
      invariant at - 1 <= i < |keys| && |keys'| == |keys| + 1 && |children'| == |children| + 1
      invariant forall k :: 0 <= k <= |keys| && k != i + 1 ==> keys'[k] == keys[if k <= i then k else k - 1]
      invariant forall k :: 0 <= k <= |children| && k != i + 2 ==>
                  children'[k] == children[if k <= i + 1 then k else k - 1]
      decreases i
    {
      keys' := keys'[i + 1 := keys'[i]];
      children' := children'[i + 2 := children'[i + 1]];
      i := CountDown(i);
    }
    keys', children' := keys'[at := key], children'[at + 1 := right];
  }

  /** Copies into a wider scratch array, leaving a gap at `at`, and fills the gap. */
  method SpreadIn<T>(q: seq<T>, at: nat, x: T) returns (r: seq<T>)
    requires at <= |q|
    ensures r == InsertAt(q, at, x)
  {
    r := seq(|q| + 1, _ => x);
    var i, j := 0, 0;
    while i < |q|
      invariant 0 <= i <= |q| && |r| == |q| + 1 && j == (if i <= at then i else i + 1)
      invariant forall k :: 0 <= k < i ==> r[if k < at then k else k + 1] == q[k]
      decreases |q| - i
    {
      if j == at {
        j := j + 1;
      }
      r := r[j := q[i]];
      i, j := i + 1, j + 1;
    }
    r := r[at := x];
    forall k | 0 <= k <= |q| ensures r[k] == InsertAt(q, at, x)[k] {
      assert k < at ==> r[if k < at then k else k + 1] == q[k];
      assert k > at ==> r[if k - 1 < at then k - 1 else k] == q[k - 1];
    }
  }

  /** An ordered multimap: one more item under a key, newest first. */
  ghost function Added(m: map<Key, seq<Item>>, key: Key, item: Item): map<Key, seq<Item>> {
    m[key := if key in m then [item] + m[key] else [item]]
  }

  /** `keys` are the stored keys from `key` to `cur`, ascending, and `items` what is stored under them. */
  ghost predicate Visited(m: map<Key, seq<Item>>, key: Key, cur: Key, keys: seq<Key>, items: seq<seq<Item>>) {
    && |items| == |keys| > 0 && Ascending(keys) && keys[|keys| - 1] == cur
    && (forall k :: k in keys <==> k in m && key <= k <= cur)
    && (forall i :: 0 <= i < |keys| ==> keys[i] in m && items[i] == m[keys[i]])
  }

  lemma VisitNext(m: map<Key, seq<Item>>, key: Key, cur: Key, keys: seq<Key>, items: seq<seq<Item>>, after: Key)
    requires Visited(m, key, cur, keys, items) && Successor(m, cur, after) && key <= cur
    ensures Visited(m, key, after, keys + [after], items + [m[after]])
  {
    forall k ensures k in keys + [after] <==> k in m && key <= k <= after {
      assert k in keys + [after] <==> k in keys || k == after;
    }
  }

  ghost function Above(m: map<Key, seq<Item>>, cur: Key): set<Key> {
    set k | k in m && cur < k
  }

  lemma AboveShrinks(m: map<Key, seq<Item>>, cur: Key, after: Key)
    requires Successor(m, cur, after)
    ensures Above(m, after) < Above(m, cur)
  {
    assert after in Above(m, cur) && after !in Above(m, after);
  }

  /** `keys` are all stored keys from `key` on, ascending, and `items` what is stored under them. */
  ghost predicate Listed(m: map<Key, seq<Item>>, key: Key, keys: seq<Key>, items: seq<seq<Item>>) {
    && |items| == |keys| && Ascending(keys) && (forall k :: k in keys <==> k in m && key <= k)
    && (forall i :: 0 <= i < |keys| ==> keys[i] in m && items[i] == m[keys[i]])
  }

  lemma VisitedAll(m: map<Key, seq<Item>>, key: Key, cur: Key, keys: seq<Key>, items: seq<seq<Item>>)
    requires Visited(m, key, cur, keys, items) && forall k :: k in m ==> k <= cur
    ensures Listed(m, key, keys, items)
  {
  }

  class IndexBtree {
    var nodes: seq<Node>
    var root: nat
    var curLeaf: Option<nat>
    var curIdx: nat
    const order: nat
    ghost var info: seq<Info>
    ghost var contents: map<Key, seq<Item>>

    ghost function View(): State
      reads this`nodes, this`root
    {
      State(nodes, root)
    }

    ghost predicate Valid()
      reads this`nodes, this`root, this`info, this`contents
    {
      Whole(View(), info, contents, order) && Filled(View(), order)
    }

    /** The last read or advance stopped at `key`. */
    ghost predicate CursorAt(key: Key)
      reads this
    {
      && curLeaf.Some? && curLeaf.value < |nodes| && nodes[curLeaf.value].Leaf?
      && curIdx < |nodes[curLeaf.value].keys| && nodes[curLeaf.value].keys[curIdx] == key
    }

    constructor (order: nat)
      requires order >= 3
      ensures Valid() && this.order == order && contents == map[]
    {
      this.order := order;
      nodes := [Leaf([], [], None, None)];
      root := 0;
      curLeaf, curIdx := None, 0;
      info := [Info(0, Least, Most)];
      contents := map[];
    }

    /** Ends in the one leaf responsible for the key. */
    method FindLeaf(key: Key) returns (leaf: nat)
      requires Valid()
      ensures leaf < |nodes| && nodes[leaf].Leaf? && In(key, info[leaf])
      ensures NodeOk(nodes[leaf], info[leaf], leaf == root)
      ensures leaf == Search(View(), root, key, info[root].height)
    {
      var c: nat := root;
      assert UpOk(View(), info, Done, root);
      while nodes[c].Inner?
        invariant c < |nodes| && |nodes| == |info| && In(key, info[c])
        invariant Search(View(), root, key, info[root].height) == Search(View(), c, key, info[c].height)
        decreases info[c].height
      {
        assert NodeOk(nodes[c], info[c], c == root);
        var i := TurnIndex(nodes[c].keys, key);
        TurnOfIs(nodes[c].keys, key, i);
        KidRange(View(), info, c, i, key);
        c := nodes[c].children[i];
      }
      leaf := c;
      assert NodeOk(nodes[leaf], info[leaf], leaf == root);
    }

    /** Finds exactly the keys that were inserted. */
    method IndexRead(key: Key) returns (item: Option<seq<Item>>)
      requires Valid()
      modifies this`curLeaf, this`curIdx
      ensures Valid()
      ensures item == if key in contents then Some(contents[key]) else None
      ensures key in contents ==> CursorAt(key)
      ensures key !in contents ==> curLeaf == old(curLeaf) && curIdx == old(curIdx)
    {
      var leaf := FindLeaf(key);
      StoredInHolder(View(), info, contents, leaf, key);
      var idx := LeafHasKey(nodes[leaf].keys, key);
      if idx == -1 {
        return None;
      }
      assert Binds(View().nodes[leaf], idx, contents);
      curLeaf, curIdx := Some(leaf), idx;
      item := Some(nodes[leaf].items[idx]);
    }

    /** Advances to the next larger key. With `sameKey` nothing is returned: equal keys share one entry. */
    method IndexNext(sameKey: bool, ghost key: Key) returns (item: Option<seq<Item>>, ghost after: Key)
      requires Valid() && CursorAt(key)
      modifies this`curLeaf, this`curIdx
      ensures Valid()
      ensures item.Some? <==> !sameKey && curLeaf.Some?
      ensures curLeaf == None ==> forall k :: k in contents ==> k <= key
      ensures curLeaf.Some? ==> CursorAt(after) && Successor(contents, key, after)
      ensures curLeaf.Some? && !sameKey ==> item == Some(contents[after])
    {
      var leaf := curLeaf.value;
      var curKey := nodes[leaf].keys[curIdx];
      ghost var s := View();
      assert NodeOk(nodes[leaf], info[leaf], leaf == root);
      curIdx := curIdx + 1;
      if curIdx >= |nodes[leaf].keys| {
        curLeaf, curIdx := nodes[leaf].next, 0;
        if curLeaf == None {
          NoneAfterLast(s, info, contents, leaf);
          return None, key;
        }
        NextInNeighbour(s, info, contents, leaf);
      } else {
        NextInLeaf(s, info, contents, leaf, curIdx - 1);
      }
      leaf := curLeaf.value;
      assert NodeOk(nodes[leaf], info[leaf], leaf == root) && Binds(s.nodes[leaf], curIdx, contents);
      after := nodes[leaf].keys[curIdx];
      if sameKey && nodes[leaf].keys[curIdx] != curKey {
        item := None;
      } else {
        item := Some(nodes[leaf].items[curIdx]);
      }
    }

    /** Reading a key and advancing to the end visits every stored key from it on, in ascending order, each once. */
    method ScanFrom(key: Key) returns (items: seq<seq<Item>>, ghost keys: seq<Key>)
      requires Valid()
      modifies this`curLeaf, this`curIdx
      ensures Valid()
      ensures if key in contents then Listed(contents, key, keys, items) else items == [] && keys == []
    {
      var item := IndexRead(key);
      if item == None {
        return [], [];
      }
      ghost var cur := key;
      items, keys := [item.value], [key];
      while curLeaf != None
        invariant Valid() && key <= cur && Visited(contents, key, cur, keys, items)
        invariant if curLeaf == None then forall k :: k in contents ==> k <= cur else CursorAt(cur)
        decreases curLeaf != None, Above(contents, cur)
      {
        ghost var after;
        item, after := IndexNext(false, cur);
        if item != None {
          VisitNext(contents, key, cur, keys, items, after);
          AboveShrinks(contents, cur, after);
          items, keys := items + [item.value], keys + [after];
          cur := after;
        }
      }
      VisitedAll(contents, key, cur, keys, items);
    }

    /**
     * Adds the item under the key, in front of the items already there, and changes no other key. `returns'` tells
     * whether the source's code comes to an end, which can be seen beforehand; if it does, this is the state it leaves.
     */
    method IndexInsert(key: Key, item: Item) returns (returns': bool)
      requires Valid()
      modifies this
      ensures Valid()
      ensures contents == Added(old(contents), key, item)
      ensures returns' <==> !Hangs(old(View()), order, old(info[root].height), key)
      ensures returns' ==> InsertAsWritten(old(View()), order, old(info[root].height), key, item) == Some(View())
    {
      ghost var s, height := View(), info[root].height;
      InsertReturnsIff(s, info, order, key, item);
      var leaf := FindLeaf(key);
      var has := LeafHasKey(nodes[leaf].keys, key);
      StoredInHolder(View(), info, contents, leaf, key);
      if |nodes[leaf].keys| < order - 1 || has >= 0 {
        InsertIntoLeaf(leaf, key, item);
        returns' := true;
      } else {
        SlotOfMeans(nodes[leaf].keys, key);
        SlotHolds(nodes[leaf].keys, key, SlotOf(nodes[leaf].keys, key));
        returns' := SplitLeafInsert(leaf, key, item);
      }
    }

    method InsertIntoLeaf(leaf: nat, key: Key, item: Item)
      requires Valid() && leaf < |nodes| && nodes[leaf].Leaf? && In(key, info[leaf])
      requires |nodes[leaf].keys| < order - 1 || key in nodes[leaf].keys
      modifies this`nodes, this`contents
      ensures Valid()
      ensures contents == Added(old(contents), key, item)
      ensures forall height: nat :: Search(old(View()), root, key, height) == leaf ==>
                InsertAsWritten(old(View()), order, height, key, item) == Some(View())
    {
      ghost var s := View();
      assert NodeOk(nodes[leaf], info[leaf], leaf == root);
      StoredInHolder(s, info, contents, leaf, key);
      var n := nodes[leaf];
      var idx := LeafHasKey(n.keys, key);
      if idx >= 0 {
        SlotOfIs(n.keys, key, idx);
        ghost var s' := Prepend(s, info, contents, leaf, idx, item);
        ReplacedFills(s, s', order, leaf);
        nodes := nodes[leaf := n.(items := n.items[idx := [item] + n.items[idx]])];
        contents := contents[key := [item] + contents[key]];
        assert View() == s';
        return;
      }
      var at := SlotIndex(n.keys, key);
      SlotOfIs(n.keys, key, at);
      SlotHolds(n.keys, key, at);
      ghost var s' := PutKey(s, leaf, at, key, item);
      KeyPut(s, info, leaf, at, key, item);
      PutKeyRepresents(s, contents, leaf, at, key, item);
      ReplacedFills(s, s', order, leaf);
      var keys := ShiftIn(n.keys, at, key);
      var items := ShiftIn(n.items, at, [item]);
      nodes := nodes[leaf := n.(keys := keys, items := items)];
      contents := contents[key := [item]];
      assert View() == s';
    }

    method SplitLeafInsert(leaf: nat, key: Key, item: Item) returns (returns': bool)
      requires Valid() && leaf < |nodes| && nodes[leaf].Leaf? && In(key, info[leaf])
      requires |nodes[leaf].keys| == order - 1 == |nodes[leaf].items| && key !in nodes[leaf].keys
      modifies this`nodes, this`root, this`info, this`contents
      ensures Valid() && contents == Added(old(contents), key, item)
      ensures var s1 := PutKey(old(View()), leaf, SlotOf(old(nodes)[leaf].keys, key), key, item);
              var m := Cut(order - 1);
              var w := EnterAsWritten(CutLeaf(s1, leaf, m), order, leaf, s1.nodes[leaf].keys[m], |old(nodes)|,
                                      old(info[root].height));
              (returns' <==> w.Some?) && (returns' ==> w == Some(View()))
    {
      assert NodeOk(nodes[leaf], info[leaf], leaf == root);
      StoredInHolder(View(), info, contents, leaf, key);
      var at := SlotIndex(nodes[leaf].keys, key);
      SlotOfIs(nodes[leaf].keys, key, at);
      LeafSplitBoth(View(), info, contents, order, leaf, at, key, item);
      ghost var levels := info[root].height;
      var right, middle := CutLeafInTwo(leaf, at, key, item);
      info := CutInfo(info, leaf, middle);
      contents := contents[key := [item]];
      ghost var w := EnterAsWritten(View(), order, leaf, middle, right, levels);
      AwaitsIs(View(), order, leaf, middle, right, levels, w);
      returns' := InsertIntoParent(leaf, middle, right, w);
    }

    /** Enters the key in the scratch arrays and writes the two halves back. */
    method CutLeafInTwo(leaf: nat, at: nat, key: Key, item: Item) returns (right: nat, middle: Key)
      requires order >= 3 && leaf < |nodes| && nodes[leaf].Leaf? && at < order
      requires |nodes[leaf].keys| == order - 1 == |nodes[leaf].items|
      modifies this`nodes
      ensures right == old(|nodes|)
      ensures var s1 := PutKey(old(View()), leaf, at, key, item);
              View() == CutLeaf(s1, leaf, Cut(order - 1)) && middle == s1.nodes[leaf].keys[Cut(order - 1)]
    {
      var n := nodes[leaf];
      var keys := SpreadIn(n.keys, at, key);
      var items := SpreadIn(n.items, at, [item]);
      var split := Cut(order - 1);
      right, middle := |nodes|, keys[split];
      nodes := nodes[leaf := Leaf(keys[..split], items[..split], n.parent, Some(right))]
               + [Leaf(keys[split..], items[split..], n.parent, n.next)];
    }

    /**
     * Enters the right half of a split node in the parent, splitting upwards as far as needed. The source's code ends
     * exactly if `w`, its outcome, is a state, and then in this state.
     */
    method InsertIntoParent(left: nat, key: Key, right: nat, ghost w: Option<State>) returns (returns': bool)
      requires Splitting(View(), info, contents, order, left, right) && info[left].hi == At(key)
      requires FilledHalf(View(), order, left)
      requires Awaits(View(), order, left, key, right, info[root].height - info[left].height, w)
      modifies this`nodes, this`root, this`info
      ensures Valid() && (returns' <==> w.Some?) && (returns' ==> w == Some(View()))
      decreases info[root].height - info[left].height, 1
    {
      ghost var levels := info[root].height - info[left].height;
      if nodes[left].parent == None {
        AwaitsRoot(View(), order, left, key, right, levels, w);
        InsertIntoNewRoot(left, key, right);
        return true;
      }
      var p := nodes[left].parent.value;
      ParentOf(View(), info, contents, order, left, right);
      var at := SlotIndex(nodes[p].keys, key);
      if |nodes[p].keys| < order - 1 {
        AwaitsRoom(View(), order, left, key, right, p, at, levels, w);
        returns' := ShiftIntoParent(p, at, key, right, left);
      } else {
        returns' := SplitInnerInsert(p, at, key, right, left, w);
      }
    }

    /** The parent has room. For the first place the room is made as the loop is meant to make it. */
    method ShiftIntoParent(p: nat, at: nat, key: Key, right: nat, ghost left: nat) returns (returns': bool)
      requires Splitting(View(), info, contents, order, left, right) && info[left].hi == At(key)
      requires FilledHalf(View(), order, left)
      requires nodes[left].parent == Some(p) && ParentOk(View(), info, order, left, p)
      requires |nodes[p].keys| < order - 1 && Slot(nodes[p].keys, key, at)
      modifies this`nodes
      ensures Valid() && View() == AddChild(old(View()), p, at, key, right)
      ensures returns' <==> ShiftLoopEnds(|old(nodes)[p].keys| - 1, at)
    {
      EntersWhole(View(), info, contents, order, left, right, p, at);
      ReplacedFills(View(), AddChild(View(), p, at, key, right), order, p);
      ShiftLoopEndsIff(|nodes[p].keys| - 1, at);
      returns' := at > 0;
      var keys, children;
      if at > 0 {
        keys, children := ShiftPair(nodes[p].keys, nodes[p].children, at, key, right);
      } else {
        keys := ShiftIn(nodes[p].keys, at, key);
        children := ShiftIn(nodes[p].children, at + 1, right);
      }
      nodes := nodes[p := nodes[p].(keys := keys, children := children)];
    }

    method InsertIntoNewRoot(left: nat, key: Key, right: nat)
      requires Splitting(View(), info, contents, order, left, right) && info[left].hi == At(key)
      requires FilledHalf(View(), order, left)
      requires nodes[left].parent == None
      modifies this`nodes, this`root, this`info
      ensures Valid() && View() == Raised(old(View()), left, key, right)
    {
      ghost var s := View();
      RaisesWhole(s, info, contents, order, left, right);
      SplitRoot(s, info, left, right);
      RaisedFills(s, order, left, key, right);
      var top := |nodes|;
      nodes := nodes + [Inner([key], [left, right], None, None)];
      nodes := nodes[left := nodes[left].(parent := Some(top), next := Some(right))];
      nodes := nodes[right := nodes[right].(parent := Some(top))];
      root := top;
      info := RaisedInfo(info, left);
      assert nodes == Raised(s, left, key, right).nodes;
    }

    method SplitInnerInsert(p: nat, at: nat, key: Key, right: nat, ghost left: nat, ghost w: Option<State>)
      returns (returns': bool)
      requires Splitting(View(), info, contents, order, left, right) && info[left].hi == At(key)
      requires FilledHalf(View(), order, left)
      requires nodes[left].parent == Some(p) && ParentOk(View(), info, order, left, p)
      requires |nodes[p].keys| == order - 1 && Slot(nodes[p].keys, key, at)
      requires Awaits(View(), order, left, key, right, info[root].height - info[left].height, w)
      modifies this`nodes, this`root, this`info
      ensures Valid() && (returns' <==> w.Some?) && (returns' ==> w == Some(View()))
      decreases info[root].height - info[left].height, 0
    {
      ghost var s2, info2, m := GoUp(View(), info, contents, order, left, right, p, at, w);
      var added, middle := CutParent(p, at, key, right);
      info := info2;
      assert View() == s2;
      returns' := InsertIntoParent(p, middle, added, w);
    }

    /** Enters the child in the scratch arrays and writes the two halves back. */
    method CutParent(p: nat, at: nat, key: Key, right: nat) returns (added: nat, middle: Key)
      requires order >= 3 && p < |nodes| && nodes[p].Inner? && |nodes[p].keys| == order - 1
      requires |nodes[p].children| == order
      requires at < order
      requires var kids := AddChild(View(), p, at, key, right).nodes[p].children;
               p !in kids && forall c :: c in kids ==> c < |nodes|
      modifies this`nodes
      ensures added == old(|nodes|)
      ensures var s1 := AddChild(old(View()), p, at, key, right);
              View() == CutInner(s1, p, Cut(order) - 1) && middle == s1.nodes[p].keys[Cut(order) - 1]
    {
      var split := Cut(order);
      var children := SpreadIn(nodes[p].children, at + 1, right);
      var keys := SpreadIn(nodes[p].keys, at, key);
      added := WriteHalves(p, keys, children, split);
      middle := keys[split - 1];
    }

    method WriteHalves(p: nat, keys: seq<Key>, children: seq<nat>, split: nat) returns (added: nat)
      requires p < |nodes| && nodes[p].Inner? && 0 < split <= |keys| && |children| == |keys| + 1
      requires p !in children && forall c :: c in children ==> c < |nodes|
      modifies this`nodes
      ensures added == old(|nodes|)
      ensures var s1 := Replace(old(View()), p, old(nodes)[p].(keys := keys, children := children));
              View() == CutInner(s1, p, split - 1)
    {
      var n := nodes[p];
      added := |nodes|;
      nodes := nodes[p := Inner(keys[..split - 1], children[..split], n.parent, Some(added))]
               + [Inner(keys[split..], children[split..], n.parent, n.next)];
      var moved := children[split..];
      assert forall c :: c in moved ==> c in children;
      Adopt(moved, added);
    }

    /** Points every listed node to its new parent. */
    method Adopt(kids: seq<nat>, p: nat)
      requires forall c :: c in kids ==> c < |nodes|
      modifies this`nodes
      ensures |nodes| == old(|nodes|)
      ensures forall id: nat :: id < |nodes| ==>
                nodes[id] == if id in kids then old(nodes)[id].(parent := Some(p)) else old(nodes)[id]
    {
      for i := 0 to |kids|
        invariant |nodes| == old(|nodes|)
        invariant forall id: nat :: id < |nodes| ==>
                    nodes[id] == if id in kids[..i] then old(nodes)[id].(parent := Some(p)) else old(nodes)[id]
      {
        var c := kids[i];
        assert c in kids && kids[..i + 1] == kids[..i] + [c];
        nodes := nodes[c := nodes[c].(parent := Some(p))];
      }
    }
  }
}
