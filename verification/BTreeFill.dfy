/** Splitting in the middle keeps the nodes of the B+-tree at least half full. */
module BTreeFill {
  import opened Types
  import opened BTreeSpec
  import opened BTreeInsert

  /** The fewest keys a node other than the root may have. */
  function Fewest(n: Node, order: nat): nat
    requires order >= 3
  {
    if n.Leaf? then Cut(order - 1) else Cut(order) - 1
  }

  ghost predicate HalfFull(n: Node, order: nat)
    requires order >= 3
  {
    Fewest(n, order) <= |n.keys|
  }

  ghost predicate Filled(s: State, order: nat)
    requires order >= 3
  {
    forall id: nat {:trigger HalfFull(s.nodes[id], order)} ::
      id < |s.nodes| && id != s.root ==> HalfFull(s.nodes[id], order)
  }

  /** The same while `left` has just been split, be it the root or not. */
  ghost predicate FilledHalf(s: State, order: nat, left: nat)
    requires order >= 3
  {
    Filled(s, order) && left < |s.nodes| && HalfFull(s.nodes[left], order)
  }

  /** A node that only gains keys or changes its links stays filled. */
  lemma ReplacedFills(s: State, s': State, order: nat, id: nat)
    requires order >= 3 && Filled(s, order) && id < |s.nodes| && s'.root == s.root
    requires |s'.nodes| == |s.nodes| && s'.nodes == s.nodes[id := s'.nodes[id]]
    requires s'.nodes[id].Leaf? == s.nodes[id].Leaf? && |s.nodes[id].keys| <= |s'.nodes[id].keys|
    ensures Filled(s', order)
  {
    forall i: nat | i < |s'.nodes| && i != s'.root ensures HalfFull(s'.nodes[i], order) {
      assert HalfFull(s.nodes[i], order);
    }
  }

  lemma LeafCutFills(s: State, order: nat, leaf: nat)
    requires order >= 3 && Filled(s, order) && leaf < |s.nodes| && s.nodes[leaf].Leaf?
    requires |s.nodes[leaf].keys| == order == |s.nodes[leaf].items|
    ensures FilledHalf(CutLeaf(s, leaf, Cut(order - 1)), order, leaf)
  {
    var s' := CutLeaf(s, leaf, Cut(order - 1));
    forall i: nat | i < |s'.nodes| && i != s'.root ensures HalfFull(s'.nodes[i], order) {
      assert i < |s.nodes| ==> HalfFull(s.nodes[i], order);
    }
  }

  lemma InnerCutFills(s: State, order: nat, p: nat)
    requires order >= 3 && Filled(s, order) && p < |s.nodes| && s.nodes[p].Inner?
    requires |s.nodes[p].keys| == order && |s.nodes[p].children| == order + 1
    ensures FilledHalf(CutInner(s, p, Cut(order) - 1), order, p)
  {
    var s' := CutInner(s, p, Cut(order) - 1);
    forall i: nat | i < |s'.nodes| && i != s'.root ensures HalfFull(s'.nodes[i], order) {
      assert i < |s.nodes| ==> HalfFull(s.nodes[i], order);
    }
  }

  lemma RaisedFills(s: State, order: nat, left: nat, key: Key, right: nat)
    requires order >= 3 && FilledHalf(s, order, left) && left == s.root && right < |s.nodes|
    ensures Filled(Raised(s, left, key, right), order)
  {
    var s' := Raised(s, left, key, right);
    forall i: nat | i < |s'.nodes| && i != s'.root ensures HalfFull(s'.nodes[i], order) {
      assert HalfFull(s.nodes[i], order);
    }
  }

  /** A full leaf takes one more key and is cut. */
  lemma LeafSplitFills(s: State, order: nat, leaf: nat, at: nat, key: Key, item: Item)
    requires order >= 3 && Filled(s, order) && leaf < |s.nodes| && s.nodes[leaf].Leaf? && at < order
    requires |s.nodes[leaf].keys| == order - 1 == |s.nodes[leaf].items|
    ensures FilledHalf(CutLeaf(PutKey(s, leaf, at, key, item), leaf, Cut(order - 1)), order, leaf)
  {
    var s1 := PutKey(s, leaf, at, key, item);
    ReplacedFills(s, s1, order, leaf);
    LeafCutFills(s1, order, leaf);
  }

  /** A full inner node takes one more child and is cut. */
  lemma InnerSplitFills(s: State, order: nat, p: nat, at: nat, key: Key, right: nat)
    requires order >= 3 && Filled(s, order) && p < |s.nodes| && s.nodes[p].Inner? && at < order
    requires |s.nodes[p].keys| == order - 1 && |s.nodes[p].children| == order
    ensures FilledHalf(CutInner(AddChild(s, p, at, key, right), p, Cut(order) - 1), order, p)
  {
    var s1 := AddChild(s, p, at, key, right);
    ReplacedFills(s, s1, order, p);
    InnerCutFills(s1, order, p);
  }

  /** The split of a full leaf, with the tree it leaves. */
  lemma LeafSplitBoth(
    s: State, info: seq<Info>, m: map<Key, seq<Item>>, order: nat, leaf: nat, at: nat, key: Key, item: Item)
    requires Whole(s, info, m, order) && Filled(s, order)
    requires leaf < |s.nodes| && s.nodes[leaf].Leaf? && In(key, info[leaf])
    requires key !in m && key !in s.nodes[leaf].keys && Slot(s.nodes[leaf].keys, key, at)
    requires |s.nodes[leaf].keys| == order - 1 == |s.nodes[leaf].items|
    ensures var s1, mid := PutKey(s, leaf, at, key, item), Cut(order - 1);
            var info' := CutInfo(info, leaf, s1.nodes[leaf].keys[mid]);
            && Splitting(CutLeaf(s1, leaf, mid), info', m[key := [item]], order, leaf, |s.nodes|)
            && FilledHalf(CutLeaf(s1, leaf, mid), order, leaf)
            && info'[s.root].height - info'[leaf].height == info[s.root].height
  {
    LeafSplit(s, info, m, order, leaf, at, key, item, Cut(order - 1));
    LeafSplitFills(s, order, leaf, at, key, item);
  }
}
