/**
 * The B+-tree index as a pool of nodes that name each other by position. Every node carries a
 * height and a range of keys that exist only for the proofs; each clause of the invariant then
 * speaks of one node and its neighbours.
 */
module BTreeSpec {
  import opened Types

  type Key = int
  type Item = int

  /** A leaf holds, for each key, the items inserted under it, newest first. */
  datatype Node =
    | Leaf(keys: seq<Key>, items: seq<seq<Item>>, parent: Option<nat>, next: Option<nat>)
    | Inner(keys: seq<Key>, children: seq<nat>, parent: Option<nat>, next: Option<nat>)

  datatype State = State(nodes: seq<Node>, root: nat)

  datatype Bound = Least | At(key: Key) | Most

  predicate From(b: Bound, k: Key) {
    b.Least? || (b.At? && b.key <= k)
  }

  predicate Until(k: Key, b: Bound) {
    b.Most? || (b.At? && k < b.key)
  }

  /** What is known of a node: its height above the leaves and the range its keys belong to. */
  datatype Info = Info(height: nat, lo: Bound, hi: Bound)

  predicate In(k: Key, f: Info) {
    From(f.lo, k) && Until(k, f.hi)
  }

  /** A split under way: `right` has been cut off `left` and is not yet in the parent. */
  datatype Pending = Done | Half(left: nat, right: nat)

  ghost predicate Ascending(keys: seq<Key>) {
    forall i, j :: 0 <= i < j < |keys| ==> keys[i] < keys[j]
  }

  ghost predicate Shaped(s: State, info: seq<Info>, pend: Pending) {
    && |info| == |s.nodes| && s.root < |s.nodes|
    && (pend.Half? ==>
          pend.left < |s.nodes| && pend.right < |s.nodes| && pend.left != pend.right && pend.right != s.root)
  }

  /** Keys ascend and stay in range; an inner node has one child more than keys; only a root may be empty. */
  ghost predicate NodeOk(n: Node, f: Info, root: bool) {
    && Ascending(n.keys) && (forall k :: k in n.keys ==> In(k, f))
    && (n.Leaf? ==> f.height == 0 && |n.items| == |n.keys| && (root || n.keys != []))
    && (n.Inner? ==> f.height > 0 && |n.children| == |n.keys| + 1 && n.keys != [] && f.lo != At(n.keys[0]))
  }

  ghost function SlotLo(keys: seq<Key>, f: Info, i: nat): Bound
    requires i <= |keys|
  {
    if i == 0 then f.lo else At(keys[i - 1])
  }

  ghost function SlotHi(keys: seq<Key>, f: Info, i: nat): Bound
    requires i <= |keys|
  {
    if i == |keys| then f.hi else At(keys[i])
  }

  /** The range a parent reserves for a child: a half-split pair still shares one slot. */
  ghost function ReservedHi(s: State, info: seq<Info>, pend: Pending, c: nat): Bound
    requires Shaped(s, info, pend) && c < |s.nodes|
  {
    if pend.Half? && pend.left == c then info[pend.right].hi else info[c].hi
  }

  /** Child `i` of `p` points back to it, is one lower and covers exactly the keys between two separators. */
  ghost predicate KidOk(s: State, info: seq<Info>, pend: Pending, p: nat, i: nat)
    requires Shaped(s, info, pend) && p < |s.nodes| && s.nodes[p].Inner?
  {
    && |s.nodes[p].children| == |s.nodes[p].keys| + 1 && i < |s.nodes[p].children|
    && var c := s.nodes[p].children[i];
    && c < |s.nodes| && s.nodes[c].parent == Some(p) && info[c].height + 1 == info[p].height
    && info[c].lo == SlotLo(s.nodes[p].keys, info[p], i)
    && ReservedHi(s, info, pend, c) == SlotHi(s.nodes[p].keys, info[p], i)
    && (pend.Half? ==> c != pend.right)
  }

  ghost predicate IsRight(pend: Pending, id: nat) {
    pend.Half? && id == pend.right
  }

  /** Every node but the root is a child of its parent; nothing is as high as the root but the root. */
  ghost predicate UpOk(s: State, info: seq<Info>, pend: Pending, id: nat)
    requires Shaped(s, info, pend) && id < |s.nodes|
  {
    && info[id].height <= info[s.root].height
    && (id == s.root ==> s.nodes[id].parent == None && info[id].lo == Least && ReservedHi(s, info, pend, id) == Most)
    && (id != s.root && !IsRight(pend, id) ==>
          && info[id].height < info[s.root].height && s.nodes[id].parent.Some?
          && var p := s.nodes[id].parent.value;
          p < |s.nodes| && s.nodes[p].Inner? && id in s.nodes[p].children)
  }

  /** The right neighbour at the same height starts where this node's range ends. */
  ghost predicate NextOk(s: State, info: seq<Info>, pend: Pending, id: nat)
    requires Shaped(s, info, pend) && id < |s.nodes|
  {
    match s.nodes[id].next
    case None => info[id].hi == Most
    case Some(n) => n < |s.nodes| && info[n].height == info[id].height && info[id].hi.At? && info[n].lo == info[id].hi
  }

  ghost predicate HalfOk(s: State, info: seq<Info>, pend: Pending)
    requires Shaped(s, info, pend) && pend.Half?
  {
    var l, r := pend.left, pend.right;
    && s.nodes[r].parent == s.nodes[l].parent && info[r].height == info[l].height
    && info[l].hi.At? && info[r].lo == info[l].hi && s.nodes[l].keys != []
    && From(info[l].lo, info[l].hi.key) && info[l].lo != info[l].hi && Until(info[l].hi.key, info[r].hi)
  }

  ghost predicate NodesOk(s: State, info: seq<Info>, pend: Pending)
    requires Shaped(s, info, pend)
  {
    forall id :: 0 <= id < |s.nodes| ==> NodeOk(s.nodes[id], info[id], id == s.root)
  }

  ghost predicate KidsOk(s: State, info: seq<Info>, pend: Pending)
    requires Shaped(s, info, pend)
  {
    forall p: nat, i: nat :: p < |s.nodes| && s.nodes[p].Inner? && i < |s.nodes[p].children| ==>
      KidOk(s, info, pend, p, i)
  }

  ghost predicate UpsOk(s: State, info: seq<Info>, pend: Pending)
    requires Shaped(s, info, pend)
  {
    forall id: nat :: id < |s.nodes| ==> UpOk(s, info, pend, id)
  }

  ghost predicate NextsOk(s: State, info: seq<Info>, pend: Pending)
    requires Shaped(s, info, pend)
  {
    forall id: nat :: id < |s.nodes| ==> NextOk(s, info, pend, id)
  }

  ghost predicate Tree(s: State, info: seq<Info>, pend: Pending) {
    && Shaped(s, info, pend) && NodesOk(s, info, pend) && KidsOk(s, info, pend)
    && UpsOk(s, info, pend) && NextsOk(s, info, pend) && (pend.Half? ==> HalfOk(s, info, pend))
  }

  /** The leaves hold exactly the bindings of `m`. */
  ghost predicate Represents(s: State, m: map<Key, seq<Item>>) {
    && (forall id: nat, i: nat :: id < |s.nodes| && s.nodes[id].Leaf? && i < |s.nodes[id].keys| ==>
          Binds(s.nodes[id], i, m))
    && (forall k :: k in m ==> exists id: nat :: id < |s.nodes| && s.nodes[id].Leaf? && k in s.nodes[id].keys)
  }

  ghost predicate Binds(n: Node, i: nat, m: map<Key, seq<Item>>)
    requires n.Leaf? && i < |n.keys|
  {
    i < |n.items| && n.keys[i] in m && m[n.keys[i]] == n.items[i]
  }

  ghost predicate Narrow(s: State, order: nat) {
    forall id :: 0 <= id < |s.nodes| ==> |s.nodes[id].keys| < order
  }

  /** The separators at most `key`: where the search turns. */
  ghost predicate Turns(keys: seq<Key>, key: Key, i: nat) {
    i <= |keys| && (forall j :: 0 <= j < i ==> keys[j] <= key) && (forall j :: i <= j < |keys| ==> key < keys[j])
  }

  /** The keys below `key`: where it is inserted. */
  ghost predicate Slot(keys: seq<Key>, key: Key, i: nat) {
    i <= |keys| && (forall j :: 0 <= j < i ==> keys[j] < key) && (forall j :: i <= j < |keys| ==> key <= keys[j])
  }

  function InsertAt<T>(q: seq<T>, i: nat, x: T): seq<T>
    requires i <= |q|
  {
    q[..i] + [x] + q[i..]
  }

  /** Half of `length`, rounded up. */
  function Cut(length: nat): (half: nat)
    ensures 2 * half - 1 <= length <= 2 * half
  {
    if length % 2 == 0 then length / 2 else length / 2 + 1
  }

  // Reading the tree.

  lemma KidRange(s: State, info: seq<Info>, p: nat, i: nat, key: Key)
    requires Tree(s, info, Done) && p < |s.nodes| && s.nodes[p].Inner? && i < |s.nodes[p].children|
    ensures KidOk(s, info, Done, p, i) && NodeOk(s.nodes[p], info[p], p == s.root)
    ensures In(key, info[s.nodes[p].children[i]]) <==> In(key, info[p]) && Turns(s.nodes[p].keys, key, i)
  {
    assert KidOk(s, info, Done, p, i);
    var keys := s.nodes[p].keys;
    assert NodeOk(s.nodes[p], info[p], p == s.root);
    assert i > 0 ==> keys[i - 1] in keys;
    assert i < |keys| ==> keys[i] in keys;
  }

  /** At each height one node is responsible for a key. */
  lemma {:induction false} OneHolder(s: State, info: seq<Info>, a: nat, b: nat, key: Key)
    requires Tree(s, info, Done) && a < |s.nodes| && b < |s.nodes| && info[a].height == info[b].height
    requires In(key, info[a]) && In(key, info[b])
    ensures a == b
    decreases info[s.root].height - info[a].height
  {
    assert UpOk(s, info, Done, a) && UpOk(s, info, Done, b);
    if a != s.root && b != s.root {
      var p, q := s.nodes[a].parent.value, s.nodes[b].parent.value;
      var i: nat :| i < |s.nodes[p].children| && s.nodes[p].children[i] == a;
      var j: nat :| j < |s.nodes[q].children| && s.nodes[q].children[j] == b;
      KidRange(s, info, p, i, key);
      KidRange(s, info, q, j, key);
      OneHolder(s, info, p, q, key);
      assert i == j;
    }
  }

  /** A key stored anywhere is stored in the leaf responsible for it. */
  lemma StoredInHolder(s: State, info: seq<Info>, m: map<Key, seq<Item>>, leaf: nat, key: Key)
    requires Tree(s, info, Done) && Represents(s, m) && leaf < |s.nodes| && s.nodes[leaf].Leaf? && In(key, info[leaf])
    ensures key in m <==> key in s.nodes[leaf].keys
  {
    assert NodeOk(s.nodes[leaf], info[leaf], leaf == s.root);
    if key in s.nodes[leaf].keys {
      var i: nat :| i < |s.nodes[leaf].keys| && s.nodes[leaf].keys[i] == key;
      assert Binds(s.nodes[leaf], i, m);
    }
    if key in m {
      var id: nat :| id < |s.nodes| && s.nodes[id].Leaf? && key in s.nodes[id].keys;
      assert NodeOk(s.nodes[id], info[id], id == s.root);
      OneHolder(s, info, leaf, id, key);
    }
  }

  function Ancestor(s: State, id: nat, steps: nat): Option<nat>
    decreases steps
  {
    if steps == 0 then Some(id)
    else if id < |s.nodes| && s.nodes[id].parent.Some? then Ancestor(s, s.nodes[id].parent.value, steps - 1)
    else None
  }

  lemma {:induction false} HeightIsDistance(s: State, info: seq<Info>, id: nat)
    requires Tree(s, info, Done) && id < |s.nodes|
    ensures UpOk(s, info, Done, id) && Ancestor(s, id, info[s.root].height - info[id].height) == Some(s.root)
    decreases info[s.root].height - info[id].height
  {
    assert UpOk(s, info, Done, id);
    if id != s.root {
      var p := s.nodes[id].parent.value;
      var i: nat :| i < |s.nodes[p].children| && s.nodes[p].children[i] == id;
      assert KidOk(s, info, Done, p, i);
      HeightIsDistance(s, info, p);
    }
  }

  /** Every leaf is equally far from the root along the parent links. */
  lemma LeavesAreEquallyDeep(s: State, info: seq<Info>, leaf: nat)
    requires Tree(s, info, Done) && leaf < |s.nodes| && s.nodes[leaf].Leaf?
    ensures Ancestor(s, leaf, info[s.root].height) == Some(s.root)
  {
    assert NodeOk(s.nodes[leaf], info[leaf], leaf == s.root);
    HeightIsDistance(s, info, leaf);
  }

  /** The key after `keys[i]` in a leaf, or the first of the next leaf, is the next larger stored key. */
  ghost predicate Successor(m: map<Key, seq<Item>>, key: Key, after: Key) {
    after in m && key < after && forall k :: k in m && key < k ==> after <= k
  }

  lemma NextInLeaf(s: State, info: seq<Info>, m: map<Key, seq<Item>>, leaf: nat, i: nat)
    requires Tree(s, info, Done) && Represents(s, m) && leaf < |s.nodes| && s.nodes[leaf].Leaf?
    requires i + 1 < |s.nodes[leaf].keys|
    ensures Successor(m, s.nodes[leaf].keys[i], s.nodes[leaf].keys[i + 1])
  {
    var keys := s.nodes[leaf].keys;
    assert NodeOk(s.nodes[leaf], info[leaf], leaf == s.root) && Binds(s.nodes[leaf], i + 1, m);
    assert keys[i] in keys && keys[i + 1] in keys;
    forall k | k in m && keys[i] < k ensures keys[i + 1] <= k {
      if k < keys[i + 1] {
        StoredInHolder(s, info, m, leaf, k);
      }
    }
  }

  lemma PastLeaf(s: State, info: seq<Info>, m: map<Key, seq<Item>>, leaf: nat, k: Key)
    requires Tree(s, info, Done) && Represents(s, m) && leaf < |s.nodes| && s.nodes[leaf].Leaf?
    requires s.nodes[leaf].keys != [] && k in m && s.nodes[leaf].keys[|s.nodes[leaf].keys| - 1] < k
    ensures !Until(k, info[leaf].hi)
  {
    var keys := s.nodes[leaf].keys;
    assert NodeOk(s.nodes[leaf], info[leaf], leaf == s.root);
    assert keys[|keys| - 1] in keys;
    if Until(k, info[leaf].hi) {
      StoredInHolder(s, info, m, leaf, k);
    }
  }

  lemma NextInNeighbour(s: State, info: seq<Info>, m: map<Key, seq<Item>>, leaf: nat)
    requires Tree(s, info, Done) && Represents(s, m) && leaf < |s.nodes| && s.nodes[leaf].Leaf?
    requires s.nodes[leaf].keys != [] && s.nodes[leaf].next.Some?
    ensures var n := s.nodes[leaf].next.value;
            && n < |s.nodes| && s.nodes[n].Leaf? && s.nodes[n].keys != []
            && Successor(m, s.nodes[leaf].keys[|s.nodes[leaf].keys| - 1], s.nodes[n].keys[0])
  {
    var keys, n := s.nodes[leaf].keys, s.nodes[leaf].next.value;
    assert NextOk(s, info, Done, leaf);
    assert NodeOk(s.nodes[leaf], info[leaf], leaf == s.root) && NodeOk(s.nodes[n], info[n], n == s.root);
    assert UpOk(s, info, Done, n);
    var first := s.nodes[n].keys[0];
    assert first in s.nodes[n].keys && keys[|keys| - 1] in keys && Binds(s.nodes[n], 0, m);
    forall k | k in m && keys[|keys| - 1] < k ensures first <= k {
      PastLeaf(s, info, m, leaf, k);
      if k < first {
        StoredInHolder(s, info, m, n, k);
      }
    }
  }

  lemma NoneAfterLast(s: State, info: seq<Info>, m: map<Key, seq<Item>>, leaf: nat)
    requires Tree(s, info, Done) && Represents(s, m) && leaf < |s.nodes| && s.nodes[leaf].Leaf?
    requires s.nodes[leaf].keys != [] && s.nodes[leaf].next == None
    ensures forall k :: k in m ==> k <= s.nodes[leaf].keys[|s.nodes[leaf].keys| - 1]
  {
    var keys := s.nodes[leaf].keys;
    forall k | k in m ensures k <= keys[|keys| - 1] {
      assert NextOk(s, info, Done, leaf);
      if keys[|keys| - 1] < k {
        PastLeaf(s, info, m, leaf, k);
      }
    }
  }
}
