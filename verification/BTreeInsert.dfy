/** The steps of an insertion into the B+-tree, each of which keeps the tree in order. */
module BTreeInsert {
  import opened Types
  import opened BTreeSpec

  function Replace(s: State, id: nat, n: Node): State
    requires id < |s.nodes|
  {
    s.(nodes := s.nodes[id := n])
  }

  lemma InsertAtKeys(keys: seq<Key>, i: nat, key: Key)
    requires Ascending(keys) && Slot(keys, key, i) && key !in keys
    ensures Ascending(InsertAt(keys, i, key))
    ensures forall k :: k in InsertAt(keys, i, key) <==> k == key || k in keys
  {
    assert i < |keys| ==> keys[i] in keys;
    var q := InsertAt(keys, i, key);
    assert q[i] == key;
    forall k | k in keys ensures k in q {
      var j: nat :| j < |keys| && keys[j] == k;
      assert q[if j < i then j else j + 1] == k;
    }
  }

  // A key that is already in the leaf.

  lemma Prepend(s: State, info: seq<Info>, m: map<Key, seq<Item>>, leaf: nat, i: nat, item: Item)
    returns (s': State)
    requires Tree(s, info, Done) && Represents(s, m) && leaf < |s.nodes| && s.nodes[leaf].Leaf?
    requires i < |s.nodes[leaf].keys| == |s.nodes[leaf].items|
    ensures var n := s.nodes[leaf];
            s' == Replace(s, leaf, n.(items := n.items[i := [item] + n.items[i]]))
    ensures Tree(s', info, Done)
    ensures s.nodes[leaf].keys[i] in m
    ensures Represents(s', m[s.nodes[leaf].keys[i] := [item] + m[s.nodes[leaf].keys[i]]])
  {
    var n := s.nodes[leaf];
    var key := n.keys[i];
    var n' := n.(items := n.items[i := [item] + n.items[i]]);
    s' := Replace(s, leaf, n');
    LeafReplaced(s, info, leaf, n');
    assert Binds(n, i, m);
    var m' := m[key := [item] + m[key]];
    assert NodeOk(n, info[leaf], leaf == s.root);
    forall id: nat, j: nat | id < |s'.nodes| && s'.nodes[id].Leaf? && j < |s'.nodes[id].keys|
      ensures Binds(s'.nodes[id], j, m')
    {
      assert Binds(s.nodes[id], j, m);
      if id != leaf {
        OnlyInHolder(s, info, leaf, key, id);
      }
    }
    forall k | k in m' ensures exists id: nat :: id < |s'.nodes| && s'.nodes[id].Leaf? && k in s'.nodes[id].keys {
      var id: nat :| id < |s.nodes| && s.nodes[id].Leaf? && k in s.nodes[id].keys;
      assert k in s'.nodes[id].keys;
    }
  }

  lemma OnlyInHolder(s: State, info: seq<Info>, leaf: nat, key: Key, id: nat)
    requires Tree(s, info, Done) && leaf < |s.nodes| && s.nodes[leaf].Leaf? && In(key, info[leaf])
    requires id < |s.nodes| && s.nodes[id].Leaf? && id != leaf
    ensures key !in s.nodes[id].keys
  {
    assert NodeOk(s.nodes[leaf], info[leaf], leaf == s.root) && NodeOk(s.nodes[id], info[id], id == s.root);
    if key in s.nodes[id].keys {
      OneHolder(s, info, leaf, id, key);
    }
  }

  /** A leaf may be given other contents within its range. */
  lemma LeafReplaced(s: State, info: seq<Info>, leaf: nat, n: Node)
    requires Tree(s, info, Done) && leaf < |s.nodes| && s.nodes[leaf].Leaf? && n.Leaf?
    requires n.parent == s.nodes[leaf].parent && n.next == s.nodes[leaf].next
    requires NodeOk(n, info[leaf], leaf == s.root)
    ensures Tree(Replace(s, leaf, n), info, Done)
  {
    var s' := Replace(s, leaf, n);
    forall p: nat, i: nat | p < |s'.nodes| && s'.nodes[p].Inner? && i < |s'.nodes[p].children|
      ensures KidOk(s', info, Done, p, i)
    {
      assert KidOk(s, info, Done, p, i);
    }
    forall id: nat | id < |s'.nodes| ensures UpOk(s', info, Done, id) && NextOk(s', info, Done, id) {
      assert UpOk(s, info, Done, id) && NextOk(s, info, Done, id);
    }
  }

  // A new key.

  /** The leaf with one more key and its item, which may make it one key too wide. */
  function PutKey(s: State, leaf: nat, i: nat, key: Key, item: Item): State
    requires leaf < |s.nodes| && s.nodes[leaf].Leaf? && i <= |s.nodes[leaf].keys| == |s.nodes[leaf].items|
  {
    var n := s.nodes[leaf];
    Replace(s, leaf, n.(keys := InsertAt(n.keys, i, key), items := InsertAt(n.items, i, [item])))
  }

  lemma KeyPut(s: State, info: seq<Info>, leaf: nat, i: nat, key: Key, item: Item)
    requires Tree(s, info, Done) && leaf < |s.nodes| && s.nodes[leaf].Leaf? && In(key, info[leaf])
    requires Slot(s.nodes[leaf].keys, key, i) && key !in s.nodes[leaf].keys
    requires |s.nodes[leaf].items| == |s.nodes[leaf].keys|
    ensures Tree(PutKey(s, leaf, i, key, item), info, Done)
  {
    var n := s.nodes[leaf];
    assert NodeOk(n, info[leaf], leaf == s.root);
    InsertAtKeys(n.keys, i, key);
    LeafReplaced(s, info, leaf, PutKey(s, leaf, i, key, item).nodes[leaf]);
  }

  lemma PutKeyBinds(n: Node, n': Node, i: nat, key: Key, item: Item, m: map<Key, seq<Item>>, j: nat)
    requires n.Leaf? && i <= |n.keys| == |n.items| && key !in m && j <= |n.keys|
    requires n' == n.(keys := InsertAt(n.keys, i, key), items := InsertAt(n.items, i, [item]))
    requires forall l: nat :: l < |n.keys| ==> Binds(n, l, m)
    ensures Binds(n', j, m[key := [item]])
  {
    if j != i {
      var l := if j < i then j else j - 1;
      assert Binds(n, l, m) && n'.keys[j] == n.keys[l] && n'.items[j] == n.items[l];
    }
  }

  lemma PutKeyRepresents(s: State, m: map<Key, seq<Item>>, leaf: nat, i: nat, key: Key, item: Item)
    requires Represents(s, m) && key !in m && leaf < |s.nodes| && s.nodes[leaf].Leaf?
    requires i <= |s.nodes[leaf].keys| == |s.nodes[leaf].items|
    ensures Represents(PutKey(s, leaf, i, key, item), m[key := [item]])
  {
    var s', m' := PutKey(s, leaf, i, key, item), m[key := [item]];
    var n, n' := s.nodes[leaf], s'.nodes[leaf];
    forall id: nat, j: nat | id < |s'.nodes| && s'.nodes[id].Leaf? && j < |s'.nodes[id].keys|
      ensures Binds(s'.nodes[id], j, m')
    {
      if id == leaf {
        PutKeyBinds(n, n', i, key, item, m, j);
      } else {
        assert Binds(s.nodes[id], j, m);
      }
    }
    forall k | k in m' ensures exists id: nat :: id < |s'.nodes| && s'.nodes[id].Leaf? && k in s'.nodes[id].keys {
      if k == key {
        assert n'.keys[i] == key;
        assert k in s'.nodes[leaf].keys;
      } else {
        PutKeyStays(s, leaf, i, key, item, k);
      }
    }
  }

  lemma PutKeyStays(s: State, leaf: nat, i: nat, key: Key, item: Item, k: Key)
    requires leaf < |s.nodes| && s.nodes[leaf].Leaf? && i <= |s.nodes[leaf].keys| == |s.nodes[leaf].items|
    requires exists id: nat :: id < |s.nodes| && s.nodes[id].Leaf? && k in s.nodes[id].keys
    ensures var s' := PutKey(s, leaf, i, key, item);
            exists id: nat :: id < |s'.nodes| && s'.nodes[id].Leaf? && k in s'.nodes[id].keys
  {
    var s' := PutKey(s, leaf, i, key, item);
    var id: nat :| id < |s.nodes| && s.nodes[id].Leaf? && k in s.nodes[id].keys;
    var j: nat :| j < |s.nodes[id].keys| && s.nodes[id].keys[j] == k;
    assert s'.nodes[id].keys[if id == leaf && j >= i then j + 1 else j] == k;
    assert k in s'.nodes[id].keys;
  }

  // Splitting a leaf.

  function CutLeaf(s: State, leaf: nat, m: nat): State
    requires leaf < |s.nodes| && s.nodes[leaf].Leaf? && m <= |s.nodes[leaf].keys| == |s.nodes[leaf].items|
  {
    var n := s.nodes[leaf];
    var left := Leaf(n.keys[..m], n.items[..m], n.parent, Some(|s.nodes|));
    var right := Leaf(n.keys[m..], n.items[m..], n.parent, n.next);
    s.(nodes := s.nodes[leaf := left] + [right])
  }

  ghost function CutInfo(info: seq<Info>, id: nat, key: Key): seq<Info>
    requires id < |info|
  {
    info[id := info[id].(hi := At(key))] + [info[id].(lo := At(key))]
  }

  lemma CutRanges(keys: seq<Key>, f: Info, m: nat)
    requires Ascending(keys) && m < |keys| && forall k :: k in keys ==> In(k, f)
    ensures forall k :: k in keys[..m] ==> In(k, f.(hi := At(keys[m])))
    ensures forall k :: k in keys[m..] ==> In(k, f.(lo := At(keys[m])))
    ensures forall k :: k in keys[m + 1..] ==> In(k, f.(lo := At(keys[m])))
  {
    forall k | k in keys[..m] ensures In(k, f.(hi := At(keys[m]))) {
      assert k in keys;
    }
    forall k | k in keys[m..] ensures In(k, f.(lo := At(keys[m]))) {
      assert k in keys;
    }
    forall k | k in keys[m + 1..] ensures k in keys[m..] {
      var j: nat :| j < |keys[m + 1..]| && keys[m + 1..][j] == k;
      assert keys[m..][j + 1] == k;
    }
  }

  lemma LeafCutNodes(s: State, info: seq<Info>, leaf: nat, m: nat)
    requires Tree(s, info, Done) && leaf < |s.nodes| && s.nodes[leaf].Leaf?
    requires 0 < m < |s.nodes[leaf].keys| == |s.nodes[leaf].items|
    ensures var s', info' := CutLeaf(s, leaf, m), CutInfo(info, leaf, s.nodes[leaf].keys[m]);
            forall id :: 0 <= id < |s'.nodes| ==> NodeOk(s'.nodes[id], info'[id], id == s'.root)
  {
    assert NodeOk(s.nodes[leaf], info[leaf], leaf == s.root);
    CutRanges(s.nodes[leaf].keys, info[leaf], m);
    assert forall id :: 0 <= id < |s.nodes| ==> NodeOk(s.nodes[id], info[id], id == s.root);
  }

  /** A leaf with at least two keys, cut so that both halves keep some. */
  ghost predicate Cuttable(s: State, info: seq<Info>, leaf: nat, m: nat) {
    && Tree(s, info, Done) && leaf < |s.nodes| && s.nodes[leaf].Leaf?
    && 0 < m < |s.nodes[leaf].keys| == |s.nodes[leaf].items|
  }

  lemma LeafCutKid(s: State, info: seq<Info>, leaf: nat, m: nat, p: nat, i: nat)
    requires Cuttable(s, info, leaf, m) && p < |s.nodes| && s.nodes[p].Inner? && i < |s.nodes[p].children|
    ensures Shaped(CutLeaf(s, leaf, m), CutInfo(info, leaf, s.nodes[leaf].keys[m]), Half(leaf, |s.nodes|))
    ensures KidOk(CutLeaf(s, leaf, m), CutInfo(info, leaf, s.nodes[leaf].keys[m]), Half(leaf, |s.nodes|), p, i)
  {
    assert KidOk(s, info, Done, p, i);
  }

  lemma LeafCutUp(s: State, info: seq<Info>, leaf: nat, m: nat, id: nat)
    requires Cuttable(s, info, leaf, m) && id <= |s.nodes|
    ensures Shaped(CutLeaf(s, leaf, m), CutInfo(info, leaf, s.nodes[leaf].keys[m]), Half(leaf, |s.nodes|))
    ensures UpOk(CutLeaf(s, leaf, m), CutInfo(info, leaf, s.nodes[leaf].keys[m]), Half(leaf, |s.nodes|), id)
  {
    assert UpOk(s, info, Done, if id < |s.nodes| then id else leaf);
  }

  lemma LeafCutNext(s: State, info: seq<Info>, leaf: nat, m: nat, id: nat)
    requires Cuttable(s, info, leaf, m) && id <= |s.nodes|
    ensures Shaped(CutLeaf(s, leaf, m), CutInfo(info, leaf, s.nodes[leaf].keys[m]), Half(leaf, |s.nodes|))
    ensures NextOk(CutLeaf(s, leaf, m), CutInfo(info, leaf, s.nodes[leaf].keys[m]), Half(leaf, |s.nodes|), id)
  {
    assert NextOk(s, info, Done, if id < |s.nodes| then id else leaf);
  }

  lemma LeafCutHalf(s: State, info: seq<Info>, leaf: nat, m: nat)
    requires Cuttable(s, info, leaf, m)
    ensures Shaped(CutLeaf(s, leaf, m), CutInfo(info, leaf, s.nodes[leaf].keys[m]), Half(leaf, |s.nodes|))
    ensures HalfOk(CutLeaf(s, leaf, m), CutInfo(info, leaf, s.nodes[leaf].keys[m]), Half(leaf, |s.nodes|))
  {
    var n := s.nodes[leaf];
    assert NodeOk(n, info[leaf], leaf == s.root);
    assert n.keys[0] in n.keys && n.keys[m] in n.keys;
  }

  lemma LeafCut(s: State, info: seq<Info>, leaf: nat, m: nat)
    requires Cuttable(s, info, leaf, m)
    ensures Tree(CutLeaf(s, leaf, m), CutInfo(info, leaf, s.nodes[leaf].keys[m]), Half(leaf, |s.nodes|))
  {
    var s', info' := CutLeaf(s, leaf, m), CutInfo(info, leaf, s.nodes[leaf].keys[m]);
    var pend := Half(leaf, |s.nodes|);
    LeafCutHalf(s, info, leaf, m);
    LeafCutNodes(s, info, leaf, m);
    forall p: nat, i: nat | p < |s'.nodes| && s'.nodes[p].Inner? && i < |s'.nodes[p].children|
      ensures KidOk(s', info', pend, p, i)
    {
      LeafCutKid(s, info, leaf, m, p, i);
    }
    forall id: nat | id < |s'.nodes| ensures UpOk(s', info', pend, id) && NextOk(s', info', pend, id) {
      LeafCutUp(s, info, leaf, m, id);
      LeafCutNext(s, info, leaf, m, id);
    }
  }

  lemma LeafCutRepresents(s: State, m: map<Key, seq<Item>>, leaf: nat, at: nat)
    requires Represents(s, m) && leaf < |s.nodes| && s.nodes[leaf].Leaf?
    requires at <= |s.nodes[leaf].keys| == |s.nodes[leaf].items|
    ensures Represents(CutLeaf(s, leaf, at), m)
  {
    var n := s.nodes[leaf];
    var s' := CutLeaf(s, leaf, at);
    forall id: nat, j: nat | id < |s'.nodes| && s'.nodes[id].Leaf? && j < |s'.nodes[id].keys|
      ensures Binds(s'.nodes[id], j, m)
    {
      if id == |s.nodes| {
        assert Binds(n, at + j, m);
      } else {
        assert Binds(s.nodes[id], j, m);
      }
    }
    forall k | k in m ensures exists id: nat :: id < |s'.nodes| && s'.nodes[id].Leaf? && k in s'.nodes[id].keys {
      var id: nat :| id < |s.nodes| && s.nodes[id].Leaf? && k in s.nodes[id].keys;
      if id == leaf {
        assert n.keys == n.keys[..at] + n.keys[at..];
        assert k in s'.nodes[leaf].keys || k in s'.nodes[|s.nodes|].keys;
      } else {
        assert k in s'.nodes[id].keys;
      }
    }
  }

  // Entering the right half in the parent.

  function AddChild(s: State, p: nat, i: nat, key: Key, right: nat): State
    requires p < |s.nodes| && s.nodes[p].Inner? && i <= |s.nodes[p].keys|
    requires |s.nodes[p].children| == |s.nodes[p].keys| + 1
  {
    var n := s.nodes[p];
    Replace(s, p, n.(keys := InsertAt(n.keys, i, key), children := InsertAt(n.children, i + 1, right)))
  }

  /** The separator goes in right after the slot of the left half. */
  lemma SlotOfLeft(s: State, info: seq<Info>, left: nat, right: nat, p: nat, i: nat)
    requires Tree(s, info, Half(left, right)) && s.nodes[left].parent == Some(p) && p < |s.nodes|
    requires info[left].hi.At? && Slot(s.nodes[p].keys, info[left].hi.key, i)
    ensures s.nodes[p].Inner? && KidOk(s, info, Half(left, right), p, i) && s.nodes[p].children[i] == left
    ensures info[left].hi.key !in s.nodes[p].keys && In(info[left].hi.key, info[p])
  {
    var pend, key, keys := Half(left, right), info[left].hi.key, s.nodes[p].keys;
    assert UpOk(s, info, pend, left) && HalfOk(s, info, pend);
    var j: nat :| j < |s.nodes[p].children| && s.nodes[p].children[j] == left;
    assert KidOk(s, info, pend, p, j);
    assert NodeOk(s.nodes[p], info[p], p == s.root);
    assert j > 0 ==> keys[j - 1] in keys && keys[j - 1] < key;
    assert j < |keys| ==> keys[j] in keys && key < keys[j];
    assert i == j;
  }

  lemma ChildAdded(s: State, info: seq<Info>, left: nat, right: nat, p: nat, i: nat)
    requires Tree(s, info, Half(left, right)) && s.nodes[left].parent == Some(p) && p < |s.nodes|
    requires info[left].hi.At? && Slot(s.nodes[p].keys, info[left].hi.key, i)
    ensures s.nodes[p].Inner? && |s.nodes[p].children| == |s.nodes[p].keys| + 1
    ensures Tree(AddChild(s, p, i, info[left].hi.key, right), info, Done)
  {
    var pend, key := Half(left, right), info[left].hi.key;
    SlotOfLeft(s, info, left, right, p, i);
    var n := s.nodes[p];
    var s' := AddChild(s, p, i, key, right);
    assert NodeOk(n, info[p], p == s.root) && HalfOk(s, info, pend);
    InsertAtKeys(n.keys, i, key);
    forall id | 0 <= id < |s'.nodes| ensures NodeOk(s'.nodes[id], info[id], id == s'.root) {
      assert NodeOk(s.nodes[id], info[id], id == s.root);
    }
    forall q: nat, j: nat | q < |s'.nodes| && s'.nodes[q].Inner? && j < |s'.nodes[q].children|
      ensures KidOk(s', info, Done, q, j)
    {
      ChildAddedKid(s, info, left, right, p, i, q, j);
    }
    forall id: nat | id < |s'.nodes| ensures UpOk(s', info, Done, id) && NextOk(s', info, Done, id) {
      ChildAddedUp(s, info, left, right, p, i, id);
      assert NextOk(s, info, pend, id);
    }
  }

  /** The left half sits in slot `i` of `p`. */
  ghost predicate Entering(s: State, info: seq<Info>, left: nat, right: nat, p: nat, i: nat) {
    && Tree(s, info, Half(left, right)) && s.nodes[left].parent == Some(p) && p < |s.nodes| && info[left].hi.At?
    && s.nodes[p].Inner? && KidOk(s, info, Half(left, right), p, i) && s.nodes[p].children[i] == left
  }

  lemma ChildAddedKid(s: State, info: seq<Info>, left: nat, right: nat, p: nat, i: nat, q: nat, j: nat)
    requires Entering(s, info, left, right, p, i)
    requires var s' := AddChild(s, p, i, info[left].hi.key, right);
             q < |s.nodes| && s'.nodes[q].Inner? && j < |s'.nodes[q].children|
    ensures KidOk(AddChild(s, p, i, info[left].hi.key, right), info, Done, q, j)
  {
    if q != p {
      KidElsewhere(s, info, left, right, p, i, q, j);
    } else if j != i && j != i + 1 {
      KidShifted(s, info, left, right, p, i, j);
    }
  }

  lemma KidElsewhere(s: State, info: seq<Info>, left: nat, right: nat, p: nat, i: nat, q: nat, j: nat)
    requires Entering(s, info, left, right, p, i) && q < |s.nodes| && q != p && s.nodes[q].Inner?
    requires j < |s.nodes[q].children|
    ensures KidOk(AddChild(s, p, i, info[left].hi.key, right), info, Done, q, j)
  {
    assert KidOk(s, info, Half(left, right), q, j);
  }

  lemma KidShifted(s: State, info: seq<Info>, left: nat, right: nat, p: nat, i: nat, j: nat)
    requires Entering(s, info, left, right, p, i) && j <= |s.nodes[p].children| && j != i && j != i + 1
    ensures KidOk(AddChild(s, p, i, info[left].hi.key, right), info, Done, p, j)
  {
    var pend := Half(left, right);
    var n, n' := s.nodes[p], AddChild(s, p, i, info[left].hi.key, right).nodes[p];
    var j0 := if j < i then j else j - 1;
    assert KidOk(s, info, pend, p, j0) && n'.children[j] == n.children[j0];
    if j0 < i { LoDiffers(s, info, pend, p, j0, i); } else { LoDiffers(s, info, pend, p, i, j0); }
  }

  /** Two slots of a node hold different children. */
  lemma LoDiffers(s: State, info: seq<Info>, pend: Pending, p: nat, i: nat, j: nat)
    requires Tree(s, info, pend) && p < |s.nodes| && s.nodes[p].Inner? && i < j < |s.nodes[p].children|
    ensures s.nodes[p].children[i] != s.nodes[p].children[j]
  {
    assert KidOk(s, info, pend, p, i) && KidOk(s, info, pend, p, j) && NodeOk(s.nodes[p], info[p], p == s.root);
    assert s.nodes[p].keys[0] in s.nodes[p].keys;
  }

  lemma ChildAddedUp(s: State, info: seq<Info>, left: nat, right: nat, p: nat, i: nat, id: nat)
    requires Entering(s, info, left, right, p, i) && id < |s.nodes|
    ensures UpOk(AddChild(s, p, i, info[left].hi.key, right), info, Done, id)
  {
    var pend := Half(left, right);
    var s' := AddChild(s, p, i, info[left].hi.key, right);
    assert UpOk(s, info, pend, id) && UpOk(s, info, pend, left) && HalfOk(s, info, pend);
    var kids, kids' := s.nodes[p].children, s'.nodes[p].children;
    assert kids'[i + 1] == right;
    forall c | c in kids ensures c in kids' {
      var j: nat :| j < |kids| && kids[j] == c;
      assert kids'[if j <= i then j else j + 1] == c;
    }
  }

  // Splitting an inner node.

  function Adopted(s: State, kids: seq<nat>, p: nat): (nodes: seq<Node>)
    ensures |nodes| == |s.nodes|
  {
    seq(|s.nodes|,
        id requires 0 <= id < |s.nodes| => if id in kids then s.nodes[id].(parent := Some(p)) else s.nodes[id])
  }

  /** Keys and children up to separator `m` stay, those after it move to a new node, which adopts them. */
  function CutInner(s: State, p: nat, m: nat): State
    requires p < |s.nodes| && s.nodes[p].Inner? && m < |s.nodes[p].keys|
    requires |s.nodes[p].children| == |s.nodes[p].keys| + 1
  {
    var n := s.nodes[p];
    var left := Inner(n.keys[..m], n.children[..m + 1], n.parent, Some(|s.nodes|));
    var right := Inner(n.keys[m + 1..], n.children[m + 1..], n.parent, n.next);
    s.(nodes := Adopted(s, right.children, |s.nodes|)[p := left] + [right])
  }

  lemma InnerCutNodes(s: State, info: seq<Info>, p: nat, m: nat)
    requires Tree(s, info, Done) && p < |s.nodes| && s.nodes[p].Inner?
    requires 0 < m < |s.nodes[p].keys| - 1 && |s.nodes[p].children| == |s.nodes[p].keys| + 1
    ensures var s', info' := CutInner(s, p, m), CutInfo(info, p, s.nodes[p].keys[m]);
            forall id :: 0 <= id < |s'.nodes| ==> NodeOk(s'.nodes[id], info'[id], id == s'.root)
  {
    assert NodeOk(s.nodes[p], info[p], p == s.root);
    CutRanges(s.nodes[p].keys, info[p], m);
    assert forall id :: 0 <= id < |s.nodes| ==> NodeOk(s.nodes[id], info[id], id == s.root);
  }

  /** An inner node with at least three keys, cut around one that is neither the first nor the last. */
  ghost predicate Halvable(s: State, info: seq<Info>, p: nat, m: nat) {
    && Tree(s, info, Done) && p < |s.nodes| && s.nodes[p].Inner?
    && 0 < m < |s.nodes[p].keys| - 1 && |s.nodes[p].children| == |s.nodes[p].keys| + 1
  }

  lemma InnerCut(s: State, info: seq<Info>, p: nat, m: nat)
    requires Halvable(s, info, p, m)
    ensures Tree(CutInner(s, p, m), CutInfo(info, p, s.nodes[p].keys[m]), Half(p, |s.nodes|))
  {
    var s', info', pend := CutInner(s, p, m), CutInfo(info, p, s.nodes[p].keys[m]), Half(p, |s.nodes|);
    InnerCutHalf(s, info, p, m);
    InnerCutNodes(s, info, p, m);
    forall q: nat, i: nat | q < |s'.nodes| && s'.nodes[q].Inner? && i < |s'.nodes[q].children|
      ensures KidOk(s', info', pend, q, i)
    {
      if q == |s.nodes| { MovedKid(s, info, p, m, i); } else { KeptKid(s, info, p, m, q, i); }
    }
    forall id: nat | id < |s'.nodes| ensures UpOk(s', info', pend, id) && NextOk(s', info', pend, id) {
      InnerCutUp(s, info, p, m, id);
      InnerCutNext(s, info, p, m, id);
    }
  }

  lemma InnerCutHalf(s: State, info: seq<Info>, p: nat, m: nat)
    requires Halvable(s, info, p, m)
    ensures Shaped(CutInner(s, p, m), CutInfo(info, p, s.nodes[p].keys[m]), Half(p, |s.nodes|))
    ensures HalfOk(CutInner(s, p, m), CutInfo(info, p, s.nodes[p].keys[m]), Half(p, |s.nodes|))
  {
    var n := s.nodes[p];
    assert NodeOk(n, info[p], p == s.root);
    assert n.keys[0] in n.keys && n.keys[m] in n.keys;
  }

  lemma InnerCutNext(s: State, info: seq<Info>, p: nat, m: nat, id: nat)
    requires Halvable(s, info, p, m) && id <= |s.nodes|
    ensures Shaped(CutInner(s, p, m), CutInfo(info, p, s.nodes[p].keys[m]), Half(p, |s.nodes|))
    ensures NextOk(CutInner(s, p, m), CutInfo(info, p, s.nodes[p].keys[m]), Half(p, |s.nodes|), id)
  {
    assert NextOk(s, info, Done, if id < |s.nodes| then id else p);
  }

  lemma NotOwnChild(s: State, info: seq<Info>, p: nat)
    requires Tree(s, info, Done) && p < |s.nodes| && s.nodes[p].Inner?
    ensures p !in s.nodes[p].children
  {
    forall i: nat | i < |s.nodes[p].children| ensures s.nodes[p].children[i] != p {
      assert KidOk(s, info, Done, p, i);
    }
  }

  /** A child belongs to one parent, at one position. */
  lemma OnePlace(s: State, info: seq<Info>, p: nat, i: nat, q: nat, j: nat)
    requires Tree(s, info, Done) && p < |s.nodes| && s.nodes[p].Inner? && i < |s.nodes[p].children|
    requires q < |s.nodes| && s.nodes[q].Inner? && j < |s.nodes[q].children|
    requires s.nodes[p].children[i] == s.nodes[q].children[j]
    ensures p == q && i == j
  {
    assert KidOk(s, info, Done, p, i) && KidOk(s, info, Done, q, j);
    if i < j { LoDiffers(s, info, Done, p, i, j); }
    if j < i { LoDiffers(s, info, Done, p, j, i); }
  }

  lemma MovedKid(s: State, info: seq<Info>, p: nat, m: nat, i: nat)
    requires Halvable(s, info, p, m) && i < |s.nodes[p].children| - m - 1
    ensures Shaped(CutInner(s, p, m), CutInfo(info, p, s.nodes[p].keys[m]), Half(p, |s.nodes|))
    ensures KidOk(CutInner(s, p, m), CutInfo(info, p, s.nodes[p].keys[m]), Half(p, |s.nodes|), |s.nodes|, i)
  {
    var moved := s.nodes[p].children[m + 1..];
    NotOwnChild(s, info, p);
    assert KidOk(s, info, Done, p, m + 1 + i);
    assert moved[i] == s.nodes[p].children[m + 1 + i] && moved[i] in moved;
  }

  /** The children that stay are not among those that move. */
  lemma NotMoved(s: State, info: seq<Info>, p: nat, m: nat, q: nat, i: nat)
    requires Halvable(s, info, p, m) && q < |s.nodes| && s.nodes[q].Inner? && i < |s.nodes[q].children|
    requires q == p ==> i <= m
    ensures s.nodes[q].children[i] !in s.nodes[p].children[m + 1..]
  {
    var moved := s.nodes[p].children[m + 1..];
    forall j: nat | j < |moved| ensures moved[j] != s.nodes[q].children[i] {
      if moved[j] == s.nodes[q].children[i] {
        OnePlace(s, info, p, m + 1 + j, q, i);
      }
    }
  }

  lemma KeptKid(s: State, info: seq<Info>, p: nat, m: nat, q: nat, i: nat)
    requires Halvable(s, info, p, m) && q < |s.nodes| && s.nodes[q].Inner?
    requires i < |s.nodes[q].children| && (q == p ==> i <= m)
    ensures Shaped(CutInner(s, p, m), CutInfo(info, p, s.nodes[p].keys[m]), Half(p, |s.nodes|))
    ensures KidOk(CutInner(s, p, m), CutInfo(info, p, s.nodes[p].keys[m]), Half(p, |s.nodes|), q, i)
  {
    assert KidOk(s, info, Done, q, i);
    NotMoved(s, info, p, m, q, i);
  }

  /** A child of the cut node is a child of the half it now points to. */
  lemma CutChildUp(s: State, info: seq<Info>, p: nat, m: nat, id: nat)
    requires Halvable(s, info, p, m) && id < |s.nodes| && id in s.nodes[p].children
    ensures var s' := CutInner(s, p, m);
            var q := if id in s.nodes[p].children[m + 1..] then |s.nodes| else p;
            s'.nodes[id].parent == Some(q) && id in s'.nodes[q].children && id != s.root
  {
    var n := s.nodes[p];
    NotOwnChild(s, info, p);
    assert n.children == n.children[..m + 1] + n.children[m + 1..];
    var i: nat :| i < |n.children| && n.children[i] == id;
    assert KidOk(s, info, Done, p, i);
    assert UpOk(s, info, Done, id) && UpOk(s, info, Done, p);
  }

  lemma InnerCutUp(s: State, info: seq<Info>, p: nat, m: nat, id: nat)
    requires Halvable(s, info, p, m) && id <= |s.nodes|
    ensures Shaped(CutInner(s, p, m), CutInfo(info, p, s.nodes[p].keys[m]), Half(p, |s.nodes|))
    ensures UpOk(CutInner(s, p, m), CutInfo(info, p, s.nodes[p].keys[m]), Half(p, |s.nodes|), id)
  {
    assert UpOk(s, info, Done, p);
    if id < |s.nodes| {
      assert UpOk(s, info, Done, id);
      if id in s.nodes[p].children {
        CutChildUp(s, info, p, m, id);
      }
    }
  }

  // A new root.

  function Raised(s: State, left: nat, key: Key, right: nat): State
    requires left < |s.nodes| && right < |s.nodes|
  {
    var top := |s.nodes|;
    var l := s.nodes[left].(parent := Some(top), next := Some(right));
    var r := s.nodes[right].(parent := Some(top));
    State(s.nodes[left := l][right := r] + [Inner([key], [left, right], None, None)], top)
  }

  /** The split node was the root. */
  ghost predicate Raising(s: State, info: seq<Info>, left: nat, right: nat) {
    && Tree(s, info, Half(left, right)) && s.nodes[left].parent == None && s.nodes[left].next == Some(right)
    && info[left].hi.At?
  }

  ghost function RaisedInfo(info: seq<Info>, left: nat): seq<Info>
    requires left < |info|
  {
    info + [Info(info[left].height + 1, Least, Most)]
  }

  lemma SplitRoot(s: State, info: seq<Info>, left: nat, right: nat)
    requires Raising(s, info, left, right)
    ensures left == s.root && HalfOk(s, info, Half(left, right)) && UpOk(s, info, Half(left, right), left)
    ensures Shaped(Raised(s, left, info[left].hi.key, right), RaisedInfo(info, left), Done)
  {
    assert UpOk(s, info, Half(left, right), left);
  }

  lemma RaisedNode(s: State, info: seq<Info>, left: nat, right: nat, id: nat)
    requires Raising(s, info, left, right) && id <= |s.nodes|
    ensures NodeOk(Raised(s, left, info[left].hi.key, right).nodes[id], RaisedInfo(info, left)[id], id == |s.nodes|)
  {
    SplitRoot(s, info, left, right);
    if id < |s.nodes| {
      assert NodeOk(s.nodes[id], info[id], id == s.root);
    }
  }

  lemma RaisedKid(s: State, info: seq<Info>, left: nat, right: nat, q: nat, i: nat)
    requires Raising(s, info, left, right) && q <= |s.nodes|
    requires var n := Raised(s, left, info[left].hi.key, right).nodes[q]; n.Inner? && i < |n.children|
    ensures Shaped(Raised(s, left, info[left].hi.key, right), RaisedInfo(info, left), Done)
    ensures KidOk(Raised(s, left, info[left].hi.key, right), RaisedInfo(info, left), Done, q, i)
  {
    SplitRoot(s, info, left, right);
    if q < |s.nodes| {
      assert KidOk(s, info, Half(left, right), q, i);
    }
  }

  lemma RaisedUp(s: State, info: seq<Info>, left: nat, right: nat, id: nat)
    requires Raising(s, info, left, right) && id <= |s.nodes|
    ensures Shaped(Raised(s, left, info[left].hi.key, right), RaisedInfo(info, left), Done)
    ensures UpOk(Raised(s, left, info[left].hi.key, right), RaisedInfo(info, left), Done, id)
    ensures NextOk(Raised(s, left, info[left].hi.key, right), RaisedInfo(info, left), Done, id)
  {
    SplitRoot(s, info, left, right);
    if id < |s.nodes| {
      assert UpOk(s, info, Half(left, right), id) && NextOk(s, info, Half(left, right), id);
    }
  }

  lemma RootRaised(s: State, info: seq<Info>, left: nat, right: nat)
    requires Raising(s, info, left, right)
    ensures Tree(Raised(s, left, info[left].hi.key, right), RaisedInfo(info, left), Done)
  {
    var s', info' := Raised(s, left, info[left].hi.key, right), RaisedInfo(info, left);
    SplitRoot(s, info, left, right);
    forall id | 0 <= id < |s'.nodes| ensures NodeOk(s'.nodes[id], info'[id], id == s'.root) {
      RaisedNode(s, info, left, right, id);
    }
    forall q: nat, i: nat | q < |s'.nodes| && s'.nodes[q].Inner? && i < |s'.nodes[q].children|
      ensures KidOk(s', info', Done, q, i)
    {
      RaisedKid(s, info, left, right, q, i);
    }
    forall id: nat | id < |s'.nodes| ensures UpOk(s', info', Done, id) && NextOk(s', info', Done, id) {
      RaisedUp(s, info, left, right, id);
    }
  }

  // What these steps leave in the leaves.

  ghost predicate SameLeaves(s: State, s': State) {
    && |s.nodes| <= |s'.nodes|
    && (forall id :: 0 <= id < |s.nodes| ==> SameContents(s.nodes[id], s'.nodes[id]))
    && (forall id :: |s.nodes| <= id < |s'.nodes| ==> s'.nodes[id].Inner?)
  }

  ghost predicate SameContents(n: Node, n': Node) {
    n.Leaf? == n'.Leaf? && (n.Leaf? ==> n'.keys == n.keys && n'.items == n.items)
  }

  lemma SameLeavesRepresent(s: State, s': State, m: map<Key, seq<Item>>)
    requires SameLeaves(s, s') && Represents(s, m)
    ensures Represents(s', m)
  {
    forall id: nat, j: nat | id < |s'.nodes| && s'.nodes[id].Leaf? && j < |s'.nodes[id].keys|
      ensures Binds(s'.nodes[id], j, m)
    {
      assert SameContents(s.nodes[id], s'.nodes[id]);
      assert Binds(s.nodes[id], j, m);
    }
    forall k | k in m ensures exists id: nat :: id < |s'.nodes| && s'.nodes[id].Leaf? && k in s'.nodes[id].keys {
      var id: nat :| id < |s.nodes| && s.nodes[id].Leaf? && k in s.nodes[id].keys;
      assert SameContents(s.nodes[id], s'.nodes[id]);
      assert k in s'.nodes[id].keys;
    }
  }

  // A full inner node takes one more child and is cut.

  lemma ForeignChildren(s: State, info: seq<Info>, p: nat)
    requires Tree(s, info, Done) && p < |s.nodes| && s.nodes[p].Inner?
    ensures p !in s.nodes[p].children && forall c :: c in s.nodes[p].children ==> c < |s.nodes|
  {
    NotOwnChild(s, info, p);
    forall i: nat | i < |s.nodes[p].children| ensures s.nodes[p].children[i] < |s.nodes| {
      assert KidOk(s, info, Done, p, i);
    }
  }

  lemma CutInnerNarrow(s: State, s1: State, order: nat, p: nat, i: nat, key: Key, right: nat, m: nat)
    requires p < |s.nodes| && s.nodes[p].Inner? && i <= |s.nodes[p].keys|
    requires |s.nodes[p].children| == |s.nodes[p].keys| + 1
    requires Narrow(s, order) && s1 == AddChild(s, p, i, key, right) && |s1.nodes[p].keys| == order && m < order
    ensures SameLeaves(s, CutInner(s1, p, m)) && Narrow(CutInner(s1, p, m), order)
  {
  }

  lemma InnerSplitTree(s: State, info: seq<Info>, order: nat, left: nat, right: nat, p: nat, at: nat, mid: nat)
    requires Tree(s, info, Half(left, right)) && info[left].hi.At? && s.nodes[left].parent == Some(p)
    requires p < |s.nodes| && s.nodes[p].Inner? && |s.nodes[p].keys| == order - 1 && |s.nodes[p].children| == order
    requires Slot(s.nodes[p].keys, info[left].hi.key, at) && Narrow(s, order) && 0 < mid < order - 1
    ensures var s1 := AddChild(s, p, at, info[left].hi.key, right);
            && Tree(s1, info, Done)
            && Tree(CutInner(s1, p, mid), CutInfo(info, p, s1.nodes[p].keys[mid]), Half(p, |s.nodes|))
            && Narrow(CutInner(s1, p, mid), order) && SameLeaves(s, CutInner(s1, p, mid))
  {
    ChildAdded(s, info, left, right, p, at);
    var s1 := AddChild(s, p, at, info[left].hi.key, right);
    InnerCut(s1, info, p, mid);
    CutInnerNarrow(s, s1, order, p, at, info[left].hi.key, right, mid);
  }

  lemma LeafSplitTree(s: State, info: seq<Info>, order: nat, leaf: nat, at: nat, key: Key, item: Item, m: nat)
    requires Tree(s, info, Done) && Narrow(s, order) && leaf < |s.nodes| && s.nodes[leaf].Leaf?
    requires In(key, info[leaf]) && key !in s.nodes[leaf].keys && Slot(s.nodes[leaf].keys, key, at)
    requires |s.nodes[leaf].keys| == order - 1 == |s.nodes[leaf].items| && 0 < m < order
    ensures var s1 := PutKey(s, leaf, at, key, item);
            && Tree(CutLeaf(s1, leaf, m), CutInfo(info, leaf, s1.nodes[leaf].keys[m]), Half(leaf, |s.nodes|))
            && Narrow(CutLeaf(s1, leaf, m), order)
  {
    KeyPut(s, info, leaf, at, key, item);
    LeafCut(PutKey(s, leaf, at, key, item), info, leaf, m);
    assert forall id :: 0 <= id < |s.nodes| ==> |s.nodes[id].keys| < order;
  }

  // An insertion as a whole.

  /** A complete tree of the given order that holds `m`. */
  ghost predicate Whole(s: State, info: seq<Info>, m: map<Key, seq<Item>>, order: nat) {
    order >= 3 && Tree(s, info, Done) && Narrow(s, order) && Represents(s, m)
  }

  /** The same with the split of one node still to be entered in its parent. */
  ghost predicate Splitting(s: State, info: seq<Info>, m: map<Key, seq<Item>>, order: nat, left: nat, right: nat) {
    && order >= 3 && Tree(s, info, Half(left, right)) && Narrow(s, order) && Represents(s, m)
    && s.nodes[left].next == Some(right) && info[left].hi.At? && info[left].height <= info[s.root].height
  }

  lemma LeafSplit(
    s: State, info: seq<Info>, m: map<Key, seq<Item>>, order: nat, leaf: nat, at: nat, key: Key, item: Item, mid: nat)
    requires Whole(s, info, m, order) && leaf < |s.nodes| && s.nodes[leaf].Leaf? && In(key, info[leaf])
    requires key !in m && key !in s.nodes[leaf].keys && Slot(s.nodes[leaf].keys, key, at)
    requires |s.nodes[leaf].keys| == order - 1 == |s.nodes[leaf].items| && 0 < mid < order
    ensures var s1 := PutKey(s, leaf, at, key, item);
            var info' := CutInfo(info, leaf, s1.nodes[leaf].keys[mid]);
            && Splitting(CutLeaf(s1, leaf, mid), info', m[key := [item]], order, leaf, |s.nodes|)
            && info'[s.root].height - info'[leaf].height == info[s.root].height
  {
    var s1 := PutKey(s, leaf, at, key, item);
    LeafSplitTree(s, info, order, leaf, at, key, item, mid);
    PutKeyRepresents(s, m, leaf, at, key, item);
    LeafCutRepresents(s1, m[key := [item]], leaf, mid);
    assert NodeOk(s.nodes[leaf], info[leaf], leaf == s.root);
  }

  /** What the parent of a split node looks like. */
  ghost predicate ParentOk(s: State, info: seq<Info>, order: nat, left: nat, p: nat) {
    && left < |s.nodes| == |info| && p < |s.nodes| && s.root < |s.nodes| && s.nodes[p].Inner?
    && 0 < |s.nodes[p].keys| < order && |s.nodes[p].children| == |s.nodes[p].keys| + 1 && Ascending(s.nodes[p].keys)
    && info[p].height == info[left].height + 1 <= info[s.root].height
  }

  lemma ParentOf(s: State, info: seq<Info>, m: map<Key, seq<Item>>, order: nat, left: nat, right: nat)
    requires Splitting(s, info, m, order, left, right) && s.nodes[left].parent.Some?
    ensures ParentOk(s, info, order, left, s.nodes[left].parent.value)
  {
    var pend, p := Half(left, right), s.nodes[left].parent.value;
    assert UpOk(s, info, pend, left);
    var i: nat :| i < |s.nodes[p].children| && s.nodes[p].children[i] == left;
    assert KidOk(s, info, pend, p, i) && NodeOk(s.nodes[p], info[p], p == s.root);
  }

  lemma EntersWhole(
    s: State, info: seq<Info>, m: map<Key, seq<Item>>, order: nat, left: nat, right: nat, p: nat, at: nat)
    requires Splitting(s, info, m, order, left, right) && s.nodes[left].parent == Some(p)
    requires ParentOk(s, info, order, left, p) && |s.nodes[p].keys| < order - 1
    requires Slot(s.nodes[p].keys, info[left].hi.key, at)
    ensures Whole(AddChild(s, p, at, info[left].hi.key, right), info, m, order)
  {
    ChildAdded(s, info, left, right, p, at);
    SameLeavesRepresent(s, AddChild(s, p, at, info[left].hi.key, right), m);
  }

  lemma RaisesWhole(s: State, info: seq<Info>, m: map<Key, seq<Item>>, order: nat, left: nat, right: nat)
    requires Splitting(s, info, m, order, left, right) && s.nodes[left].parent == None
    ensures Whole(Raised(s, left, info[left].hi.key, right), RaisedInfo(info, left), m, order)
  {
    RootRaised(s, info, left, right);
    SameLeavesRepresent(s, Raised(s, left, info[left].hi.key, right), m);
  }

  /** Entering a child in a full node and cutting the node leaves a tree with one split under way, a level up. */
  lemma InnerSplit(
    s: State, info: seq<Info>, m: map<Key, seq<Item>>, order: nat, left: nat, right: nat, p: nat, at: nat, mid: nat)
    requires Splitting(s, info, m, order, left, right) && s.nodes[left].parent == Some(p)
    requires ParentOk(s, info, order, left, p) && |s.nodes[p].keys| == order - 1
    requires Slot(s.nodes[p].keys, info[left].hi.key, at) && 0 < mid < order - 1
    ensures var s1 := AddChild(s, p, at, info[left].hi.key, right);
            var info' := CutInfo(info, p, s1.nodes[p].keys[mid]);
            && p !in s1.nodes[p].children && (forall c :: c in s1.nodes[p].children ==> c < |s.nodes|)
            && Splitting(CutInner(s1, p, mid), info', m, order, p, |s.nodes|)
            && info'[s.root].height - info'[p].height == info[s.root].height - info[left].height - 1
  {
    var s1 := AddChild(s, p, at, info[left].hi.key, right);
    InnerSplitTree(s, info, order, left, right, p, at, mid);
    SameLeavesRepresent(s, CutInner(s1, p, mid), m);
    ForeignChildren(s1, info, p);
  }

  // The counter of the loop that makes room in a parent.

  /** A 32-bit unsigned counter goes from zero to its largest value. */
  function CountDown(i: nat): nat {
    if i == 0 then 0xFFFF_FFFF else i - 1
  }

  function CounterAfter(start: nat, rounds: nat): nat {
    if rounds == 0 then start else CountDown(CounterAfter(start, rounds - 1))
  }

  lemma {:induction false} CounterCounts(start: nat, rounds: nat)
    requires rounds <= start
    ensures CounterAfter(start, rounds) == start - rounds
  {
    if rounds > 0 {
      CounterCounts(start, rounds - 1);
    }
  }

  /** A loop that starts such a counter at `last` and runs while it is at least `insertIdx` comes to an end. */
  ghost predicate ShiftLoopEnds(last: nat, insertIdx: nat) {
    exists rounds: nat :: CounterAfter(last, rounds) < insertIdx
  }

  lemma ShiftLoopEndsIff(last: nat, insertIdx: nat)
    ensures ShiftLoopEnds(last, insertIdx) <==> insertIdx > 0
  {
    CounterCounts(last, last);
  }

  /** The index is zero exactly if the node that was split is the first child. */
  lemma SeparatorIsFirstIff(s: State, info: seq<Info>, left: nat, right: nat, p: nat, i: nat)
    requires Tree(s, info, Half(left, right)) && s.nodes[left].parent == Some(p) && p < |s.nodes|
    requires info[left].hi.At? && Slot(s.nodes[p].keys, info[left].hi.key, i)
    ensures s.nodes[p].Inner? && s.nodes[p].children != []
    ensures i == 0 <==> s.nodes[p].children[0] == left
  {
    SlotOfLeft(s, info, left, right, p, i);
    if i > 0 {
      LoDiffers(s, info, Half(left, right), p, 0, i);
    }
  }
}
