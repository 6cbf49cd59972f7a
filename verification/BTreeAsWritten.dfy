/**
 * Insertion into the B+-tree as the source has it, including the loop in `insert_into_parent` whose unsigned counter
 * may never fall below the insertion index, and exactly which insertions run into that.
 */
module BTreeAsWritten {
  import opened Types
  import opened BTreeSpec
  import opened BTreeInsert
  import opened BTreeFill

  /** The child the search turns to. */
  function TurnOf(keys: seq<Key>, key: Key): (i: nat)
    ensures i <= |keys|
  {
    if keys == [] || key < keys[0] then 0 else 1 + TurnOf(keys[1..], key)
  }

  lemma {:induction false} TurnOfIs(keys: seq<Key>, key: Key, i: nat)
    requires Turns(keys, key, i)
    ensures TurnOf(keys, key) == i
  {
    if keys != [] && keys[0] <= key {
      TurnOfIs(keys[1..], key, i - 1);
    }
  }

  /** The place a key is inserted at. */
  function SlotOf(keys: seq<Key>, key: Key): (i: nat)
    ensures i <= |keys|
  {
    if keys == [] || key <= keys[0] then 0 else 1 + SlotOf(keys[1..], key)
  }

  lemma {:induction false} SlotOfIs(keys: seq<Key>, key: Key, i: nat)
    requires Slot(keys, key, i)
    ensures SlotOf(keys, key) == i
  {
    if keys != [] && keys[0] < key {
      SlotOfIs(keys[1..], key, i - 1);
    }
  }

  lemma {:induction false} SlotOfMeans(keys: seq<Key>, key: Key)
    requires Ascending(keys)
    ensures Slot(keys, key, SlotOf(keys, key))
  {
    if keys != [] && keys[0] < key {
      SlotOfMeans(keys[1..], key);
    }
  }

  lemma SlotHolds(keys: seq<Key>, key: Key, i: nat)
    requires Ascending(keys) && Slot(keys, key, i)
    ensures key in keys <==> i < |keys| && keys[i] == key
  {
    if key in keys {
      var j: nat :| j < |keys| && keys[j] == key;
      assert i <= j;
    }
  }

  /** The descent of `find_leaf`, over `levels` levels. */
  function Search(s: State, id: nat, key: Key, levels: nat): nat
    decreases levels
  {
    if levels == 0 || id >= |s.nodes| || s.nodes[id].Leaf? then id
    else
      var i := TurnOf(s.nodes[id].keys, key);
      if i < |s.nodes[id].children| then Search(s, s.nodes[id].children[i], key, levels - 1) else id
  }

  lemma {:induction false} SearchFinds(s: State, info: seq<Info>, id: nat, key: Key)
    requires Tree(s, info, Done) && id < |s.nodes| && In(key, info[id])
    ensures var leaf := Search(s, id, key, info[id].height);
            leaf < |s.nodes| && s.nodes[leaf].Leaf? && In(key, info[leaf])
    decreases info[id].height
  {
    assert NodeOk(s.nodes[id], info[id], id == s.root);
    if s.nodes[id].Inner? {
      var i := SomeTurn(s.nodes[id].keys, key);
      TurnOfIs(s.nodes[id].keys, key, i);
      KidRange(s, info, id, i, key);
      SearchFinds(s, info, s.nodes[id].children[i], key);
    }
  }

  lemma {:induction false} SomeTurn(keys: seq<Key>, key: Key) returns (i: nat)
    requires Ascending(keys)
    ensures Turns(keys, key, i)
  {
    if keys == [] || key < keys[0] {
      i := 0;
    } else {
      var j := SomeTurn(keys[1..], key);
      i := j + 1;
    }
  }

  /** The nodes `insert_into_parent` is called with exist, and so does the parent. */
  predicate Enterable(s: State, left: nat, right: nat) {
    && left < |s.nodes| && right < |s.nodes|
    && (s.nodes[left].parent.Some? ==>
          && s.nodes[left].parent.value < |s.nodes|
          && var n := s.nodes[s.nodes[left].parent.value];
          n.Inner? && n.keys != [] && |n.children| == |n.keys| + 1)
  }

  /** `insert_into_parent`, with `levels` levels above `left`; `None` when its loop does not end. */
  ghost function EnterAsWritten(s: State, order: nat, left: nat, key: Key, right: nat, levels: nat): Option<State>
    decreases levels
  {
    if !Enterable(s, left, right) then Some(s)
    else if s.nodes[left].parent.None? then Some(Raised(s, left, key, right))
    else
      var p := s.nodes[left].parent.value;
      var at := SlotOf(s.nodes[p].keys, key);
      var s1 := AddChild(s, p, at, key, right);
      if |s.nodes[p].keys| < order - 1 then
        if ShiftLoopEnds(|s.nodes[p].keys| - 1, at) then Some(s1) else None
      else if levels == 0 then Some(s)
      else
        var mid := if Cut(order) > 0 then Cut(order) - 1 else 0;
        EnterAsWritten(CutInner(s1, p, mid), order, p, s1.nodes[p].keys[mid], |s.nodes|, levels - 1)
  }

  /** `index_insert` into a tree of the given height; `None` when a loop does not end. */
  ghost function InsertAsWritten(s: State, order: nat, height: nat, key: Key, item: Item): Option<State>
    requires order > 0
  {
    var leaf := Search(s, s.root, key, height);
    if leaf >= |s.nodes| || s.nodes[leaf].Inner? || |s.nodes[leaf].items| != |s.nodes[leaf].keys| then Some(s)
    else
      var n := s.nodes[leaf];
      var at := SlotOf(n.keys, key);
      if at < |n.keys| && n.keys[at] == key then
        Some(Replace(s, leaf, n.(items := n.items[at := [item] + n.items[at]])))
      else
        var s1 := PutKey(s, leaf, at, key, item);
        if |n.keys| < order - 1 then Some(s1)
        else
          var m := Cut(order - 1);
          EnterAsWritten(CutLeaf(s1, leaf, m), order, leaf, s1.nodes[leaf].keys[m], |s.nodes|, height)
  }

  /**
   * Climb from a node through full parents. The node at which the climb stops has a parent with room, and is that
   * parent's first child.
   */
  predicate StopsAtFirstChild(s: State, order: nat, id: nat, levels: nat)
    decreases levels
  {
    && levels > 0 && id < |s.nodes| && s.nodes[id].parent.Some? && s.nodes[id].parent.value < |s.nodes|
    && var p := s.nodes[id].parent.value;
    && s.nodes[p].Inner?
    && if |s.nodes[p].keys| < order - 1
       then s.nodes[p].children != [] && s.nodes[p].children[0] == id
       else StopsAtFirstChild(s, order, p, levels - 1)
  }

  /** The insertions that do not return: the leaf is full, lacks the key, and the climb stops at a first child. */
  predicate Hangs(s: State, order: nat, height: nat, key: Key) {
    var leaf := Search(s, s.root, key, height);
    && leaf < |s.nodes| && s.nodes[leaf].Leaf? && key !in s.nodes[leaf].keys
    && |s.nodes[leaf].keys| >= order - 1 && StopsAtFirstChild(s, order, leaf, height)
  }

  /** The climb looks only at nodes higher than where it starts. */
  lemma {:induction false} ClimbSame(
    s: State, info: seq<Info>, pend: Pending, s': State, order: nat, id: nat, levels: nat)
    requires Tree(s, info, pend) && id < |s.nodes| <= |s'.nodes| && s'.nodes[id].parent == s.nodes[id].parent
    requires pend.Half? ==> id != pend.right && info[pend.right].height <= info[id].height
    requires forall q: nat :: q < |s.nodes| && info[id].height < info[q].height ==> s'.nodes[q] == s.nodes[q]
    ensures StopsAtFirstChild(s', order, id, levels) == StopsAtFirstChild(s, order, id, levels)
    decreases levels
  {
    assert UpOk(s, info, pend, id);
    if levels > 0 && s.nodes[id].parent.Some? {
      var p := s.nodes[id].parent.value;
      var i: nat :| i < |s.nodes[p].children| && s.nodes[p].children[i] == id;
      assert KidOk(s, info, pend, p, i);
      ClimbSame(s, info, pend, s', order, p, levels - 1);
    }
  }

  lemma HigherUntouched(s: State, info: seq<Info>, p: nat, m: nat, q: nat)
    requires Tree(s, info, Done) && p < |s.nodes| && s.nodes[p].Inner? && m < |s.nodes[p].keys|
    requires |s.nodes[p].children| == |s.nodes[p].keys| + 1
    requires q < |s.nodes| && info[p].height < info[q].height
    ensures CutInner(s, p, m).nodes[q] == s.nodes[q]
  {
    forall i: nat | i < |s.nodes[p].children| ensures s.nodes[p].children[i] != q {
      assert KidOk(s, info, Done, p, i);
    }
    assert q !in s.nodes[p].children[m + 1..];
  }

  /** `StopsAtFirstChild`, named so that it is looked into only where needed. */
  ghost predicate Stops(s: State, order: nat, id: nat, levels: nat) {
    forall l: nat :: l == levels ==> StopsAtFirstChild(s, order, id, l)
  }

  lemma StopsIs(s: State, order: nat, id: nat, levels: nat)
    ensures Stops(s, order, id, levels) <==> StopsAtFirstChild(s, order, id, levels)
  {
  }

  /** After a full parent was split, the climb from it is the one it was before. */
  lemma ClimbAfterSplit(
    s: State, info: seq<Info>, order: nat, left: nat, right: nat, p: nat, at: nat, mid: nat, levels: nat)
    requires Tree(s, info, Half(left, right)) && info[left].hi.At? && s.nodes[left].parent == Some(p) && p < |s.nodes|
    requires Slot(s.nodes[p].keys, info[left].hi.key, at) && mid <= |s.nodes[p].keys|
    ensures s.nodes[p].Inner? && |s.nodes[p].children| == |s.nodes[p].keys| + 1
    ensures var s2 := CutInner(AddChild(s, p, at, info[left].hi.key, right), p, mid);
            StopsAtFirstChild(s2, order, p, levels) == StopsAtFirstChild(s, order, p, levels)
  {
    SlotOfLeft(s, info, left, right, p, at);
    ChildAdded(s, info, left, right, p, at);
    assert HalfOk(s, info, Half(left, right));
    var s1 := AddChild(s, p, at, info[left].hi.key, right);
    forall q: nat | q < |s.nodes| && info[p].height < info[q].height
      ensures CutInner(s1, p, mid).nodes[q] == s.nodes[q]
    {
      HigherUntouched(s1, info, p, mid, q);
    }
    ClimbSame(s, info, Half(left, right), CutInner(s1, p, mid), order, p, levels);
  }

  lemma SplitGoesUp(s: State, order: nat, left: nat, key: Key, right: nat, p: nat, levels: nat)
    requires order >= 3 && levels > 0 && Enterable(s, left, right) && s.nodes[left].parent == Some(p)
    requires |s.nodes[p].keys| == order - 1
    ensures var s1 := AddChild(s, p, SlotOf(s.nodes[p].keys, key), key, right);
            EnterAsWritten(s, order, left, key, right, levels)
            == EnterAsWritten(
                 CutInner(s1, p, Cut(order) - 1), order, p, s1.nodes[p].keys[Cut(order) - 1], |s.nodes|, levels - 1)
  {
  }

  /** The source's `insert_into_parent`, called in `s`, ends in `w`. */
  ghost predicate Awaits(s: State, order: nat, left: nat, key: Key, right: nat, levels: nat, w: Option<State>) {
    forall l: nat :: l == levels ==> EnterAsWritten(s, order, left, key, right, l) == w
  }

  lemma AwaitsRoot(s: State, order: nat, left: nat, key: Key, right: nat, levels: nat, w: Option<State>)
    requires Enterable(s, left, right) && s.nodes[left].parent == None && Awaits(s, order, left, key, right, levels, w)
    ensures w == Some(Raised(s, left, key, right))
  {
    assert EnterAsWritten(s, order, left, key, right, levels) == w;
  }

  lemma AwaitsRoom(
    s: State, order: nat, left: nat, key: Key, right: nat, p: nat, at: nat, levels: nat, w: Option<State>)
    requires Enterable(s, left, right) && s.nodes[left].parent == Some(p) && |s.nodes[p].keys| < order - 1
    requires Slot(s.nodes[p].keys, key, at) && Awaits(s, order, left, key, right, levels, w)
    ensures w == if ShiftLoopEnds(|s.nodes[p].keys| - 1, at) then Some(AddChild(s, p, at, key, right)) else None
  {
    SlotOfIs(s.nodes[p].keys, key, at);
    assert EnterAsWritten(s, order, left, key, right, levels) == w;
  }

  lemma AwaitsUp(
    s: State, order: nat, left: nat, key: Key, right: nat, p: nat, at: nat, levels: nat, w: Option<State>)
    requires order >= 3 && levels > 0 && Enterable(s, left, right) && s.nodes[left].parent == Some(p)
    requires |s.nodes[p].keys| == order - 1 && Slot(s.nodes[p].keys, key, at)
    ensures var s1, mid := AddChild(s, p, at, key, right), Cut(order) - 1;
            Awaits(s, order, left, key, right, levels, w)
            <==> Awaits(CutInner(s1, p, mid), order, p, s1.nodes[p].keys[mid], |s.nodes|, levels - 1, w)
  {
    SlotOfIs(s.nodes[p].keys, key, at);
    SplitGoesUp(s, order, left, key, right, p, levels);
    var s1, mid := AddChild(s, p, at, key, right), Cut(order) - 1;
    AwaitsSame(s, left, key, right, levels, CutInner(s1, p, mid), p, s1.nodes[p].keys[mid], |s.nodes|, order, w);
  }

  lemma AwaitsSame(
    s: State, left: nat, key: Key, right: nat, levels: nat,
    s': State, left': nat, key': Key, right': nat, order: nat, w: Option<State>)
    requires levels > 0
    requires EnterAsWritten(s, order, left, key, right, levels)
             == EnterAsWritten(s', order, left', key', right', levels - 1)
    ensures Awaits(s, order, left, key, right, levels, w) <==> Awaits(s', order, left', key', right', levels - 1, w)
  {
    AwaitsIs(s, order, left, key, right, levels, w);
    AwaitsIs(s', order, left', key', right', levels - 1, w);
  }

  lemma AwaitsIs(s: State, order: nat, left: nat, key: Key, right: nat, levels: nat, w: Option<State>)
    ensures Awaits(s, order, left, key, right, levels, w) <==> EnterAsWritten(s, order, left, key, right, levels) == w
  {
  }

  /** A full parent: the split moves one level up, and so does the source's call. */
  lemma GoUp(
    s: State, info: seq<Info>, m: map<Key, seq<Item>>, order: nat, left: nat, right: nat, p: nat, at: nat,
    w: Option<State>)
    returns (s2: State, info2: seq<Info>, middle: Key)
    requires Splitting(s, info, m, order, left, right) && s.nodes[left].parent == Some(p) && FilledHalf(s, order, left)
    requires ParentOk(s, info, order, left, p) && |s.nodes[p].keys| == order - 1
    requires Slot(s.nodes[p].keys, info[left].hi.key, at)
    requires Awaits(s, order, left, info[left].hi.key, right, info[s.root].height - info[left].height, w)
    ensures var s1 := AddChild(s, p, at, info[left].hi.key, right);
            && s2 == CutInner(s1, p, Cut(order) - 1) && middle == s1.nodes[p].keys[Cut(order) - 1]
            && p !in s1.nodes[p].children && forall c :: c in s1.nodes[p].children ==> c < |s.nodes|
    ensures Splitting(s2, info2, m, order, p, |s.nodes|) && info2[p].hi == At(middle) && FilledHalf(s2, order, p)
    ensures info2[s2.root].height - info2[p].height < info[s.root].height - info[left].height
    ensures Awaits(s2, order, p, middle, |s.nodes|, info2[s2.root].height - info2[p].height, w)
  {
    var s1, mid := AddChild(s, p, at, info[left].hi.key, right), Cut(order) - 1;
    s2, middle := CutInner(s1, p, mid), s1.nodes[p].keys[mid];
    info2 := CutInfo(info, p, middle);
    InnerSplit(s, info, m, order, left, right, p, at, mid);
    InnerSplitFills(s, order, p, at, info[left].hi.key, right);
    AwaitsUp(s, order, left, info[left].hi.key, right, p, at, info[s.root].height - info[left].height, w);
  }

  /** Entering the right half of a split node: the source's code does not return exactly if the climb stops so. */
  lemma {:induction false} EnterReturnsIff(s: State, info: seq<Info>, order: nat, left: nat, right: nat)
    requires order >= 3 && Tree(s, info, Half(left, right)) && Narrow(s, order)
    ensures info[left].hi.At? && info[left].height <= info[s.root].height
    ensures var levels := info[s.root].height - info[left].height;
            Awaits(s, order, left, info[left].hi.key, right, levels, None) <==> Stops(s, order, left, levels)
    decreases info[s.root].height - info[left].height
  {
    var pend := Half(left, right);
    assert UpOk(s, info, pend, left) && HalfOk(s, info, pend);
    var key, levels := info[left].hi.key, info[s.root].height - info[left].height;
    if s.nodes[left].parent.None? {
      AwaitsIs(s, order, left, key, right, levels, None);
      StopsIs(s, order, left, levels);
    } else {
      var p := s.nodes[left].parent.value;
      assert NodeOk(s.nodes[p], info[p], p == s.root);
      var at := SlotOf(s.nodes[p].keys, key);
      SlotOfMeans(s.nodes[p].keys, key);
      SlotOfLeft(s, info, left, right, p, at);
      if |s.nodes[p].keys| < order - 1 {
        AwaitsIs(s, order, left, key, right, levels, None);
        StopsIs(s, order, left, levels);
        ShiftLoopEndsIff(|s.nodes[p].keys| - 1, at);
        SeparatorIsFirstIff(s, info, left, right, p, at);
      } else {
        SplitReturnsIff(s, info, order, left, right, p, at);
      }
    }
  }

  ghost predicate FullParent(s: State, info: seq<Info>, order: nat, left: nat, right: nat, p: nat, at: nat) {
    && order >= 3 && Tree(s, info, Half(left, right)) && Narrow(s, order) && s.nodes[left].parent == Some(p)
    && p < |s.nodes| && s.nodes[p].Inner? && |s.nodes[p].keys| == order - 1 && |s.nodes[p].children| == order
    && info[left].hi.At? && Slot(s.nodes[p].keys, info[left].hi.key, at)
    && info[p].height == info[left].height + 1 <= info[s.root].height
  }

  lemma ClimbThroughFull(s: State, order: nat, left: nat, p: nat, levels: nat)
    requires left < |s.nodes| && s.nodes[left].parent == Some(p) && p < |s.nodes| && s.nodes[p].Inner?
    requires |s.nodes[p].keys| >= order - 1 && levels > 0
    ensures StopsAtFirstChild(s, order, left, levels) == StopsAtFirstChild(s, order, p, levels - 1)
  {
  }

  lemma SplitKeepsClimb(s: State, info: seq<Info>, order: nat, left: nat, right: nat, p: nat, at: nat)
    requires FullParent(s, info, order, left, right, p, at)
    ensures var s2 := CutInner(AddChild(s, p, at, info[left].hi.key, right), p, Cut(order) - 1);
            var levels := info[s.root].height - info[left].height;
            Stops(s, order, left, levels) <==> Stops(s2, order, p, levels - 1)
  {
    var mid, levels := Cut(order) - 1, info[s.root].height - info[left].height;
    var s2 := CutInner(AddChild(s, p, at, info[left].hi.key, right), p, mid);
    ClimbAfterSplit(s, info, order, left, right, p, at, mid, levels - 1);
    ClimbThroughFull(s, order, left, p, levels);
    StopsIs(s, order, left, levels);
    StopsIs(s2, order, p, levels - 1);
  }

  /** Splitting a full parent changes neither how the source's code ends nor where the climb does. */
  lemma SplitKeepsBoth(s: State, info: seq<Info>, order: nat, left: nat, right: nat, p: nat, at: nat)
    returns (s2: State, info2: seq<Info>)
    requires FullParent(s, info, order, left, right, p, at)
    ensures Tree(s2, info2, Half(p, |s.nodes|)) && Narrow(s2, order) && info2[p].hi.At?
    ensures info2[s2.root].height - info2[p].height == info[s.root].height - info[left].height - 1
    ensures var levels := info[s.root].height - info[left].height;
            && (Stops(s, order, left, levels) <==> Stops(s2, order, p, levels - 1))
            && (Awaits(s, order, left, info[left].hi.key, right, levels, None)
                <==> Awaits(s2, order, p, info2[p].hi.key, |s.nodes|, levels - 1, None))
  {
    var mid, key, levels := Cut(order) - 1, info[left].hi.key, info[s.root].height - info[left].height;
    var s1 := AddChild(s, p, at, key, right);
    s2, info2 := CutInner(s1, p, mid), CutInfo(info, p, s1.nodes[p].keys[mid]);
    InnerSplitTree(s, info, order, left, right, p, at, mid);
    AwaitsUp(s, order, left, key, right, p, at, levels, None);
    SplitKeepsClimb(s, info, order, left, right, p, at);
  }

  lemma {:induction false} SplitReturnsIff(
    s: State, info: seq<Info>, order: nat, left: nat, right: nat, p: nat, at: nat)
    requires FullParent(s, info, order, left, right, p, at)
    ensures var levels := info[s.root].height - info[left].height;
            Awaits(s, order, left, info[left].hi.key, right, levels, None) <==> Stops(s, order, left, levels)
    decreases info[s.root].height - info[left].height, 0
  {
    var s2, info2 := SplitKeepsBoth(s, info, order, left, right, p, at);
    EnterReturnsIff(s2, info2, order, p, |s.nodes|);
  }

  /**
   * The insertions that do not return. In every tree, inserting a key as the source does it gets stuck if and only if
   * the leaf of the key is full and lacks it, and the climb from the leaf through full parents stops at a first child.
   */
  lemma InsertReturnsIff(s: State, info: seq<Info>, order: nat, key: Key, item: Item)
    requires order >= 3 && Tree(s, info, Done) && Narrow(s, order)
    ensures InsertAsWritten(s, order, info[s.root].height, key, item) == None
            <==> Hangs(s, order, info[s.root].height, key)
  {
    var height := info[s.root].height;
    assert UpOk(s, info, Done, s.root);
    SearchFinds(s, info, s.root, key);
    var leaf := Search(s, s.root, key, height);
    var n := s.nodes[leaf];
    assert NodeOk(n, info[leaf], leaf == s.root);
    var at := SlotOf(n.keys, key);
    SlotOfMeans(n.keys, key);
    SlotHolds(n.keys, key, at);
    if key !in n.keys && |n.keys| >= order - 1 {
      LeafSplitReturnsIff(s, info, order, leaf, at, key, item);
    }
  }

  lemma LeafSplitReturnsIff(s: State, info: seq<Info>, order: nat, leaf: nat, at: nat, key: Key, item: Item)
    requires order >= 3 && Tree(s, info, Done) && Narrow(s, order) && leaf < |s.nodes| && s.nodes[leaf].Leaf?
    requires In(key, info[leaf]) && key !in s.nodes[leaf].keys && Slot(s.nodes[leaf].keys, key, at)
    requires |s.nodes[leaf].keys| == order - 1 == |s.nodes[leaf].items|
    ensures var s1, m, height := PutKey(s, leaf, at, key, item), Cut(order - 1), info[s.root].height;
            EnterAsWritten(CutLeaf(s1, leaf, m), order, leaf, s1.nodes[leaf].keys[m], |s.nodes|, height) == None
            <==> StopsAtFirstChild(s, order, leaf, height)
  {
    var s1, m := PutKey(s, leaf, at, key, item), Cut(order - 1);
    assert info[leaf].height == 0 by {
      assert NodeOk(s.nodes[leaf], info[leaf], leaf == s.root);
    }
    LeafSplitTree(s, info, order, leaf, at, key, item, m);
    var info2 := CutInfo(info, leaf, s1.nodes[leaf].keys[m]);
    assert info2[s.root].height - info2[leaf].height == info[s.root].height;
    EnterReturnsIff(CutLeaf(s1, leaf, m), info2, order, leaf, |s.nodes|);
    AwaitsIs(CutLeaf(s1, leaf, m), order, leaf, s1.nodes[leaf].keys[m], |s.nodes|, info[s.root].height, None);
    StopsIs(CutLeaf(s1, leaf, m), order, leaf, info[s.root].height);
    ClimbAfterLeafSplit(s, info, order, leaf, at, key, item, m);
  }

  lemma ClimbAfterLeafSplit(s: State, info: seq<Info>, order: nat, leaf: nat, at: nat, key: Key, item: Item, m: nat)
    requires Tree(s, info, Done) && leaf < |s.nodes| && s.nodes[leaf].Leaf? && at <= |s.nodes[leaf].keys|
    requires m <= |s.nodes[leaf].keys| == |s.nodes[leaf].items|
    ensures StopsAtFirstChild(CutLeaf(PutKey(s, leaf, at, key, item), leaf, m), order, leaf, info[s.root].height)
            == StopsAtFirstChild(s, order, leaf, info[s.root].height)
  {
    assert NodeOk(s.nodes[leaf], info[leaf], leaf == s.root);
    ClimbSame(s, info, Done, CutLeaf(PutKey(s, leaf, at, key, item), leaf, m), order, leaf, info[s.root].height);
  }

  /** The tree of order 3 that inserting 30, 20, 10 and 5 builds. */
  function FourKeys(): State {
    State([Leaf([5, 10], [[4], [3]], Some(2), Some(1)),
           Leaf([20, 30], [[2], [1]], Some(2), None),
           Inner([20], [0, 1], None, None)], 2)
  }

  function ThreeKeys(): State {
    State([Leaf([10], [[3]], Some(2), Some(1)),
           Leaf([20, 30], [[2], [1]], Some(2), None),
           Inner([20], [0, 1], None, None)], 2)
  }

  lemma FirstTwoInsertionsFit()
    ensures InsertAsWritten(State([Leaf([], [], None, None)], 0), 3, 0, 30, 1)
            == Some(State([Leaf([30], [[1]], None, None)], 0))
    ensures InsertAsWritten(State([Leaf([30], [[1]], None, None)], 0), 3, 0, 20, 2)
            == Some(State([Leaf([20, 30], [[2], [1]], None, None)], 0))
  {
    var s0, s1 := State([Leaf([], [], None, None)], 0), State([Leaf([30], [[1]], None, None)], 0);
    assert InsertAt([], 0, 30) == [30] && InsertAt([], 0, [1]) == [[1]];
    assert s0.nodes[0 := Leaf([30], [[1]], None, None)] == [Leaf([30], [[1]], None, None)];
    assert InsertAt([30], 0, 20) == [20, 30] && InsertAt([[1]], 0, [2]) == [[2], [1]];
    assert s1.nodes[0 := Leaf([20, 30], [[2], [1]], None, None)] == [Leaf([20, 30], [[2], [1]], None, None)];
  }

  lemma ThirdInsertionSplitsRoot()
    ensures InsertAsWritten(State([Leaf([20, 30], [[2], [1]], None, None)], 0), 3, 0, 10, 3) == Some(ThreeKeys())
  {
    var s := State([Leaf([20, 30], [[2], [1]], None, None)], 0);
    var s1 := PutKey(s, 0, 0, 10, 3);
    assert InsertAt([20, 30], 0, 10) == [10, 20, 30] && InsertAt([[2], [1]], 0, [3]) == [[3], [2], [1]];
    assert s1.nodes[0] == Leaf([10, 20, 30], [[3], [2], [1]], None, None) && |s1.nodes| == 1;
    assert [10, 20, 30][..1] == [10] && [10, 20, 30][1..] == [20, 30];
    assert [[3], [2], [1]][..1] == [[3]] && [[3], [2], [1]][1..] == [[2], [1]];
    var s2 := CutLeaf(s1, 0, 1);
    assert s2.nodes == [Leaf([10], [[3]], None, Some(1)), Leaf([20, 30], [[2], [1]], None, None)];
    assert EnterAsWritten(s2, 3, 0, 20, 1, 0) == Some(Raised(s2, 0, 20, 1));
    assert Raised(s2, 0, 20, 1).nodes == ThreeKeys().nodes;
  }

  lemma FourthInsertionFits()
    ensures InsertAsWritten(ThreeKeys(), 3, 1, 5, 4) == Some(FourKeys())
  {
    var s := ThreeKeys();
    assert TurnOf([20], 5) == 0;
    assert Search(s, 2, 5, 1) == 0;
    assert SlotOf([10], 5) == 0;
    assert InsertAt([10], 0, 5) == [5, 10] && InsertAt([[3]], 0, [4]) == [[4], [3]];
    assert PutKey(s, 0, 0, 5, 4).nodes == FourKeys().nodes;
  }

  lemma FifthInsertionHangs()
    ensures InsertAsWritten(FourKeys(), 3, 1, 1, 5) == None && Hangs(FourKeys(), 3, 1, 1)
  {
    var s := FourKeys();
    assert TurnOf([20], 1) == 0;
    assert Search(s, 2, 1, 1) == 0;
    assert SlotOf([5, 10], 1) == 0;
    var s1 := PutKey(s, 0, 0, 1, 5);
    assert InsertAt([5, 10], 0, 1) == [1, 5, 10];
    var s2 := CutLeaf(s1, 0, 1);
    assert s2.nodes[2] == s.nodes[2] && s2.nodes[0].parent == Some(2) && |s2.nodes| == 4;
    assert SlotOf([20], 5) == 0;
    ShiftLoopEndsIff(0, 0);
    assert EnterAsWritten(s2, 3, 0, 5, 3, 1) == None;
  }

  /**
   * An insertion that does not return: from the empty tree of order 3, inserting 30, 20, 10 and 5 returns each time,
   * and inserting 1 gets stuck.
   */
  lemma FifthDescendingKeyHangs()
    ensures exists s1, s2, s3, s4 ::
              && InsertAsWritten(State([Leaf([], [], None, None)], 0), 3, 0, 30, 1) == Some(s1)
              && InsertAsWritten(s1, 3, 0, 20, 2) == Some(s2)
              && InsertAsWritten(s2, 3, 0, 10, 3) == Some(s3)
              && InsertAsWritten(s3, 3, 1, 5, 4) == Some(s4)
              && InsertAsWritten(s4, 3, 1, 1, 5) == None && Hangs(s4, 3, 1, 1)
  {
    FirstTwoInsertionsFit();
    ThirdInsertionSplitsRoot();
    FourthInsertionFits();
    FifthInsertionHangs();
  }
}
