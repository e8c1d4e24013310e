// An item leaves a leaf; the leaf then takes from, gives to, or joins its sibling.
module BTreeLeafDeletes {
  import opened BTreeArrays
  import opened BTreeNodes
  import opened BTreeStructure
  import opened BTreeContents
  import opened BTreeLeaves
  import opened BTreeLeafInserts
  import opened BTreeInsertSteps

  ghost predicate Taken(v: View, w: View, a: Node, slot: nat)
  {
    && Tree(v, Whole) && IsLeafOf(v, a) && slot < |v.s[a].items|
    && w == v.(s := Put(v.s, a, Removed(v.s[a].items, slot)))
  }

  lemma TakenShape(v: View, w: View, a: Node, slot: nat)
    requires Taken(v, w, a, slot)
    ensures SameShape(v, w) && Tree(w, Whole)
    ensures forall n {:trigger ShapeAt(v.s, w.s, n)} :: n in v.s ==> w.s[n].keys == v.s[n].keys
    ensures HeadSame(v, w, v.s[a].lo) && RestSame(v, w, v.s[a].lo + 1, v.s[a].lo + 1)
    ensures v.s[a].lo + 1 < |v.chain| ==> RestSame(v, w, v.s[a].lo + 2, v.s[a].lo + 2)
  {
    hide Removed;
    var j := v.s[a].lo;
    assert SameShape(v, w) by {
      hide Tree;
      forall n | n in v.s ensures ShapeAt(v.s, w.s, n) {
      }
    }
    ShapeTree(v, w, Whole);
    forall n | n in v.s && v.s[n].level == 0 && v.s[n].lo == j ensures n == a {
      LeafPlace(v, n);
    }
    hide Tree;
    ItemsWindow(v, w, j, j + 1);
    if j + 1 < |v.chain| { ItemsWindow(v, w, j, j + 2); }
  }

  lemma RemovedMiddle(a: seq<Item>, m: seq<Item>, b: seq<Item>, slot: nat)
    requires slot < |m|
    ensures a + Removed(m, slot) + b == Removed(a + m + b, |a| + slot)
  {
  }

  lemma TakenContents(v: View, w: View, a: Node, slot: nat)
    requires Taken(v, w, a, slot)
    ensures |FlatTo(v.s, v.chain, v.s[a].lo)| + slot < |Contents(v)|
    ensures Contents(v)[|FlatTo(v.s, v.chain, v.s[a].lo)| + slot] == v.s[a].items[slot]
    ensures Contents(w) == Removed(Contents(v), |FlatTo(v.s, v.chain, v.s[a].lo)| + slot)
  {
    hide FlatTo, Tree;
    TakenShape(v, w, a, slot);
    var j := v.s[a].lo;
    var p, q := FlatTo(v.s, v.chain, j), v.s[a].items;
    FlatNext(v.s, v.chain, j);
    FlatNext(w.s, w.chain, j);
    hide Contents;
    WindowContents(v, w, j + 1, j + 1);
    HeadEnds(v, w, j, j);
    hide HeadSame, RestSame;
    RemovedMiddle(p, q, Contents(v)[|p + q|..], slot);
    assert Contents(v)[|p| + slot] == (p + q)[|p| + slot];
  }

  // the last key of the leaves up to the next one stays
  lemma TakenTop(v: View, w: View, a: Node, slot: nat)
    requires Taken(v, w, a, slot)
    ensures slot + 1 < |v.s[a].items| ==> TopKept(v, w, v.s[a].lo + 1, v.s[a].lo + 1)
    ensures v.s[a].lo + 1 < |v.chain| && v.chain[v.s[a].lo + 1] in v.s && v.s[v.chain[v.s[a].lo + 1]].items != []
      ==> TopKept(v, w, v.s[a].lo + 2, v.s[a].lo + 2)
  {
    TakenShape(v, w, a, slot);
    var j := v.s[a].lo;
    var p, q := FlatTo(v.s, v.chain, j), v.s[a].items;
    HeadEnds(v, w, j, j);
    assert FlatTo(v.s, v.chain, j + 1) == p + q;
    assert FlatTo(w.s, w.chain, j + 1) == p + w.s[a].items;
    if j + 1 < |v.chain| && v.chain[j + 1] in v.s {
      var b := v.chain[j + 1];
      LeafPlace2(v, a, b);
      hide Tree;
      assert FlatTo(v.s, v.chain, j + 2) == p + q + v.s[b].items;
      assert FlatTo(w.s, w.chain, j + 2) == p + w.s[a].items + v.s[b].items;
    }
  }

  lemma LeafPlace2(v: View, a: Node, b: Node)
    requires Tree(v, Whole) && IsLeafOf(v, a) && v.s[a].lo + 1 < |v.chain| && v.chain[v.s[a].lo + 1] == b
    ensures a != b && b in v.s && v.s[b].level == 0
  {
    ChainNode(v, Whole, v.s[a].lo + 1);
  }

  lemma KeysSkip(v: View, skip: int)
    requires Keys(v, Whole, NoSkip)
    ensures Keys(v, Whole, skip)
  {
    hide EndsWith;
    forall b: Node, i: nat | b in v.s && KeyDue(v, Whole, skip, b, i) ensures KeyOk(v, b, i) {
      assert KeyDue(v, Whole, NoSkip, b, i);
    }
  }

  lemma NextFull(v: View, c: Capacity, a: Node)
    requires Tree(v, Whole) && Fill(v, c, Whole, null) && c.leaf >= 2 && IsLeafOf(v, a)
    ensures v.s[a].lo + 1 < |v.chain| ==> v.chain[v.s[a].lo + 1] in v.s && v.s[v.chain[v.s[a].lo + 1]].items != []
    ensures v.s[a].lo > 0 ==>
      v.chain[v.s[a].lo - 1] in v.s && v.s[v.chain[v.s[a].lo - 1]].items != [] && v.chain[v.s[a].lo - 1] != a
  {
    hide Nodes, Links;
    var j := v.s[a].lo;
    if j + 1 < |v.chain| {
      ChainNode(v, Whole, j + 1);
      assert FillOk(v, c, null, v.chain[j + 1]);
    }
    if j > 0 {
      ChainNode(v, Whole, j - 1);
      assert FillOk(v, c, null, v.chain[j - 1]);
    }
  }

  lemma TakenKeys(v: View, u: View, a: Node, slot: nat, c: Capacity)
    requires Taken(v, u, a, slot) && Keys(v, Whole, NoSkip) && Fill(v, c, Whole, null) && c.leaf >= 2
    ensures Keys(u, Whole, v.s[a].lo + 1)
    ensures slot + 1 < |v.s[a].items| || v.s[a].lo + 1 == |v.chain| ==> Keys(u, Whole, NoSkip)
  {
    hide Keys, FlatTo, TopKept, HeadSame, RestSame, Removed, SameShape, Contents, Tree, Fill;
    var j := v.s[a].lo;
    TakenShape(v, u, a, slot);
    TakenTop(v, u, a, slot);
    NextFull(v, c, a);
    if slot + 1 < |v.s[a].items| || j + 1 == |v.chain| {
      ItemsKeys(v, u, j, j + 1, NoSkip);
      KeysSkip(u, j + 1);
    } else {
      ItemsKeys(v, u, j, j + 2, j + 1);
    }
  }

  lemma TakenFill(v: View, u: View, a: Node, slot: nat, c: Capacity)
    requires Taken(v, u, a, slot) && Fill(v, c, Whole, null)
    ensures Fill(u, c, Whole, a)
  {
    hide Tree, Removed;
    forall n | n in u.s ensures FillOk(u, c, a, n) { assert FillOk(v, c, null, n); }
  }

  // Leaf::Delete before the separators are repaired
  lemma TakeStep(v: View, u: View, a: Node, slot: nat, c: Capacity)
    requires Good(v, c, Whole, null) && Taken(v, u, a, slot) && c.leaf >= 2
    ensures Tree(u, Whole) && Fill(u, c, Whole, a) && Chained(u.s, u.chain) && Branches(u.s) == Branches(v.s)
    ensures Keys(u, Whole, v.s[a].lo + 1)
    ensures slot + 1 < |v.s[a].items| || v.s[a].lo + 1 == |v.chain| ==> Keys(u, Whole, NoSkip)
    ensures |FlatTo(v.s, v.chain, v.s[a].lo)| + slot < |Contents(v)|
    ensures Contents(v)[|FlatTo(v.s, v.chain, v.s[a].lo)| + slot] == v.s[a].items[slot]
    ensures Contents(u) == Removed(Contents(v), |FlatTo(v.s, v.chain, v.s[a].lo)| + slot)
    ensures IsLeafOf(u, a) && u.s[a].items == Removed(v.s[a].items, slot)
  {
    hide Keys, FlatTo, HeadSame, RestSame, Removed, SameShape, Contents, Fill, Tree;
    TakenShape(v, u, a, slot);
    TakenKeys(v, u, a, slot, c);
    TakenFill(v, u, a, slot, c);
    TakenContents(v, u, a, slot);
    ChainedLinks(v.s, u.s, v.chain);
  }

  // the greatest key up to leaf a, once an item has left it
  lemma TakenEnds(v: View, u: View, a: Node, slot: nat, c: Capacity)
    requires Good(v, c, Whole, null) && Taken(v, u, a, slot) && c.leaf >= 2
    ensures var q := Removed(v.s[a].items, slot); var j := v.s[a].lo;
      && (q != [] ==> EndsWith(u.s, u.chain, j + 1, q[|q| - 1].key))
      && (q == [] && j > 0 ==>
            && v.chain[j - 1] in u.s && u.s[v.chain[j - 1]].items != []
            && EndsWith(u.s, u.chain, j + 1, u.s[v.chain[j - 1]].items[|u.s[v.chain[j - 1]].items| - 1].key))
      && (q == [] && j == 0 ==> FlatTo(u.s, u.chain, 1) == [])
  {
    NextFull(v, c, a);
    hide Tree, Keys, Fill, Chained, Contents, Removed;
    var q, j := Removed(v.s[a].items, slot), v.s[a].lo;
    assert u.s[a].items == q;
    assert FlatTo(u.s, u.chain, j + 1) == FlatTo(u.s, u.chain, j) + q;
    if j > 0 {
      assert FlatTo(u.s, u.chain, j) == FlatTo(u.s, u.chain, j - 1) + u.s[v.chain[j - 1]].items;
    }
  }

  // ---------- the two siblings even out

  lemma DealtContents(v: View, w: View, l: Node, r: Node, p: seq<Item>, q: seq<Item>)
    requires Dealt(v, w, l, r, p, q)
    ensures var h := FlatTo(v.s, v.chain, v.s[l].lo); var all := v.s[l].items + v.s[r].items;
      && |h| + |all| <= |Contents(v)| && Contents(v) == h + all + Contents(v)[|h| + |all|..]
      && Contents(w) == h + (p + q) + Contents(v)[|h| + |all|..]
  {
    DealtShape(v, w, l, r, p, q);
    DealtFlat(v, w, l, r, p, q);
    var j := v.s[l].lo;
    WindowContents(v, w, j + 2, j + 2);
    HeadEnds(v, w, j, j);
  }

  // the contents stay as they were exactly when the items of the pair do
  lemma DealtSame(v: View, w: View, l: Node, r: Node, p: seq<Item>, q: seq<Item>)
    requires Dealt(v, w, l, r, p, q) && |p + q| == |v.s[l].items + v.s[r].items|
    ensures Contents(w) == Contents(v) <==> p + q == v.s[l].items + v.s[r].items
  {
    hide Tree, Contents, FlatTo, Put;
    DealtContents(v, w, l, r, p, q);
    var h, all := FlatTo(v.s, v.chain, v.s[l].lo), v.s[l].items + v.s[r].items;
    if Contents(w) == Contents(v) {
      assert Contents(w)[|h|..|h| + |all|] == p + q;
      assert Contents(v)[|h|..|h| + |all|] == all;
    }
  }

  lemma EvenFill(v: View, u: View, l: Node, r: Node, p: seq<Item>, q: seq<Item>, c: Capacity, under: Node?)
    requires Dealt(v, u, l, r, p, q) && Fill(v, c, Whole, under) && (under == l || under == r)
    requires c.leaf / 2 <= |p| && c.leaf / 2 <= |q| && 0 < |p| && 0 < |q|
    ensures Fill(u, c, Whole, null)
  {
    hide Tree;
    forall n | n in u.s ensures FillOk(u, c, null, n) { assert FillOk(v, c, under, n); }
  }

  lemma DealtParts(v: View, u: View, l: Node, r: Node, p: seq<Item>, q: seq<Item>)
    requires Dealt(v, u, l, r, p, q)
    ensures Tree(v, Whole) && l in v.s && r in v.s
  {
    hide Tree, Put;
  }

  lemma EvenKeys(v: View, u: View, l: Node, r: Node, p: seq<Item>, q: seq<Item>)
    requires Dealt(v, u, l, r, p, q) && Keys(v, Whole, NoSkip) && p + q == v.s[l].items + v.s[r].items && p != []
    ensures Keys(u, Whole, v.s[l].lo + 1) && EndsWith(u.s, u.chain, v.s[l].lo + 1, p[|p| - 1].key)
  {
    hide FlatTo;
    DealtParts(v, u, l, r, p, q);
    DealtShape(v, u, l, r, p, q);
    DealtFlat(v, u, l, r, p, q);
    var j := v.s[l].lo;
    hide Tree, Put, HeadSame, RestSame, Keys, Dealt, SameShape;
    HeadEnds(v, u, j, j);
    assert TopKept(v, u, j + 2, j + 2);
    ItemsKeys(v, u, j, j + 2, j + 1);
    assert (FlatTo(u.s, u.chain, j) + p)[|FlatTo(u.s, u.chain, j) + p| - 1] == p[|p| - 1];
  }

  // items move between the siblings, and the separator between them is set
  lemma EvenStep(v: View, u: View, w: View, l: Node, r: Node, p: seq<Item>, q: seq<Item>, c: Capacity, under: Node?)
    requires Good(v, c, Whole, under) && Dealt(v, u, l, r, p, q) && p + q == v.s[l].items + v.s[r].items && p != []
    requires (under == l || under == r) && c.leaf / 2 <= |p| && c.leaf / 2 <= |q| && 0 < |q|
    requires Repaired(u, w, v.s[l].lo, p[|p| - 1].key)
    ensures Good(w, c, Whole, null) && Contents(w) == Contents(v) && Branches(w.s) == Branches(v.s)
  {
    hide Tree, FlatTo, Keys, Fill, Contents, Repaired, EndsWith;
    EvenFill(v, u, l, r, p, q, c, under);
    EvenKeys(v, u, l, r, p, q);
    DealtSame(v, u, l, r, p, q);
    DealtShape(v, u, l, r, p, q);
    ChainedLinks(v.s, u.s, v.chain);
    RepairStep(u, w, v.s[l].lo, p[|p| - 1].key, c, null);
    assert Branches(u.s) == Branches(v.s);
  }

  // Leaf::Delete where no separator needs repair
  lemma TakeDone(v: View, u: View, a: Node, slot: nat, c: Capacity)
    requires Good(v, c, Whole, null) && Taken(v, u, a, slot) && c.leaf >= 2
    requires slot + 1 < |v.s[a].items| || v.s[a].parent == null || (|v.s[a].items| == 1 && v.s[a].prev == null)
    ensures Good(u, c, Whole, a) && Branches(u.s) == Branches(v.s)
  {
    hide Keys, FlatTo, Removed, Contents, Fill, Nodes, Links, Slots, Chained;
    TakeStep(v, u, a, slot, c);
    if slot + 1 == |v.s[a].items| {
      if v.s[a].parent == null {
        NodeAt(v, Whole, a);
        RootHere(v, a);
      } else {
        FirstLeaf(v, a);
        TakenEnds(v, u, a, slot, c);
        SkipEmpty(u);
      }
    }
  }

  lemma RootHere(v: View, a: Node)
    requires Tree(v, Whole) && IsLeafOf(v, a) && v.s[a].parent == null
    ensures v.s[a].lo + 1 == |v.chain|
  {
    NodeAt(v, Whole, a);
  }

  lemma FirstLeaf(v: View, a: Node)
    requires Tree(v, Whole) && Chained(v.s, v.chain) && IsLeafOf(v, a) && v.s[a].prev == null
    ensures v.s[a].lo == 0
  {
    hide Tree;
    assert NextOk(v.s, v.chain, v.s[a].lo);
  }

  // Leaf::Delete of the greatest item, with the separator behind the leaf repaired
  lemma TakeRepaired(v: View, u: View, w: View, a: Node, slot: nat, key: int, c: Capacity)
    requires Good(v, c, Whole, null) && Taken(v, u, a, slot) && c.leaf >= 2 && Repaired(u, w, v.s[a].lo, key)
    requires var q := Removed(v.s[a].items, slot); var p := v.s[a].prev;
      if q != [] then key == q[|q| - 1].key
      else p != null && p in v.s && v.s[p].items != [] && key == v.s[p].items[|v.s[p].items| - 1].key
    ensures Good(w, c, Whole, a) && Branches(w.s) == Branches(v.s) && Contents(w) == Contents(u)
  {
    hide Keys, FlatTo, Removed, Contents, Fill, Tree, Chained, Repaired, EndsWith;
    TakeStep(v, u, a, slot, c);
    TakenEnds(v, u, a, slot, c);
    PrevOf(v, a);
    RepairStep(u, w, v.s[a].lo, key, c, a);
  }

  lemma PrevOf(v: View, a: Node)
    requires Tree(v, Whole) && Chained(v.s, v.chain) && IsLeafOf(v, a)
    ensures v.s[a].prev == if v.s[a].lo > 0 then v.chain[v.s[a].lo - 1] else null
    ensures v.s[a].lo > 0 ==> v.chain[v.s[a].lo - 1] != a
  {
    assert NextOk(v.s, v.chain, v.s[a].lo);
    if v.s[a].lo > 0 { ChainNode(v, Whole, v.s[a].lo - 1); }
  }

  lemma FoldTaken(v: View, u: View, a: Node, slot: nat)
    requires Tree(v, Whole) && IsLeafOf(v, a) && slot < |v.s[a].items| && u.root == v.root && u.chain == v.chain
    requires u.s == Put(v.s, a, Removed(v.s[a].items, slot))
    ensures Taken(v, u, a, slot) && Tree(u, Whole)
  {
    hide Tree, Removed, Put;
    TakenShape(v, u, a, slot);
  }
}
