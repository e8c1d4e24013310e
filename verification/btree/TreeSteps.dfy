// What the leaf operations write, as steps of the whole tree.
module BTreeTreeSteps {
  import opened BTreeArrays
  import opened BTreeNodes
  import opened BTreeStructure
  import opened BTreeLeafSteps
  import opened BTreeOwners
  import opened BTreeLeaves
  import opened BTreeLeafInserts
  import opened BTreeInsertSteps
  import opened BTreeNodeSteps

  lemma ClimbableTree(v: View, h: Hole)
    requires Tree(v, h)
    ensures Climbable(v.s, Top(v))
  {
    hide Links, Slots;
    forall n {:trigger v.s[n]} | n in v.s
      ensures v.s[n].level <= Top(v) && (v.s[n].parent != null ==>
        v.s[n].parent in v.s && v.s[v.s[n].parent].level == v.s[n].level + 1)
    {
      assert NodeOk(v, h, n);
    }
  }

  // a root that is a branch stands above at least two leaves
  lemma ManyLeaves(v: View, c: Capacity)
    requires Tree(v, Whole) && Fill(v, c, Whole, null) && v.s[v.root].level > 0
    ensures |v.chain| >= 2
  {
    NodeAt(v, Whole, v.root);
    assert FillOk(v, c, null, v.root);
    hide Fill;
    ChildrenIn(v, Whole, v.root);
    ChildOrder(v, Whole, v.root, 0, 1);
    NodeSpan(v, Whole, v.s[v.root].childs[0]);
    NodeSpan(v, Whole, v.s[v.root].childs[1]);
  }

  lemma LeafParent(v: View, a: Node)
    requires Tree(v, Whole) && a in v.s && v.s[a].level == 0
    ensures v.root in v.s && (a == v.root <==> v.s[v.root].level == 0) && (a == v.root <==> v.s[a].parent == null)
    ensures a != v.root ==> v.s[a].parent in v.s && v.s[v.s[a].parent].level == 1
    ensures a != v.root ==>
      v.s[a].slot < |v.s[v.s[a].parent].childs| == |v.s[v.s[a].parent].keys| + 1
      && v.s[v.s[a].parent].childs[v.s[a].slot] == a
  {
    NodeAt(v, Whole, a);
    NodeAt(v, Whole, v.root);
    if a != v.root { NodeAt(v, Whole, v.s[a].parent); }
  }

  // the leaf at position j of the chain
  lemma LeafThere(v: View, j: nat)
    requires Tree(v, Whole) && j < |v.chain|
    ensures IsLeafOf(v, v.chain[j]) && v.s[v.chain[j]].lo == j
  {
    ChainNode(v, Whole, j);
    LeafPlace(v, v.chain[j]);
  }

  // next and prev of a leaf lead to the neighbouring leaves
  lemma Neighbours(v: View, a: Node)
    requires Tree(v, Whole) && Chained(v.s, v.chain) && IsLeafOf(v, a)
    ensures var j := v.s[a].lo;
      && v.s[a].next == (if j + 1 < |v.chain| then v.chain[j + 1] else null)
      && v.s[a].prev == (if j > 0 then v.chain[j - 1] else null)
      && (j + 1 < |v.chain| ==> IsLeafOf(v, v.chain[j + 1]) && v.s[v.chain[j + 1]].lo == j + 1)
      && (j > 0 ==> IsLeafOf(v, v.chain[j - 1]) && v.s[v.chain[j - 1]].lo == j - 1)
  {
    hide Tree;
    var j := v.s[a].lo;
    assert NextOk(v.s, v.chain, j);
    if j + 1 < |v.chain| { LeafThere(v, j + 1); }
    if j > 0 { LeafThere(v, j - 1); }
  }

  lemma NextPlace(v: View, a: Node)
    requires Tree(v, Whole) && Chained(v.s, v.chain) && IsLeafOf(v, a)
    ensures var n, p := v.s[a].next, v.s[a].prev;
      && (n == null <==> v.s[a].lo + 1 == |v.chain|) && (p == null <==> v.s[a].lo == 0)
      && (n != null ==> n in v.s && v.s[n].level == 0 && v.s[n].lo == v.s[a].lo + 1)
      && (p != null ==> p in v.s && v.s[p].level == 0 && v.s[p].lo + 1 == v.s[a].lo)
  {
    Neighbours(v, a);
    hide Tree, Chained;
  }

  // a leaf that has a parent is not alone, and all leaves keep their minimum
  lemma OtherLeaf(v: View, c: Capacity, a: Node, n: Node)
    requires Tree(v, Whole) && Fill(v, c, Whole, null) && IsLeafOf(v, a) && v.s[a].parent != null && n in v.s
      && v.s[n].level == 0
    ensures n != v.root && v.s[n].parent != null && c.leaf / 2 <= |v.s[n].items| && |v.chain| >= 2
  {
    LeafParent(v, a);
    LeafParent(v, n);
    ManyLeaves(v, c);
    hide Tree;
    assert FillOk(v, c, null, n);
  }

  // x stands in the contents at `slot` behind the leaves before a
  ghost predicate Gained(v: View, w: View, a: Node, slot: nat, x: Item)
  {
    && a in v.s && |FlatTo(v.s, v.chain, v.s[a].lo)| + slot <= |Contents(v)|
    && Contents(w) == Inserted(Contents(v), |FlatTo(v.s, v.chain, v.s[a].lo)| + slot, x)
  }

  lemma GainedFromLeft(v: View, w: View, l: Node, a: Node, slot: nat, x: Item)
    requires Tree(v, Whole) && IsLeafOf(v, l) && a in v.s && v.s[a].lo == v.s[l].lo + 1
      && Gained(v, w, l, |v.s[l].items| + slot, x)
    ensures Gained(v, w, a, slot, x)
  {
    hide Tree, Contents;
    var j := v.s[l].lo;
    assert FlatTo(v.s, v.chain, j + 1) == FlatTo(v.s, v.chain, j) + v.s[l].items;
  }

  lemma EnterAll(v: View, w: View, a: Node, slot: nat, x: Item, c: Capacity, under: Node?)
    requires Good(v, c, Whole, under) && IsLeafOf(v, a) && slot <= |v.s[a].items| && w.root == v.root
      && w.chain == v.chain
    requires w.s == Put(v.s, a, Inserted(v.s[a].items, slot, x)) && (under == null || (under == a && a == v.root))
    requires slot == |v.s[a].items| ==> v.s[a].lo + 1 == |v.chain|
    ensures Good(w, c, Whole, null) && Branches(w.s) == Branches(v.s) && Gained(v, w, a, slot, x)
  {
    hide Tree, Keys, Fill, Chained, Contents, Inserted, Branches, Put, FlatTo;
    EnterStep(v, w, a, slot, x, c, under);
  }

  // ---------- the leaf is cut

  ghost predicate CutTo(v: View, w: View, a: Node, b: Node, q: seq<Item>, m: nat)
  {
    && IsLeafOf(v, a) && b !in v.s && m <= |q| && w.root == v.root
    && w.chain == v.chain[..v.s[a].lo + 1] + [b] + v.chain[v.s[a].lo + 1..]
    && w.s == CutStore(v.s, a, b, v.s[a].lo, q, m)
  }

  lemma CutToAt(v: View, w: View, a: Node, b: Node, q: seq<Item>, m: nat, n: Node)
    requires CutTo(v, w, a, b, q, m) && n in v.s
    ensures n in w.s
    ensures var j := v.s[a].lo;
      w.s[n] == v.s[n].(items := if n == a then q[..m] else v.s[n].items, next := if n == a then b else v.s[n].next,
                        prev := if n != a && n == v.s[a].next then b else v.s[n].prev,
                        lo := Shift(v.s[n].lo, j), hi := Shift(v.s[n].hi, j))
  {
  }

  lemma CutToNew(v: View, w: View, a: Node, b: Node, q: seq<Item>, m: nat)
    requires CutTo(v, w, a, b, q, m)
    ensures IsLeafOf(v, a) && b !in v.s && w.root == v.root && w.s.Keys == v.s.Keys + {b} && m <= |q|
    ensures w.chain == v.chain[..v.s[a].lo + 1] + [b] + v.chain[v.s[a].lo + 1..]
    ensures w.s[b] == Rec(0, null, 0, v.s[a].next, a, q[m..], [], [], v.s[a].lo + 1, v.s[a].lo + 2)
  {
  }

  lemma CutToNode(v: View, w: View, a: Node, b: Node, q: seq<Item>, m: nat, n: Node)
    requires CutTo(v, w, a, b, q, m) && n in v.s && v.s[a].level == 0
    ensures var j := v.s[a].lo;
      && Kept(v.s, w.s, n) && w.s[n].lo == Shift(v.s[n].lo, j) && w.s[n].hi == Shift(v.s[n].hi, j)
      && w.s[n].items == (if n == a then q[..m] else v.s[n].items)
  {
    hide CutTo, Shift;
    CutToAt(v, w, a, b, q, m, n);
  }

  lemma CutToOk(v: View, w: View, a: Node, b: Node, slot: nat, x: Item, m: nat)
    requires Tree(v, Whole) && a in v.s && slot <= |v.s[a].items| && 0 < m <= |v.s[a].items|
    requires CutTo(v, w, a, b, Inserted(v.s[a].items, slot, x), m)
    ensures CutIn(v, w, a, b, slot, x, m)
  {
    NodeAt(v, Whole, a);
    hide Tree, Inserted;
    var q := Inserted(v.s[a].items, slot, x);
    CutToNew(v, w, a, b, q, m);
    CutToNode(v, w, a, b, q, m, a);
    hide CutStore, Shift, CutTo, Kept;
    forall n | n in v.s ensures Kept(v.s, w.s, n) && w.s[n].lo == Shift(v.s[n].lo, v.s[a].lo)
        && w.s[n].hi == Shift(v.s[n].hi, v.s[a].lo) && (n != a ==> w.s[n].items == v.s[n].items)
    {
      CutToNode(v, w, a, b, q, m, n);
    }
  }

  lemma CutToLinks(v: View, w: View, a: Node, b: Node, q: seq<Item>, m: nat)
    requires CutTo(v, w, a, b, q, m) && v.s[a].next != a
    ensures CutLinks(v.s, w.s, a, b)
  {
    CutToAt(v, w, a, b, q, m, a);
    forall n | n in v.s && n != a
      ensures n in w.s && w.s[n].next == v.s[n].next && w.s[n].prev == (if n == v.s[a].next then b else v.s[n].prev)
    {
      CutToAt(v, w, a, b, q, m, n);
    }
  }

  lemma CutAll(v: View, w: View, a: Node, b: Node, slot: nat, x: Item, c: Capacity)
    requires Good(v, c, Whole, null) && IsLeafOf(v, a) && c.leaf >= 2 && |v.s[a].items| == c.leaf && slot <= c.leaf
    requires CutTo(v, w, a, b, Inserted(v.s[a].items, slot, x), (c.leaf + 1) / 2)
    requires slot == c.leaf ==> v.s[a].lo + 1 == |v.chain|
    ensures Good(w, c, Split(a, v.s[a].lo + 1, Inserted(v.s[a].items, slot, x)[(c.leaf + 1) / 2 - 1].key, b), null)
    ensures Gained(v, w, a, slot, x) && Branches(w.s) == Branches(v.s) && |w.chain| == |v.chain| + 1
      && w.chain[0] == v.chain[0]
    ensures a in w.s && b in w.s && w.s[a].parent == v.s[a].parent && w.s[a].slot == v.s[a].slot
      && w.s[a].level == v.s[a].level
    ensures c.leaf / 2 <= |w.s[a].items| && w.s[b].lo == v.s[a].lo + 1
  {
    hide Tree, Keys, Fill, Chained, Contents, CutStore, Inserted, Branches, FlatTo;
    var q, m := Inserted(v.s[a].items, slot, x), (c.leaf + 1) / 2;
    Neighbours(v, a);
    CutToOk(v, w, a, b, slot, x, m);
    CutToLinks(v, w, a, b, q, m);
    CutToAt(v, w, a, b, q, m, a);
    assert w.s[a].items[|w.s[a].items| - 1] == q[m - 1];
    hide CutTo, Chained;
    CutStep(v, w, a, b, slot, x, m, q[m - 1].key, c);
  }

  // ---------- two leaves share

  ghost predicate SharedTo(v: View, u: View, l: Node, r: Node, slot: nat, x: Item, all: seq<Item>, m: nat)
  {
    && IsLeafOf(v, l) && IsLeafOf(v, r) && v.s[r].lo == v.s[l].lo + 1 && u.root == v.root && u.chain == v.chain
    && slot <= |v.s[l].items + v.s[r].items| && 0 < m <= |v.s[l].items + v.s[r].items|
    && all == Inserted(v.s[l].items + v.s[r].items, slot, x) && DealtTo(v.s, u.s, l, r, all, m)
  }

  lemma ShareOk(v: View, u: View, l: Node, r: Node, slot: nat, x: Item, all: seq<Item>, m: nat)
    requires Tree(v, Whole) && SharedTo(v, u, l, r, slot, x, all, m)
    ensures Shared(v, u, l, r, slot, x, m) && SameShape(v, u) && Tree(u, Whole)
  {
    hide Tree, Inserted;
    SharedShape(v, u, l, r, slot, x, m);
  }

  lemma ShareAll(v: View, u: View, w: View, l: Node, r: Node, slot: nat, x: Item, all: seq<Item>, m: nat, c: Capacity)
    requires Good(v, c, Whole, null) && SharedTo(v, u, l, r, slot, x, all, m)
    requires Repaired(u, w, v.s[l].lo, all[m - 1].key)
    requires slot == |v.s[l].items + v.s[r].items| ==> v.s[l].lo + 2 == |v.chain|
    requires c.leaf / 2 <= m && c.leaf / 2 + m <= |all|
    ensures Good(w, c, Whole, null) && Branches(w.s) == Branches(v.s) && Gained(v, w, l, slot, x)
  {
    hide Tree, Keys, Fill, Chained, Contents, Branches, FlatTo, Repaired;
    ShareOk(v, u, l, r, slot, x, all, m);
    hide Inserted, Put;
    ShareStep(v, u, w, l, r, slot, x, m, all[m - 1].key, c);
  }

  // ---------- the root grows

  lemma GrowAll(v: View, w: View, h: Hole, top: Node, c: Capacity)
    requires Good(v, c, h, null) && h.Split? && h.cut == v.root && w.root == top && w.chain == v.chain
    requires RootAbove(v.s, w.s, v.root, h.extra, top, h.key, |v.chain|)
    requires v.s[v.root].level == 0 ==> c.leaf / 2 <= |v.s[v.root].items|
    requires v.s[v.root].level > 0 ==> c.branch / 2 <= |v.s[v.root].keys|
    ensures Good(w, c, Whole, null) && Contents(w) == Contents(v) && |Branches(w.s)| == |Branches(v.s)| + 1
  {
    hide Tree, Keys, Fill, Chained, Contents, Branches;
    GrowStep(v, w, h, top, c);
  }

  // a single empty leaf
  lemma SoleLeaf(v: View, a: Node, c: Capacity)
    requires v == View(map[a := Rec(0, null, 0, null, null, [], [], [], 0, 1)], a, [a])
    ensures Good(v, c, Whole, a) && Contents(v) == [] && Branches(v.s) == {} && IsLeafOf(v, a)
  {
    assert FlatTo(v.s, v.chain, 0) == [];
    assert FlatTo(v.s, v.chain, 1) == FlatTo(v.s, v.chain, 0) + v.s[a].items;
  }
}
