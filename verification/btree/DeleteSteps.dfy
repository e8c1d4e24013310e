// Every step of a deletion keeps what is true of the whole tree, but for the links around a leaf that is going.
module BTreeDeleteSteps {
  import opened BTreeNodes
  import opened BTreeStructure
  import opened BTreeContents
  import opened BTreeBranchBorrow
  import opened BTreeBranchMerge
  import opened BTreeRoots
  import opened BTreeLeaves
  import opened BTreeLeafInserts
  import opened BTreeInsertSteps

  ghost predicate Sturdy(v: View, c: Capacity, h: Hole, under: Node?)
  {
    Tree(v, h) && Keys(v, h, NoSkip) && Fill(v, c, h, under)
  }

  // next and prev in order, except that r still stands between the leaves j and j + 1
  ghost predicate GapOk(s: Store, chain: seq<Node>, j: nat, r: Node, q: nat)
  {
    q < |chain| && chain[q] in s &&
    s[chain[q]].next == (if q == j then r else if q + 1 < |chain| then chain[q + 1] else null) &&
    s[chain[q]].prev == (if q == j + 1 then r else if 0 < q then chain[q - 1] else null)
  }

  ghost predicate Gap(s: Store, chain: seq<Node>, j: nat, r: Node)
  {
    forall q {:trigger GapOk(s, chain, j, r, q)} :: 0 <= q < |chain| ==> GapOk(s, chain, j, r, q)
  }

  // the items of all leaves are as they were
  lemma SameContents(v: View, w: View)
    requires w.chain == v.chain && forall m :: FlatTo(w.s, w.chain, m) == FlatTo(v.s, v.chain, m)
    ensures Contents(w) == Contents(v)
  {
  }

  // ---------- leaves

  lemma GoneGap(v: View, w: View, p: Node, i: nat)
    requires Gone(v, w, p, i) && Chained(v.s, v.chain)
    ensures var l, r := v.s[p].childs[i], v.s[p].childs[i + 1];
      && Gap(w.s, w.chain, v.s[l].lo, r) && r in w.s && l in w.s && w.s[r].prev == l && v.s[l].lo < |w.chain|
        && w.chain[v.s[l].lo] == l
      && w.s[r].next == (if v.s[l].lo + 1 < |w.chain| then w.chain[v.s[l].lo + 1] else null)
  {
    var l, r := v.s[p].childs[i], v.s[p].childs[i + 1];
    PairLeaves(v, p, i);
    hide Nodes, Links;
    var j := v.s[l].lo;
    assert NextOk(v.s, v.chain, j + 1) && w.s[r] == GoneRec(v.s, l, r, r) && w.s[l] == GoneRec(v.s, l, r, l);
    forall q | 0 <= q < |w.chain| ensures GapOk(w.s, w.chain, j, r, q) {
      var o := if q <= j then q else q + 1;
      assert SlotOk(v, Whole, o) && NextOk(v.s, v.chain, o);
      assert w.s[v.chain[o]] == GoneRec(v.s, l, r, v.chain[o]);
    }
  }

  lemma GoneStep(v: View, w: View, p: Node, i: nat, c: Capacity, under: Node?)
    requires Good(v, c, Whole, under) && Gone(v, w, p, i)
    requires under == v.s[p].childs[i] || under == v.s[p].childs[i + 1]
    requires c.leaf / 2 <= |v.s[v.s[p].childs[i]].items| + |v.s[v.s[p].childs[i + 1]].items|
    ensures var r := v.s[p].childs[i + 1];
      && Sturdy(w, c, Dead(r), null) && Contents(w) == Contents(v) && Branches(w.s) == Branches(v.s)
      && r in w.s && w.s[r].parent == p && w.s[r].slot == i + 1
    ensures |w.chain| + 1 == |v.chain| && w.chain[0] == v.chain[0]
  {
    var l, r := v.s[p].childs[i], v.s[p].childs[i + 1];
    hide Tree, Keys, Fill, Chained, Contents;
    GoneTree(v, w, p, i);
    GoneKeys(v, w, p, i);
    GoneFill(v, w, p, i, c, under);
    GoneContents(v, w, p, i);
    assert w.s[r] == GoneRec(v.s, l, r, r);
    forall n | n in v.s ensures w.s[n].level == v.s[n].level { assert w.s[n] == GoneRec(v.s, l, r, n); }
  }

  // the gone leaf is taken out of the chain
  lemma Unlinked(s: Store, t: Store, chain: seq<Node>, j: nat, r: Node, l: Node, next: Node?)
    requires Gap(s, chain, j, r) && j < |chain| && chain[j] == l
      && next == (if j + 1 < |chain| then chain[j + 1] else null)
    requires forall a, b :: 0 <= a < b < |chain| ==> chain[a] != chain[b]
    requires l in s && (next != null ==> next in s)
    requires var s1 := s[l := s[l].(next := next)]; t == if next == null then s1 else s1[next := s1[next].(prev := l)]
    ensures Chained(t, chain)
  {
    forall q: nat | q < |chain| ensures NextOk(t, chain, q) {
      assert GapOk(s, chain, j, r, q);
    }
  }

  lemma GapCarry(v: View, w: View, j: nat, r: Node)
    requires Gap(v.s, v.chain, j, r) && Tree(w, Whole) && w.chain == v.chain
    requires forall n :: n in w.s ==> n in v.s && w.s[n].next == v.s[n].next && w.s[n].prev == v.s[n].prev
    ensures Gap(w.s, w.chain, j, r)
  {
    hide Nodes, Links;
    forall q: nat | q < |w.chain| ensures GapOk(w.s, w.chain, j, r, q) {
      assert GapOk(v.s, v.chain, j, r, q);
      ChainNode(w, Whole, q);
    }
  }

  // the links are closed over the gap
  lemma UnlinkStep(v: View, w: View, j: nat, r: Node, l: Node, next: Node?, c: Capacity)
    requires Sturdy(v, c, Whole, null) && Gap(v.s, v.chain, j, r) && j < |v.chain| && v.chain[j] == l
      && w.root == v.root && w.chain == v.chain
    requires next == (if j + 1 < |v.chain| then v.chain[j + 1] else null) && l in v.s && (next != null ==> next in v.s)
    requires var s1 := v.s[l := v.s[l].(next := next)];
      w.s == if next == null then s1 else s1[next := s1[next].(prev := l)]
    ensures Good(w, c, Whole, null) && Contents(w) == Contents(v) && Branches(w.s) == Branches(v.s)
  {
    hide Tree, Keys, Fill, Contents, Branches, Chained, Gap;
    ChainDistinct(v, Whole);
    Unlinked(v.s, w.s, v.chain, j, r, l, next);
    LinksStep(v, w, c);
  }

  lemma ChainPlaces(v: View, j: nat)
    requires Tree(v, Whole) && j < |v.chain|
    ensures v.chain[j] in v.s && (j + 1 < |v.chain| ==> v.chain[j + 1] in v.s && v.chain[j + 1] != v.chain[j])
  {
    hide Nodes, Links;
    ChainNode(v, Whole, j);
    if j + 1 < |v.chain| { ChainNode(v, Whole, j + 1); }
  }

  lemma ChainDistinct(v: View, h: Hole)
    requires Tree(v, h)
    ensures forall a, b :: 0 <= a < b < |v.chain| ==> v.chain[a] != v.chain[b]
  {
    hide Nodes, Links;
    forall a: nat, b: nat | a < b < |v.chain| ensures v.chain[a] != v.chain[b] {
      ChainNode(v, h, a);
      ChainNode(v, h, b);
    }
  }

  // links and items of leaves change; everything else stays
  lemma LinksStep(v: View, w: View, c: Capacity)
    requires Sturdy(v, c, Whole, null) && w.root == v.root && w.chain == v.chain && w.s.Keys == v.s.Keys
    requires forall n :: n in v.s ==> w.s[n] == v.s[n].(next := w.s[n].next, prev := w.s[n].prev)
    ensures Sturdy(w, c, Whole, null) && Contents(w) == Contents(v) && Branches(w.s) == Branches(v.s)
  {
    hide Keys, FlatTo, Fill;
    assert SameShape(v, w) by {
      hide Tree;
      forall n | n in v.s ensures ShapeAt(v.s, w.s, n) {
      }
    }
    ShapeTree(v, w, Whole);
    LinksKeys(v, w);
    LinksFill(v, w, c);
    hide Nodes, Links;
    forall j | 0 <= j < |v.chain| ensures SameItemsAt(v.s, w.s, v.chain[j]) { ChainNode(v, Whole, j); }
    FlatSame(v.s, w.s, v.chain);
  }

  lemma LinksFill(v: View, w: View, c: Capacity)
    requires Fill(v, c, Whole, null) && w.root == v.root && w.s.Keys == v.s.Keys
    requires forall n :: n in v.s ==> w.s[n] == v.s[n].(next := w.s[n].next, prev := w.s[n].prev)
    ensures Fill(w, c, Whole, null)
  {
    forall n | n in w.s ensures FillOk(w, c, null, n) { assert FillOk(v, c, null, n); }
  }

  lemma LinksKeys(v: View, w: View)
    requires Tree(v, Whole) && Keys(v, Whole, NoSkip) && w.root == v.root && w.chain == v.chain && w.s.Keys == v.s.Keys
    requires forall n :: n in v.s ==> w.s[n] == v.s[n].(next := w.s[n].next, prev := w.s[n].prev)
    ensures Keys(w, Whole, NoSkip)
  {
    hide Nodes, Links, FlatTo;
    forall j | 0 <= j < |v.chain| ensures SameItemsAt(v.s, w.s, v.chain[j]) { ChainNode(v, Whole, j); }
    FlatSame(v.s, w.s, v.chain);
    hide Slots;
    forall n: Node, i: nat | n in w.s && KeyDue(w, Whole, NoSkip, n, i) ensures KeyOk(w, n, i) {
      LinkAt(v, Whole, n, i);
      assert KeyDue(v, Whole, NoSkip, n, i) && KeyOk(v, n, i);
    }
  }

  // ---------- branches

  lemma DetachStep(v: View, w: View, p: Node, k: nat, x: Node, c: Capacity)
    requires Sturdy(v, c, Dead(x), null) && Detaching(v, w, p, k, x)
    ensures Sturdy(w, c, Whole, p) && Contents(w) == Contents(v) && Branches(w.s) == Branches(v.s) - {x} && p in w.s
    ensures |w.s[p].keys| + 1 == |v.s[p].keys|
  {
    hide Tree, Keys, Fill, Contents;
    DetachTree(v, w, p, k, x);
    DetachKeys(v, w, p, k, x);
    DetachFill(v, w, p, k, x, c);
    DetachItems(v, w, p, k, x);
    SameContents(v, w);
    assert w.s[p] == DetachRec(v.s, p, k, p);
    forall n | n in w.s ensures w.s[n].level == v.s[n].level { assert w.s[n] == DetachRec(v.s, p, k, n); }
  }

  lemma MergeStep(v: View, w: View, p: Node, i: nat, lost: int, c: Capacity, under: Node?)
    requires Sturdy(v, c, Whole, under) && Merging(v, w, p, i, lost)
    requires under == v.s[p].childs[i] || under == v.s[p].childs[i + 1]
    ensures var r := v.s[p].childs[i + 1];
      && Sturdy(w, c, Dead(r), null) && Contents(w) == Contents(v) && Branches(w.s) == Branches(v.s)
      && r in w.s && w.s[r].parent == p && w.s[r].slot == i + 1
  {
    hide Tree, Keys, Fill, Contents, BothKeys, BothChilds;
    MergeTree(v, w, p, i, lost);
    MergeKeys(v, w, p, i, lost);
    MergeFill(v, w, p, i, lost, c, under);
    MergeItems(v, w, p, i, lost);
    SameContents(v, w);
    var r := v.s[p].childs[i + 1];
    assert w.s[r] == MergeRec(v.s, p, i, lost, r);
    forall n | n in v.s ensures w.s[n].level == v.s[n].level { assert w.s[n] == MergeRec(v.s, p, i, lost, n); }
  }

  lemma BorrowStep(v: View, w: View, p: Node, i: nat, m: nat, c: Capacity, under: Node?)
    requires Sturdy(v, c, Whole, under) && Pair(v, p, i) && v.s[p].level > 1 && Borrowed(v.s, w.s, p, i, m)
    requires w.root == v.root && w.chain == v.chain
    requires under == v.s[p].childs[i] || under == v.s[p].childs[i + 1]
    requires c.branch / 2 <= m && c.branch / 2 + m < |BothKeys(v.s, p, i)|
    ensures Sturdy(w, c, Whole, null) && Contents(w) == Contents(v) && Branches(w.s) == Branches(v.s)
  {
    hide Tree, Keys, Fill, Contents, BothKeys, BothChilds;
    BorrowTree(v, w, p, i, m);
    BorrowKeys(v, w, p, i, m);
    BorrowFill(v, w, p, i, m, c, under);
    BorrowItems(v, w, p, i, m);
    SameContents(v, w);
    forall n | n in v.s ensures w.s[n].level == v.s[n].level { assert w.s[n] == BorrowRec(v.s, p, i, m, n); }
  }

  lemma DropStep(v: View, w: View, child: Node, c: Capacity)
    requires Sturdy(v, c, Whole, v.root) && Dropped(v, w, child) && c.leaf >= 2 && c.branch >= 2
    ensures Sturdy(w, c, Whole, null) && Contents(w) == Contents(v) && |Branches(w.s)| + 1 == |Branches(v.s)|
  {
    hide Tree, Keys, Fill, Contents;
    DropTree(v, w, child);
    DropKeys(v, w, child);
    DropFill(v, w, child, c);
    DropItems(v, w, child);
    SameContents(v, w);
    forall n | n in w.s ensures w.s[n].level == v.s[n].level { assert w.s[n] == DropRec(v.s, child, n); }
    assert Branches(v.s) == Branches(w.s) + {v.root};
  }
}
