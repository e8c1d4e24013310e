// What the branch operations of a deletion write, as steps of the whole tree.
module BTreeTreeDeletes {
  import opened BTreeArrays
  import opened BTreeNodes
  import opened BTreeStructure
  import opened BTreeContents
  import opened BTreeBranchBorrow
  import opened BTreeBranchMerge
  import opened BTreeRoots
  import opened BTreeLeaves
  import opened BTreeLeafInserts
  import opened BTreeSearch
  import opened BTreeInsertSteps
  import opened BTreeRelinks
  import opened BTreeNodeSteps
  import opened BTreeBranchSteps
  import opened BTreeDeleteSteps
  import opened BTreeDeleteWrites
  import opened BTreeShrinking

  lemma LevelBound(v: View, h: Hole, n: Node)
    requires Tree(v, h) && n in v.s
    ensures v.root in v.s && v.s[n].level <= v.s[v.root].level
  {
    NodeAt(v, h, n);
  }

  // ---------- the dead child leaves its parent

  lemma DetachSite(v: View, x: Node)
    requires Tree(v, Dead(x))
    ensures x in v.s && v.s[x].parent != null && x != v.root
    ensures var p, k := v.s[x].parent, v.s[x].slot;
      && p in v.s && p != x && 0 < k <= |v.s[p].keys| && k < |v.s[p].childs| && v.s[p].level == v.s[x].level + 1
      && |v.s[p].childs| == |v.s[p].keys| + 1
      && var cs := Removed(v.s[p].childs, k); Distinct(cs) && forall j :: 0 <= j < |cs| ==> cs[j] in v.s && cs[j] != x
  {
    NodeAt(v, Dead(x), x);
    var p, k := v.s[x].parent, v.s[x].slot;
    NodeAt(v, Dead(x), p);
    hide Nodes, Links, Slots;
    ChildrenDistinct(v, Dead(x), p);
    var q := v.s[p].childs;
    var cs := Removed(q, k);
    forall j | 0 <= j < |cs| ensures cs[j] in v.s && cs[j] != x {
      assert cs[j] == if j < k then q[j] else q[j + 1];
    }
  }

  lemma DetachAll(v: View, w: View, x: Node, p: Node, k: nat, s1: Store, c: Capacity)
    requires Sturdy(v, c, Dead(x), null) && x in v.s && v.s[x].parent == p && v.s[x].slot == k && p in v.s
    requires 0 < k <= |v.s[p].keys| && k < |v.s[p].childs| && w.root == v.root && w.chain == v.chain
    requires s1 == (v.s - {x})[p := DetachRec(v.s, p, k, p)]
      && Relinked(s1, w.s, p, Removed(v.s[p].childs, k), k, |v.s[p].childs| - 1)
    ensures Sturdy(w, c, Whole, p) && Contents(w) == Contents(v) && Branches(w.s) == Branches(v.s) - {x} && p in w.s
    ensures |w.s[p].keys| + 1 == |v.s[p].keys| && SameBut(v.s, w.s, p)
  {
    hide Tree, Keys, Fill, Contents, Relinked, Removed, DetachRec, SameBut;
    DetachSite(v, x);
    DetachRelinked(v, p, k, x, s1, w.s);
    DetachingOk(v, w, p, k, x);
    DetachKeeps(v, w, p, k, x);
    hide Detached, Detaching, DetachLinks;
    DetachStep(v, w, p, k, x, c);
  }

  lemma DetachKeeps(v: View, w: View, p: Node, k: nat, x: Node)
    requires Tree(v, Dead(x)) && Detached(v.s, w.s, p, k, x) && v.s[x].level < v.s[p].level
    ensures SameBut(v.s, w.s, p)
  {
    forall n | n in v.s && n != p && v.s[n].level >= v.s[p].level ensures Alike(v.s, w.s, n) {
      NodeAt(v, Dead(x), n);
      assert w.s[n] == DetachRec(v.s, p, k, n);
    }
    forall n | n in w.s && n != p && w.s[n].level >= v.s[p].level ensures Alike(v.s, w.s, n) {
      assert w.s[n] == DetachRec(v.s, p, k, n);
    }
    assert w.s[p] == DetachRec(v.s, p, k, p);
  }

  lemma MergeKeeps(v: View, w: View, p: Node, i: nat, lost: int)
    requires Tree(v, Whole) && Merged(v.s, w.s, p, i, lost)
    requires var l, r := v.s[p].childs[i], v.s[p].childs[i + 1];
      v.s[l].level < v.s[p].level && v.s[r].level < v.s[p].level
    ensures SameAbove(v.s, w.s, v.s[p].level)
  {
    forall n | n in v.s && v.s[n].level >= v.s[p].level ensures Alike(v.s, w.s, n) {
      NodeAt(v, Whole, n);
      assert w.s[n] == MergeRec(v.s, p, i, lost, n);
    }
    forall n | n in v.s && w.s[n].level >= v.s[p].level ensures Alike(v.s, w.s, n) {
      assert w.s[n] == MergeRec(v.s, p, i, lost, n);
    }
  }

  // ---------- two sibling branches

  lemma RowDistinct(v: View, p: Node, i: nat)
    requires Pair(v, p, i) && v.s[p].level > 1
    ensures var cs := BothChilds(v.s, p, i); Distinct(cs) && forall k :: 0 <= k < |cs| ==> cs[k] in v.s
  {
    var cs := BothChilds(v.s, p, i);
    hide Tree;
    forall k | 0 <= k < |cs| ensures cs[k] in v.s { RowAt(v, p, i, k); }
    forall a, b | 0 <= a < b < |cs| ensures cs[a] != cs[b] {
      RowAt(v, p, i, a);
      RowAt(v, p, i, b);
    }
  }

  // an underfull branch that is not the root has a sibling
  lemma PairSite(v: View, c: Capacity, b: Node, i: nat)
    requires Tree(v, Whole) && Fill(v, c, Whole, b) && b in v.s && b != v.root && c.branch >= 2
    requires i == if v.s[b].slot == 0 then 0 else v.s[b].slot - 1
    ensures v.s[b].parent != null && v.s[b].parent in v.s
    ensures var p := v.s[b].parent;
      && i < |v.s[p].keys| && i + 1 < |v.s[p].childs| && Pair(v, p, i) && v.s[p].level == v.s[b].level + 1
      && (v.s[b].slot == 0 ==> v.s[p].childs[i] == b) && (v.s[b].slot > 0 ==> v.s[p].childs[i + 1] == b)
      && PairAt(v.s, p, i, v.s[p].childs[i], v.s[p].childs[i + 1])
  {
    NodeAt(v, Whole, b);
    var p := v.s[b].parent;
    assert FillOk(v, c, b, p);
    NodeAt(v, Whole, p);
    hide Fill, Nodes, Links, Slots;
    PairOk(v, p, i);
  }

  lemma PairLevels(v: View, p: Node, i: nat)
    requires Pair(v, p, i)
    ensures p in v.s && i < |v.s[p].keys| && i + 1 < |v.s[p].childs|
    ensures var l, r := v.s[p].childs[i], v.s[p].childs[i + 1];
      && l in v.s && r in v.s && l != r && l != p && r != p && v.s[l].level == v.s[r].level
        && v.s[l].level + 1 == v.s[p].level
      && PairAt(v.s, p, i, l, r)
    ensures v.s[p].level > 1 ==>
      BothChilds(v.s, p, i) == v.s[v.s[p].childs[i]].childs + v.s[v.s[p].childs[i + 1]].childs
  {
    hide Tree;
  }

  // the sibling of the underfull node keeps its minimum
  lemma SiblingFill(v: View, c: Capacity, b: Node, n: Node)
    requires Tree(v, Whole) && Fill(v, c, Whole, b) && n in v.s && n != b && n != v.root
    ensures v.s[n].level == 0 ==> c.leaf / 2 <= |v.s[n].items|
    ensures v.s[n].level > 0 ==> c.branch / 2 <= |v.s[n].keys|
  {
    hide Tree;
    assert FillOk(v, c, b, n);
  }

  lemma MergeAll(v: View, w: View, p: Node, i: nat, lost: int, s1: Store, c: Capacity, under: Node?)
    requires Sturdy(v, c, Whole, under) && Pair(v, p, i) && v.s[p].level > 1 && w.root == v.root && w.chain == v.chain
    requires under == v.s[p].childs[i] || under == v.s[p].childs[i + 1]
    requires var l, r := v.s[p].childs[i], v.s[p].childs[i + 1];
      && s1 == v.s[l := MergeRec(v.s, p, i, lost, l)][r := MergeRec(v.s, p, i, lost, r)][p :=
        MergeRec(v.s, p, i, lost, p)]
      && Relinked(s1, w.s, l, BothChilds(v.s, p, i), |v.s[l].childs|, |BothChilds(v.s, p, i)|)
    ensures var r := v.s[p].childs[i + 1];
      && Sturdy(w, c, Dead(r), null) && Contents(w) == Contents(v) && Branches(w.s) == Branches(v.s)
      && r in w.s && w.s[r].parent == p && w.s[r].slot == i + 1
    ensures SameAbove(v.s, w.s, v.s[p].level)
  {
    hide Tree, Keys, Fill, Contents, Relinked, MergeRec, BothKeys, SameAbove;
    MergeRelinked(v, p, i, lost, s1, w.s);
    PairLevels(v, p, i);
    MergeKeeps(v, w, p, i, lost);
    hide Pair, Merged, BothChilds;
    assert Merging(v, w, p, i, lost);
    MergeStep(v, w, p, i, lost, c, under);
  }

  lemma BorrowAll(v: View, w: View, p: Node, i: nat, m: nat, s1: Store, s2: Store, c: Capacity, under: Node?)
    requires Sturdy(v, c, Whole, under) && Pair(v, p, i) && v.s[p].level > 1 && w.root == v.root && w.chain == v.chain
    requires under == v.s[p].childs[i] || under == v.s[p].childs[i + 1]
    requires c.branch / 2 <= m && c.branch / 2 + m < |BothKeys(v.s, p, i)| && m + 1 < |BothChilds(v.s, p, i)|
    requires BothChilds(v.s, p, i)[m + 1] in v.s
    requires var l, r := v.s[p].childs[i], v.s[p].childs[i + 1];
      && s1 == v.s[l := BorrowRec(v.s, p, i, m, l)][r := BorrowRec(v.s, p, i, m, r)][p := BorrowRec(v.s, p, i, m, p)]
      && RowLinked(s1, s2, w.s, l, r, |v.s[l].childs|, m, BothChilds(v.s, p, i))
    ensures Sturdy(w, c, Whole, null) && Contents(w) == Contents(v) && Branches(w.s) == Branches(v.s)
  {
    hide Tree, Keys, Fill, Contents, Relinked, BorrowRec, BothKeys, BothChilds, Pair;
    assert BTreeRelinks.BorrowLinks(v, p, i, m, s1, s2, w.s);
    BorrowRelinked(v, p, i, m, s1, s2, w.s);
    hide Borrowed, RowLinked;
    BorrowStep(v, w, p, i, m, c, under);
  }

  // ---------- the root

  lemma RootParts(v: View, h: Hole)
    requires Tree(v, h)
    ensures v.root in v.s && v.s[v.root].parent == null && forall n ::
      n in v.s && v.s[n].parent == null && h == Whole ==> n == v.root
  {
    hide Links, Slots;
    forall n | n in v.s && v.s[n].parent == null && h == Whole ensures n == v.root { NodeAt(v, h, n); }
  }

  lemma OnlyChild(v: View)
    requires Tree(v, Whole) && v.s[v.root].level > 0 && v.s[v.root].keys == []
    ensures |v.s[v.root].childs| == 1 && v.s[v.root].childs[0] in v.s && v.s[v.root].childs[0] != v.root
  {
    NodeAt(v, Whole, v.root);
    LinkAt(v, Whole, v.root, 0);
  }

  lemma DropAll(v: View, w: View, child: Node, c: Capacity)
    requires Sturdy(v, c, Whole, v.root) && v.root in v.s && v.s[v.root].level > 0 && v.s[v.root].keys == []
      && c.leaf >= 2 && c.branch >= 2
    requires |v.s[v.root].childs| == 1 && v.s[v.root].childs[0] == child && child in v.s && child != v.root
    requires w.root == child && w.chain == v.chain
      && w.s == (v.s - {v.root})[child := v.s[child].(parent := null, slot := 0)]
    ensures Sturdy(w, c, Whole, null) && Contents(w) == Contents(v) && |Branches(w.s)| + 1 == |Branches(v.s)|
  {
    hide Tree, Keys, Fill, Contents, Branches;
    assert v.s[v.root].childs == [child];
    assert Dropped(v, w, child);
    DropStep(v, w, child, c);
  }

  lemma FillBackAt(v: View, c: Capacity, under: Node)
    requires Fill(v, c, Whole, under) && under in v.s && v.s[under].level > 0
    requires if under == v.root then |v.s[under].keys| > 0 else c.branch / 2 <= |v.s[under].keys|
    ensures Fill(v, c, Whole, null)
  {
    forall n | n in v.s ensures FillOk(v, c, null, n) { assert FillOk(v, c, under, n); }
  }

  // ---------- leaves

  // the pair an underfull leaf belongs to
  lemma LeafPair(v: View, c: Capacity, a: Node, i: nat)
    requires Good(v, c, Whole, a) && a in v.s && v.s[a].level == 0 && a != v.root && c.leaf >= 2 && c.branch >= 2
    requires i == if v.s[a].slot == 0 then 0 else v.s[a].slot - 1
    ensures v.s[a].parent != null && v.s[a].parent in v.s
    ensures var p := v.s[a].parent;
      && i < |v.s[p].keys| && i + 1 < |v.s[p].childs| && Pair(v, p, i) && v.s[p].level == 1
      && (v.s[a].slot == 0 ==> v.s[p].childs[i] == a) && (v.s[a].slot > 0 ==> v.s[p].childs[i + 1] == a)
      && var l, r := v.s[p].childs[i], v.s[p].childs[i + 1];
      && l in v.s && r in v.s && l != r && v.s[l].level == 0 && v.s[r].level == 0 && IsLeafOf(v, l) && IsLeafOf(v, r)
      && v.s[r].lo == v.s[l].lo + 1 && l != v.root && r != v.root
      && (l == a ==> c.leaf / 2 <= |v.s[r].items|) && (r == a ==> c.leaf / 2 <= |v.s[l].items|)
  {
    hide Nodes, Links, Slots, Keys, Fill, Chained;
    PairSite(v, c, a, i);
    var p := v.s[a].parent;
    var l, r := v.s[p].childs[i], v.s[p].childs[i + 1];
    hide Tree;
    PairLeaves(v, p, i);
    if l == a { SiblingFill(v, c, a, r); }
    if r == a { SiblingFill(v, c, a, l); }
  }

  ghost predicate JoinedTo(v: View, w: View, l: Node, r: Node)
  {
    && l in v.s && r in v.s && v.s[l].lo + 1 < |v.chain| && w.root == v.root
    && w.chain == v.chain[..v.s[l].lo + 1] + v.chain[v.s[l].lo + 2..] && w.s == GoneStore(v.s, l, r)
  }

  lemma JoinAll(v: View, w: View, p: Node, i: nat, c: Capacity, under: Node?)
    requires Good(v, c, Whole, under) && Pair(v, p, i) && v.s[p].level == 1
      && JoinedTo(v, w, v.s[p].childs[i], v.s[p].childs[i + 1])
    requires under == v.s[p].childs[i] || under == v.s[p].childs[i + 1]
    requires c.leaf / 2 <= |v.s[v.s[p].childs[i]].items| + |v.s[v.s[p].childs[i + 1]].items|
    ensures var l, r := v.s[p].childs[i], v.s[p].childs[i + 1];
      && Sturdy(w, c, Dead(r), null) && Contents(w) == Contents(v) && Branches(w.s) == Branches(v.s)
      && r in w.s && l in w.s && w.s[r].parent == p && w.s[r].slot == i + 1 && v.s[l].lo < |w.chain|
        && w.chain[v.s[l].lo] == l
      && Gap(w.s, w.chain, v.s[l].lo, r) && w.s[r].prev == l
      && w.s[r].next == if v.s[l].lo + 1 < |w.chain| then w.chain[v.s[l].lo + 1] else null
    ensures |w.chain| + 1 == |v.chain| && w.chain[0] == v.chain[0]
  {
    hide Tree, Keys, Fill, Chained, Contents, Branches;
    var l, r := v.s[p].childs[i], v.s[p].childs[i + 1];
    assert Gone(v, w, p, i);
    hide JoinedTo, Gone, Pair;
    GoneStep(v, w, p, i, c, under);
    GoneGap(v, w, p, i);
  }

  // a tree of one leaf
  lemma SoleRoot(v: View)
    requires Tree(v, Whole) && v.s[v.root].level == 0
    ensures |v.chain| == 1 && Branches(v.s) == {} && v.root in v.s && Contents(v) == v.s[v.root].items
  {
    NodeAt(v, Whole, v.root);
    hide Links, Slots;
    forall n | n in v.s ensures v.s[n].level == 0 { NodeAt(v, Whole, n); }
    assert FlatTo(v.s, v.chain, 0) == [];
    assert FlatTo(v.s, v.chain, 1) == FlatTo(v.s, v.chain, 0) + v.s[v.root].items;
  }

  lemma RemovedOrdered(q: seq<Item>, pos: nat, unique: bool)
    requires Ordered(q, unique) && pos < |q|
    ensures Ordered(Removed(q, pos), unique)
  {
  }

  lemma LeafFillBack(v: View, c: Capacity, a: Node)
    requires Good(v, c, Whole, a) && a in v.s && v.s[a].level == 0
    requires if a == v.root then |v.s[a].items| > 0 else c.leaf / 2 <= |v.s[a].items|
    ensures Good(v, c, Whole, null)
  {
    hide Tree, Keys, Chained;
    forall n | n in v.s ensures FillOk(v, c, null, n) { assert FillOk(v, c, a, n); }
  }

  lemma LeafBefore(v: View, p: Node, k: nat)
    requires Tree(v, Whole) && p in v.s && v.s[p].level == 1 && 0 < k < |v.s[p].childs|
    ensures v.s[p].childs[k - 1] in v.s && v.s[p].childs[k] in v.s
    ensures var l, r := v.s[p].childs[k - 1], v.s[p].childs[k]; v.s[l].level == 0 && v.s[r].lo == v.s[l].lo + 1
  {
    NodeAt(v, Whole, p);
    hide Nodes, Links, Slots;
    PairOk(v, p, k - 1);
    PairLeaves(v, p, k - 1);
  }

  // keys of neighbouring leaves do not mix
  lemma LeavesApart(v: View, l: Node, r: Node)
    requires Tree(v, Whole) && IsLeafOf(v, l) && IsLeafOf(v, r) && v.s[r].lo == v.s[l].lo + 1
      && Ordered(Contents(v), true)
    ensures forall a, b ::
      0 <= a < |v.s[l].items| && 0 <= b < |v.s[r].items| ==> v.s[l].items[a].key < v.s[r].items[b].key
  {
    AroundLeaf(v, l);
    AroundLeaf(v, r);
    var p, q, c := v.s[l].items, v.s[r].items, Contents(v);
    var h := |FlatTo(v.s, v.chain, v.s[l].lo)|;
    hide Tree, FlatTo, Contents;
    forall a, b | 0 <= a < |p| && 0 <= b < |q| ensures p[a].key < q[b].key {
      assert c[h..h + |p|][a] == c[h + a] && c[h + |p|..h + |p| + |q|][b] == c[h + |p| + b];
    }
  }

  // two leaves in order take up the contents in order
  lemma PositionsApart(v: View, a: Node, b: Node)
    requires Tree(v, Whole) && IsLeafOf(v, a) && IsLeafOf(v, b) && v.s[a].lo < v.s[b].lo
    ensures |FlatTo(v.s, v.chain, v.s[a].lo)| + |v.s[a].items| <= |FlatTo(v.s, v.chain, v.s[b].lo)|
  {
    AroundLeaf(v, a);
    AroundLeaf(v, b);
    FlatMono(v.s, v.chain, v.s[a].lo + 1, v.s[b].lo);
  }

  // with unique keys a key stands in one slot of one leaf
  lemma OneSlot(v: View, a: Node, i: nat, b: Node, k: nat)
    requires Tree(v, Whole) && IsLeafOf(v, a) && IsLeafOf(v, b) && Ordered(Contents(v), true)
    requires i < |v.s[a].items| && k < |v.s[b].items| && v.s[a].items[i].key == v.s[b].items[k].key
    ensures a == b && i == k
  {
    AroundLeaf(v, a);
    AroundLeaf(v, b);
    if v.s[a].lo < v.s[b].lo { PositionsApart(v, a, b); }
    if v.s[b].lo < v.s[a].lo { PositionsApart(v, b, a); }
    var p, q, c := |FlatTo(v.s, v.chain, v.s[a].lo)|, |FlatTo(v.s, v.chain, v.s[b].lo)|, Contents(v);
    hide Tree, FlatTo, Contents;
    assert c[p..p + |v.s[a].items|][i] == c[p + i] && c[q..q + |v.s[b].items|][k] == c[q + k];
  }

  lemma LeafFull(v: View, c: Capacity, a: Node)
    requires Tree(v, Whole) && Fill(v, c, Whole, null) && c.leaf >= 2 && a in v.s && v.s[a].level == 0
    ensures |v.s[a].items| > 0
  {
    NodeAt(v, Whole, a);
    hide Tree;
    assert FillOk(v, c, null, a);
  }

  lemma FirstFull(v: View, c: Capacity)
    requires Tree(v, Whole) && Fill(v, c, Whole, null) && c.leaf >= 2 && |v.chain| > 0
    ensures v.chain[0] in v.s && v.s[v.chain[0]].level == 0 && v.s[v.chain[0]].lo == 0 && |v.s[v.chain[0]].items| > 0
  {
    ChainNode(v, Whole, 0);
    LeafFull(v, c, v.chain[0]);
  }
}
