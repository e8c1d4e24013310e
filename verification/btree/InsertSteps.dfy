// Every step of an insertion keeps what is true of the whole tree.
module BTreeInsertSteps {
  import opened BTreeArrays
  import opened BTreeNodes
  import opened BTreeStructure
  import opened BTreeContents
  import opened BTreeBranchGrowth
  import opened BTreeBranchHalves
  import opened BTreeRoots
  import opened BTreeLeafSteps
  import opened BTreeLeaves
  import opened BTreeLeafInserts

  ghost predicate Good(v: View, c: Capacity, h: Hole, under: Node?)
  {
    Tree(v, h) && Keys(v, h, NoSkip) && Fill(v, c, h, under) && Chained(v.s, v.chain)
  }

  ghost function Branches(s: Store): set<Node> { set n | n in s && s[n].level > 0 }

  // levels, items and leaf links of the nodes of s carry over to t
  ghost predicate CarriedAt(s: Store, t: Store, n: Node)
    requires n in s
  {
    n in t && t[n].level == s[n].level && t[n].items == s[n].items && t[n].next == s[n].next && t[n].prev == s[n].prev
  }

  ghost predicate Carries(s: Store, t: Store)
  {
    forall n {:trigger CarriedAt(s, t, n)} :: n in s ==> CarriedAt(s, t, n)
  }

  lemma CarriesChain(v: View, h: Hole, w: View)
    requires Tree(v, h) && Chained(v.s, v.chain) && Carries(v.s, w.s) && w.chain == v.chain
    ensures Chained(w.s, w.chain) && Contents(w) == Contents(v)
  {
    hide Nodes, Links, FlatTo;
    forall j: nat | j < |v.chain| ensures NextOk(w.s, w.chain, j) && SameItemsAt(v.s, w.s, v.chain[j]) {
      ChainNode(v, h, j);
      assert NextOk(v.s, v.chain, j) && CarriedAt(v.s, w.s, v.chain[j]);
    }
    FlatSame(v.s, w.s, v.chain);
  }

  lemma CarriesBranches(s: Store, t: Store)
    requires Carries(s, t) && t.Keys == s.Keys
    ensures Branches(t) == Branches(s)
  {
    forall n | n in s ensures n in t && t[n].level == s[n].level { assert CarriedAt(s, t, n); }
  }

  lemma CarriesOneMore(s: Store, t: Store, x: Node)
    requires Carries(s, t) && x !in s && t.Keys == s.Keys + {x} && t[x].level > 0
    ensures Branches(t) == Branches(s) + {x} && |Branches(t)| == |Branches(s)| + 1
  {
    forall n | n in s ensures n in t && t[n].level == s[n].level { assert CarriedAt(s, t, n); }
    hide Carries;
    assert Branches(t) == Branches(s) + {x};
    assert x !in Branches(s);
  }

  // ---------- a branch takes in the extra node

  lemma AttachStep(v: View, h: Hole, w: View, b: Node, i: nat, x: Node, c: Capacity)
    requires Good(v, c, h, null) && h.Split? && AttachSite(v, h, b, i, x)
    requires Attached(v.s, w.s, b, i, h.key, x) && w.root == v.root && w.chain == v.chain
    ensures Good(w, c, Whole, null) && Contents(w) == Contents(v) && Branches(w.s) == Branches(v.s)
  {
    hide Tree, Keys, Fill, Chained, Contents, AttachSite, Inserted;
    AttachTree(v, h, w, b, i, x, h.key);
    AttachKeys(v, h, w, b, i, x);
    AttachFill(v, h, w, b, i, x, h.key, c);
    assert Carries(v.s, w.s) by {
      forall n | n in v.s ensures CarriedAt(v.s, w.s, n) { assert w.s[n] == AttachRec(v.s, b, i, h.key, x, n); }
    }
    hide Attached, Branches;
    CarriesChain(v, h, w);
    CarriesBranches(v.s, w.s);
  }

  // ---------- an overfull branch splits

  lemma HalfStep(v: View, w: View, b: Node, y: Node, m: nat, c: Capacity)
    requires Good(v, c, Whole, null) && Halved(v.s, w.s, b, y, m) && w.root == v.root && w.chain == v.chain
    requires |v.s[b].keys| == c.branch + 1 && m == (c.branch + 1) / 2 && c.branch >= 2
    ensures Good(w, c, UpperHole(v.s, b, y, m), null) && Contents(w) == Contents(v)
    ensures Branches(w.s) == Branches(v.s) + {y} && |Branches(w.s)| == |Branches(v.s)| + 1
    ensures c.branch / 2 <= |w.s[b].keys|
  {
    assert y != v.root && y !in v.s;
    hide Tree, Keys, Fill, Chained, Contents, UpperHole;
    HalfTree(v, w, b, y, m);
    HalfKeys(v, w, b, y, m);
    HalfFill(v, w, b, y, m, c);
    assert w.s[b] == HalfRec(v.s, b, y, m, b);
    assert Carries(v.s, w.s) by {
      forall n | n in v.s ensures CarriedAt(v.s, w.s, n) { assert w.s[n] == HalfRec(v.s, b, y, m, n); }
    }
    assert w.s[y].level > 0 && w.s.Keys == v.s.Keys + {y};
    hide Halved, Branches;
    CarriesChain(v, Whole, w);
    CarriesOneMore(v.s, w.s, y);
  }

  // ---------- a new root above a split one

  lemma GrowStep(v: View, w: View, h: Hole, top: Node, c: Capacity)
    requires Good(v, c, h, null) && Grown(v, w, h, top)
    requires v.s[v.root].level == 0 ==> c.leaf / 2 <= |v.s[v.root].items|
    requires v.s[v.root].level > 0 ==> c.branch / 2 <= |v.s[v.root].keys|
    ensures Good(w, c, Whole, null) && Contents(w) == Contents(v)
    ensures |Branches(w.s)| == |Branches(v.s)| + 1
  {
    hide Tree, Keys, Fill, Chained, Contents;
    GrowTree(v, w, h, top);
    GrowKeys(v, w, h, top);
    GrowFill(v, w, h, top, c);
    assert Carries(v.s, w.s) by {
      forall n | n in v.s ensures CarriedAt(v.s, w.s, n) { assert w.s[n] == GrowRec(v.s, v.root, h.extra, top, n); }
    }
    assert top !in v.s && w.s[top].level > 0 && w.s.Keys == v.s.Keys + {top} && w.chain == v.chain;
    hide Grown, Branches;
    CarriesChain(v, h, w);
    CarriesOneMore(v.s, w.s, top);
  }

  // ---------- leaves

  lemma ChainedLinks(s: Store, t: Store, chain: seq<Node>)
    requires Chained(s, chain)
    requires forall j {:trigger chain[j]} :: 0 <= j < |chain| && chain[j] in s ==>
               chain[j] in t && t[chain[j]].next == s[chain[j]].next && t[chain[j]].prev == s[chain[j]].prev
    ensures Chained(t, chain)
  {
    forall j: nat | j < |chain| ensures NextOk(t, chain, j) {
      assert NextOk(s, chain, j);
    }
  }

  lemma EnterStep(v: View, w: View, a: Node, slot: nat, x: Item, c: Capacity, under: Node?)
    requires Good(v, c, Whole, under) && Entered(v, w, a, slot, x) && (under == null || (under == a && a == v.root))
    requires slot == |v.s[a].items| ==> v.s[a].lo + 1 == |v.chain|
    ensures Good(w, c, Whole, null) && Branches(w.s) == Branches(v.s)
    ensures |FlatTo(v.s, v.chain, v.s[a].lo)| + slot <= |Contents(v)|
    ensures Contents(w) == Inserted(Contents(v), |FlatTo(v.s, v.chain, v.s[a].lo)| + slot, x)
  {
    hide Tree, Keys, Fill, Contents, FlatTo, Inserted;
    EnteredOk(v, w, a, slot, x);
    EnteredFill(v, w, a, slot, x, c, under);
    ChainedLinks(v.s, w.s, v.chain);
  }

  // two neighbouring leaves share x, and the separator between them is set
  lemma ShareStep(v: View, u: View, w: View, l: Node, r: Node, slot: nat, x: Item, m: nat, key: int, c: Capacity)
    requires Good(v, c, Whole, null) && Shared(v, u, l, r, slot, x, m)
    requires slot == |v.s[l].items + v.s[r].items| ==> v.s[l].lo + 2 == |v.chain|
    requires c.leaf / 2 <= m && c.leaf / 2 + m <= |v.s[l].items + v.s[r].items| + 1
      && m < |v.s[l].items + v.s[r].items| + 1
    requires Repaired(u, w, v.s[l].lo, key) && u.s[l].items != [] ==> key == u.s[l].items[|u.s[l].items| - 1].key
    requires Repaired(u, w, v.s[l].lo, key)
    ensures Good(w, c, Whole, null) && Branches(w.s) == Branches(v.s)
    ensures |FlatTo(v.s, v.chain, v.s[l].lo)| + slot <= |Contents(v)|
    ensures Contents(w) == Inserted(Contents(v), |FlatTo(v.s, v.chain, v.s[l].lo)| + slot, x)
  {
    hide Tree, Keys, Fill, Contents, FlatTo, Inserted, Repaired, EndsWith;
    SharedOk(v, u, l, r, slot, x, m);
    SharedContents(v, u, l, r, slot, x, m);
    SharedEnds(v, u, l, r, slot, x, m);
    SharedFill(v, u, l, r, slot, x, m, c);
    ChainedLinks(v.s, u.s, v.chain);
    hide Shared;
    RepairStep(u, w, v.s[l].lo, key, c, null);
    assert Branches(u.s) == Branches(v.s);
  }

  lemma RepairStep(v: View, w: View, j: nat, key: int, c: Capacity, under: Node?)
    requires Tree(v, Whole) && Keys(v, Whole, j + 1) && Repaired(v, w, j, key) && EndsWith(v.s, v.chain, j + 1, key)
    requires Fill(v, c, Whole, under) && Chained(v.s, v.chain)
    ensures Good(w, c, Whole, under) && Contents(w) == Contents(v) && Branches(w.s) == Branches(v.s)
  {
    RepairKeys(v, w, j, key);
    RepairShape(v, w, j, key);
    RepairRest(v, w, j, key, c, under);
    hide Tree, Keys, FlatTo, Owner, EndsWith, Repaired, SameShape, Fill, Chained, Branches;
    ShapeTree(v, w, Whole);
  }

  lemma RepairRest(v: View, w: View, j: nat, key: int, c: Capacity, under: Node?)
    requires Repaired(v, w, j, key) && SameShape(v, w) && Fill(v, c, Whole, under) && Chained(v.s, v.chain)
    ensures Fill(w, c, Whole, under) && Chained(w.s, w.chain) && Branches(w.s) == Branches(v.s)
  {
    hide FlatTo, Owner;
    ChainedLinks(v.s, w.s, v.chain);
    forall n | n in w.s ensures FillOk(w, c, under, n) && w.s[n].level == v.s[n].level {
      assert FillOk(v, c, under, n) && ShapeAt(v.s, w.s, n);
    }
  }

  // a leaf is cut in two
  lemma CutStep(v: View, w: View, a: Node, b: Node, slot: nat, x: Item, m: nat, k: int, c: Capacity)
    requires Good(v, c, Whole, null) && CutIn(v, w, a, b, slot, x, m)
    requires slot == |v.s[a].items| ==> v.s[a].lo + 1 == |v.chain|
    requires w.s[a].items != [] ==> k == w.s[a].items[|w.s[a].items| - 1].key
    requires m == (c.leaf + 1) / 2 && |v.s[a].items| == c.leaf && c.leaf >= 2
    requires CutLinks(v.s, w.s, a, b)
    ensures Good(w, c, Split(a, v.s[a].lo + 1, k, b), null) && Branches(w.s) == Branches(v.s)
    ensures |FlatTo(v.s, v.chain, v.s[a].lo)| + slot <= |Contents(v)|
    ensures Contents(w) == Inserted(Contents(v), |FlatTo(v.s, v.chain, v.s[a].lo)| + slot, x)
  {
    hide Tree, Keys, Fill, Contents, FlatTo, Inserted, CutLinks;
    CutOk(v, w, a, b, slot, x, m, k);
    CutFill(v, w, a, b, slot, x, m, k, c);
    CutChain(v, w, a, b);
    forall n | n in v.s ensures n in w.s && w.s[n].level == v.s[n].level { assert Kept(v.s, w.s, n); }
  }

  // how next and prev are spliced around the new leaf
  ghost predicate CutLinks(s: Store, t: Store, a: Node, b: Node)
  {
    && a in s && a in t && b in t && t[a].next == b && t[a].prev == s[a].prev && t[b].next == s[a].next
      && t[b].prev == a
    && forall n ::
      n in s && n != a ==> n in t && t[n].next == s[n].next && t[n].prev == (if n == s[a].next then b else s[n].prev)
  }

  lemma CutChain(v: View, w: View, a: Node, b: Node)
    requires Tree(v, Whole) && Chained(v.s, v.chain) && IsLeafOf(v, a) && LeafCut(v, w, a, b)
      && CutLinks(v.s, w.s, a, b)
    ensures Chained(w.s, w.chain)
  {
    hide Nodes, Links;
    var j := v.s[a].lo;
    forall q: nat | q < |w.chain| ensures NextOk(w.s, w.chain, q) {
      var i := if q <= j then q else q - 1;
      ChainNode(v, Whole, i);
      assert NextOk(v.s, v.chain, i) && NextOk(v.s, v.chain, j);
      if i + 1 < |v.chain| { ChainNode(v, Whole, i + 1); }
      if j + 1 < |v.chain| { ChainNode(v, Whole, j + 1); }
      ChainNode(v, Whole, j);
    }
  }
}
