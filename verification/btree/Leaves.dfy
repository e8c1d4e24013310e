// Steps on one leaf or on two neighbouring leaves.
module BTreeLeaves {
  import opened BTreeNodes
  import opened BTreeStructure
  import opened BTreeContents
  import opened BTreeBranchBorrow
  import opened BTreeLeafSteps
  import opened BTreeOwners

  // ---------- what a change in a window of leaves does to the contents

  ghost predicate HeadSame(v: View, w: View, j: nat)
  {
    j <= |v.chain| && j <= |w.chain| &&
    forall q {:trigger v.chain[q]} {:trigger w.chain[q]} ::
        0 <= q < j ==> w.chain[q] == v.chain[q] && SameItemsAt(v.s, w.s, v.chain[q])
  }

  // the leaves a.. of v are the leaves b.. of w, with the same items
  ghost predicate RestSame(v: View, w: View, a: nat, b: nat)
  {
    a <= |v.chain| && b <= |w.chain| && |v.chain| - a == |w.chain| - b &&
    forall q: nat {:trigger SameAt(v.s, w.s, v.chain, w.chain, a, b, q)} ::
        q < |v.chain| - a ==> SameAt(v.s, w.s, v.chain, w.chain, a, b, q)
  }

  // the greatest key among the first b leaves of w is that among the first a leaves of v
  ghost predicate TopKept(v: View, w: View, a: nat, b: nat)
  {
    var p, q := FlatTo(v.s, v.chain, a), FlatTo(w.s, w.chain, b);
    q != [] ==> p != [] && q[|q| - 1].key == p[|p| - 1].key
  }

  lemma HeadEnds(v: View, w: View, j: nat, m: nat)
    requires HeadSame(v, w, j) && m <= j
    ensures FlatTo(w.s, w.chain, m) == FlatTo(v.s, v.chain, m)
  {
    FlatSameTo(v.s, w.s, v.chain, w.chain, m);
  }

  lemma RestEnds(v: View, w: View, a: nat, b: nat, m: nat, key: int)
    requires RestSame(v, w, a, b) && TopKept(v, w, a, b) && a <= m <= |v.chain|
    requires EndsWith(v.s, v.chain, m, key)
    ensures EndsWith(w.s, w.chain, m - a + b, key)
  {
    FlatTail(v.s, w.s, v.chain, w.chain, a, b, m - a);
    FlatMono(v.s, v.chain, a, m);
    hide FlatTo, RestSame;
    SameEnd(FlatTo(v.s, v.chain, a), FlatTo(v.s, v.chain, m), FlatTo(w.s, w.chain, b), FlatTo(w.s, w.chain, m - a + b),
        key);
  }

  // p ends like q, and both go on alike
  lemma SameEnd(p: seq<Item>, pm: seq<Item>, q: seq<Item>, qm: seq<Item>, key: int)
    requires |p| <= |pm| && pm[..|p|] == p && qm == q + pm[|p|..]
    requires q != [] ==> p != [] && q[|q| - 1].key == p[|p| - 1].key
    requires pm != [] ==> pm[|pm| - 1].key == key
    ensures qm != [] ==> qm[|qm| - 1].key == key
  {
    if |pm| > |p| {
      assert qm[|qm| - 1] == pm[|p|..][|pm| - |p| - 1];
    } else {
      assert pm == p && qm == q;
    }
  }

  // contents before and after, cut at the window
  lemma WindowContents(v: View, w: View, a: nat, b: nat)
    requires RestSame(v, w, a, b)
    ensures |FlatTo(v.s, v.chain, a)| <= |Contents(v)|
    ensures Contents(w) == FlatTo(w.s, w.chain, b) + Contents(v)[|FlatTo(v.s, v.chain, a)|..]
    ensures Contents(v) == FlatTo(v.s, v.chain, a) + Contents(v)[|FlatTo(v.s, v.chain, a)|..]
  {
    FlatTail(v.s, w.s, v.chain, w.chain, a, b, |v.chain| - a);
    FlatMono(v.s, v.chain, a, |v.chain|);
  }

  // separator i of n stays due and keeps its place outside the window j..a
  ghost predicate Carried(v: View, w: View, h: Hole, skip: int, j: nat, a: nat, b: nat, n: Node, i: nat)
  {
    && KeyDue(v, h, skip, n, i) && n in w.s && i < |w.s[n].keys| && i < |w.s[n].childs|
    && w.s[n].keys[i] == v.s[n].keys[i] && w.s[n].childs[i] == v.s[n].childs[i]
    && var c := v.s[n].childs[i];
    c in v.s && c in w.s && ((v.s[c].hi <= j && w.s[c].hi == v.s[c].hi) ||
                             (a <= v.s[c].hi < |v.chain| && w.s[c].hi == v.s[c].hi - a + b))
  }

  lemma WindowKeyAt(v: View, w: View, h: Hole, skip: int, j: nat, a: nat, b: nat, n: Node, i: nat)
    requires HeadSame(v, w, j) && RestSame(v, w, a, b) && (a < |v.chain| ==> TopKept(v, w, a, b)) && j < a
    requires Keys(v, h, skip) && Carried(v, w, h, skip, j, a, b, n, i)
    ensures KeyOk(w, n, i)
  {
    hide FlatTo, TopKept, HeadSame, RestSame;
    assert KeyOk(v, n, i);
    var c := v.s[n].childs[i];
    if v.s[c].hi <= j {
      HeadEnds(v, w, j, v.s[c].hi);
    } else {
      RestEnds(v, w, a, b, v.s[c].hi, v.s[n].keys[i]);
    }
  }

  // ---------- items of leaves, and values of keys, change; the shape stays

  ghost predicate ShapeAt(s: Store, t: Store, n: Node)
    requires n in s
  {
    n in t && t[n].level == s[n].level && t[n].parent == s[n].parent && t[n].slot == s[n].slot
        && t[n].childs == s[n].childs &&
    t[n].lo == s[n].lo && t[n].hi == s[n].hi && |t[n].keys| == |s[n].keys|
        && (s[n].level > 0 ==> t[n].items == s[n].items)
  }

  ghost predicate SameShape(v: View, w: View)
  {
    w.root == v.root && w.chain == v.chain && w.s.Keys == v.s.Keys &&
    forall n {:trigger ShapeAt(v.s, w.s, n)} :: n in v.s ==> ShapeAt(v.s, w.s, n)
  }

  lemma ShapeNode(v: View, w: View, h: Hole, n: Node)
    requires Tree(v, h) && SameShape(v, w) && n in v.s
    ensures NodeOk(w, h, n)
  {
    NodeAt(v, h, n);
    var q := v.s[n].childs;
    if v.s[n].level > 0 && !IsDead(h, n) {
      LinkAt(v, h, n, 0);
      LinkAt(v, h, n, |q| - 1);
      assert ShapeAt(v.s, w.s, q[0]) && ShapeAt(v.s, w.s, q[|q| - 1]);
    }
    hide Nodes, Links, Slots;
    assert ShapeAt(v.s, w.s, n) && ShapeAt(v.s, w.s, v.root);
    if n != v.root && !IsExtra(h, n) {
      assert ShapeAt(v.s, w.s, v.s[n].parent);
    }
  }

  lemma ShapeLink(v: View, w: View, h: Hole, n: Node, j: nat)
    requires Tree(v, h) && SameShape(v, w) && n in v.s && !IsDead(h, n) && n in w.s && j < |w.s[n].childs|
    ensures ChildOk(w.s, n, j)
  {
    assert ShapeAt(v.s, w.s, n);
    LinkAt(v, h, n, j);
    var c := v.s[n].childs[j];
    if j + 1 < |v.s[n].childs| { LinkAt(v, h, n, j + 1); }
    hide Tree;
    assert ShapeAt(v.s, w.s, c);
    if j + 1 < |v.s[n].childs| { assert ShapeAt(v.s, w.s, v.s[n].childs[j + 1]); }
  }

  lemma ShapeTree(v: View, w: View, h: Hole)
    requires Tree(v, h) && SameShape(v, w)
    ensures Tree(w, h)
  {
    hide *;
    ShapeNodes(v, w, h);
    ShapeRest(v, w, h);
  }

  lemma ShapeNodes(v: View, w: View, h: Hole)
    requires Tree(v, h) && SameShape(v, w)
    ensures Nodes(w, h) && Links(w.s, h)
  {
    hide Tree, SameShape, NodeOk, ChildOk, IsDead;
    ShapeKeys(v, w);
    forall n | n in w.s ensures NodeOk(w, h, n) { ShapeNode(v, w, h, n); }
    forall n: Node, j: nat | n in w.s && !IsDead(h, n) && 0 <= j < |w.s[n].childs| ensures ChildOk(w.s, n, j) {
      ShapeLink(v, w, h, n, j);
    }
  }

  lemma ShapeKeys(v: View, w: View)
    requires SameShape(v, w)
    ensures w.s.Keys == v.s.Keys && w.root == v.root && w.chain == v.chain
  {
  }

  lemma ShapeRest(v: View, w: View, h: Hole)
    requires Tree(v, h) && SameShape(v, w) && Nodes(w, h) && Links(w.s, h)
    ensures Tree(w, h)
  {
    hide Nodes, Links;
    assert ShapeAt(v.s, w.s, v.root);
    if h.Split? { assert ShapeAt(v.s, w.s, h.cut) && ShapeAt(v.s, w.s, h.extra); }
    if h.Dead? { assert ShapeAt(v.s, w.s, h.node); }
    forall j | 0 <= j < |w.chain| ensures SlotOk(w, h, j) {
      assert SlotOk(v, h, j);
      assert ShapeAt(v.s, w.s, v.chain[j]);
    }
  }

  // the leaves j..a change their items, and no separator changes: all separators outside the window stay exact
  lemma ItemsKeys(v: View, w: View, j: nat, a: nat, skip: int)
    requires Tree(v, Whole) && SameShape(v, w) && Keys(v, Whole, NoSkip)
    requires HeadSame(v, w, j) && RestSame(v, w, a, a) && (a < |v.chain| ==> TopKept(v, w, a, a))
    requires forall n {:trigger ShapeAt(v.s, w.s, n)} :: n in v.s ==> w.s[n].keys == v.s[n].keys
    requires j + 1 == a || (j + 2 == a && skip == j + 1)
    ensures Keys(w, Whole, skip)
  {
    hide FlatTo, TopKept, HeadSame, RestSame, Nodes, Links, Slots;
    forall n: Node, i: nat | n in w.s && KeyDue(w, Whole, skip, n, i) ensures KeyOk(w, n, i) {
      assert ShapeAt(v.s, w.s, n);
      LinkAt(v, Whole, n, i);
      LinkAt(v, Whole, n, i + 1);
      assert ShapeAt(v.s, w.s, v.s[n].childs[i]);
      NodeSpan(v, Whole, v.s[n].childs[i + 1]);
      WindowKeyAt(v, w, Whole, NoSkip, j, a, a, n, i);
    }
  }

  // ---------- repairing the separator behind leaf j

  ghost predicate Repaired(v: View, w: View, j: nat, key: int)
  {
    && j < |v.chain| && v.chain[j] in v.s && v.s[v.chain[j]].parent != null
    && w == v.(s := SetKey(v.s, Owner(v.s, Top(v), v.s[v.chain[j]].parent, v.s[v.chain[j]].slot), key))
  }

  lemma RepairShape(v: View, w: View, j: nat, key: int)
    requires Repaired(v, w, j, key)
    ensures SameShape(v, w)
    ensures forall m :: FlatTo(w.s, w.chain, m) == FlatTo(v.s, v.chain, m)
  {
    hide FlatTo, Owner;
    forall q | 0 <= q < |v.chain| && v.chain[q] in v.s ensures SameItemsAt(v.s, w.s, v.chain[q]) {
    }
    forall n | n in v.s ensures ShapeAt(v.s, w.s, n) {
    }
    forall m: nat ensures FlatTo(w.s, w.chain, m) == FlatTo(v.s, v.chain, m) {
      RepairFlat(v, w, j, key, m);
    }
  }

  lemma {:induction false} RepairFlat(v: View, w: View, j: nat, key: int, m: nat)
    requires Repaired(v, w, j, key)
    ensures FlatTo(w.s, w.chain, m) == FlatTo(v.s, v.chain, m)
  {
    hide Owner;
    if m > 0 && m <= |v.chain| { RepairFlat(v, w, j, key, m - 1); }
  }

  lemma RepairKeyAt(v: View, w: View, j: nat, key: int, n: Node, i: nat)
    requires Tree(v, Whole) && Keys(v, Whole, j + 1) && Repaired(v, w, j, key) && SameShape(v, w)
    requires EndsWith(v.s, v.chain, j + 1, key) && n in v.s && KeyDue(w, Whole, NoSkip, n, i)
    requires forall m :: FlatTo(w.s, w.chain, m) == FlatTo(v.s, v.chain, m)
    ensures KeyOk(w, n, i)
  {
    var a := v.chain[j];
    assert SlotOk(v, Whole, j);
    NodeAt(v, Whole, a);
    NodeAt(v, Whole, v.s[a].parent);
    assert ShapeAt(v.s, w.s, n);
    LinkAt(v, Whole, n, i);
    var c := v.s[n].childs[i];
    assert ShapeAt(v.s, w.s, c);
    OwnerEnd(v, v.s[a].parent, v.s[a].slot);
    OwnerOfLeaf(v, n, i, c);
    OwnerHere(v.s, Top(v), n, i);
    hide FlatTo, Owner, Nodes, Links, Slots, SameShape;
    if v.s[c].hi != j + 1 {
      assert KeyDue(v, Whole, j + 1, n, i) && KeyOk(v, n, i);
    }
  }

  lemma RepairKeys(v: View, w: View, j: nat, key: int)
    requires Tree(v, Whole) && Keys(v, Whole, j + 1) && Repaired(v, w, j, key)
    requires EndsWith(v.s, v.chain, j + 1, key)
    ensures Keys(w, Whole, NoSkip)
  {
    RepairShape(v, w, j, key);
    hide Tree, FlatTo, KeyDue, Repaired;
    forall n: Node, i: nat | n in w.s && KeyDue(w, Whole, NoSkip, n, i) ensures KeyOk(w, n, i) {
      RepairKeyAt(v, w, j, key, n, i);
    }
  }

  // an empty first leaf binds no separator
  lemma SkipEmpty(v: View)
    requires Tree(v, Whole) && Keys(v, Whole, 1) && FlatTo(v.s, v.chain, 1) == []
    ensures Keys(v, Whole, NoSkip)
  {
    hide Nodes, Slots, Links, FlatTo;
    forall n: Node, i: nat | n in v.s && KeyDue(v, Whole, NoSkip, n, i) ensures KeyOk(v, n, i) {
      LinkAt(v, Whole, n, i);
      if v.s[v.s[n].childs[i]].hi != 1 { assert KeyDue(v, Whole, 1, n, i); }
    }
  }

  // ---------- cutting a leaf in two

  lemma CutKeys(v: View, w: View, a: Node, x: Node, k: int)
    requires Tree(v, Whole) && LeafCut(v, w, a, x) && Keys(v, Whole, NoSkip)
    requires HeadSame(v, w, v.s[a].lo) && RestSame(v, w, v.s[a].lo + 1, v.s[a].lo + 2)
    requires v.s[a].lo + 1 < |v.chain| ==> TopKept(v, w, v.s[a].lo + 1, v.s[a].lo + 2)
    requires EndsWith(w.s, w.chain, v.s[a].lo + 1, k)
    ensures Keys(w, Split(a, v.s[a].lo + 1, k, x), NoSkip)
  {
    hide FlatTo, TopKept, HeadSame, RestSame, Nodes, Links, Slots;
    var h := Split(a, v.s[a].lo + 1, k, x);
    var j := v.s[a].lo;
    forall n: Node, i: nat | n in w.s && KeyDue(w, h, NoSkip, n, i) ensures KeyOk(w, n, i) {
      assert Kept(v.s, w.s, n);
      LinkAt(v, Whole, n, i);
      LinkAt(v, Whole, n, i + 1);
      assert Kept(v.s, w.s, v.s[n].childs[i]);
      NodeSpan(v, Whole, v.s[n].childs[i + 1]);
      WindowKeyAt(v, w, Whole, NoSkip, j, j + 1, j + 2, n, i);
    }
  }

  // ---------- a leaf gives all its items to its left sibling

  ghost function Drop(x: nat, j: nat): nat { if x > j + 1 then x - 1 else x }

  ghost function GoneRec(s: Store, l: Node, r: Node, n: Node): Rec
    requires l in s && r in s && n in s
  {
    s[n].(lo := Drop(s[n].lo, s[l].lo), hi := Drop(s[n].hi, s[l].lo),
          items := if n == l then s[l].items + s[r].items else if n == r then [] else s[n].items)
  }

  ghost predicate Gone(v: View, w: View, p: Node, i: nat)
  {
    && Pair(v, p, i) && v.s[p].level == 1 && w.root == v.root && w.s.Keys == v.s.Keys
    && var l, r := v.s[p].childs[i], v.s[p].childs[i + 1];
    && v.s[l].lo + 1 < |v.chain| && w.chain == v.chain[..v.s[l].lo + 1] + v.chain[v.s[l].lo + 2..]
    && forall n {:trigger GoneRec(v.s, l, r, n)} :: n in v.s ==> w.s[n] == GoneRec(v.s, l, r, n)
  }

  lemma PairLeaves(v: View, p: Node, i: nat)
    requires Pair(v, p, i) && v.s[p].level == 1
    ensures var l, r := v.s[p].childs[i], v.s[p].childs[i + 1]; var j := v.s[l].lo;
      v.s[l].hi == j + 1 && v.s[r].lo == j + 1 && v.s[r].hi == j + 2 && j + 1 < |v.chain| && v.chain[j] == l
          && v.chain[j + 1] == r &&
      v.s[l].level == 0 && v.s[r].level == 0
  {
    NodeAt(v, Whole, v.s[p].childs[i]);
    NodeAt(v, Whole, v.s[p].childs[i + 1]);
  }

  lemma GoneNode(v: View, w: View, p: Node, i: nat, n: Node)
    requires Gone(v, w, p, i) && n in v.s
    ensures NodeOk(w, Dead(v.s[p].childs[i + 1]), n)
  {
    PairLeaves(v, p, i);
    var l, r := v.s[p].childs[i], v.s[p].childs[i + 1];
    NodeAt(v, Whole, n);
    NodeSpan(v, Whole, n);
    var q := v.s[n].childs;
    if v.s[n].level > 0 {
      LinkAt(v, Whole, n, 0);
      LinkAt(v, Whole, n, |q| - 1);
      assert w.s[q[0]] == GoneRec(v.s, l, r, q[0]) && w.s[q[|q| - 1]] == GoneRec(v.s, l, r, q[|q| - 1]);
      if v.s[n].lo == v.s[r].lo { GoneFirst(v, p, i, n); }
    }
    hide Nodes, Links, Slots;
    assert w.s[n] == GoneRec(v.s, l, r, n) && w.s[v.root] == GoneRec(v.s, l, r, v.root);
    if n != v.root {
      var m := v.s[n].parent;
      assert w.s[m] == GoneRec(v.s, l, r, m);
    }
  }

  // no branch starts at a leaf that has a left sibling
  lemma {:induction false} GoneFirst(v: View, p: Node, i: nat, n: Node)
    requires Pair(v, p, i) && v.s[p].level == 1 && n in v.s && v.s[n].level > 0
    ensures v.s[n].lo != v.s[v.s[p].childs[i + 1]].lo
    decreases v.s[n].level
  {
    NodeAt(v, Whole, n);
    LinkAt(v, Whole, n, 0);
    PairLeaves(v, p, i);
    var d := v.s[n].childs[0];
    NodeAt(v, Whole, d);
    hide Nodes, Links, Slots;
    if v.s[d].level > 0 { GoneFirst(v, p, i, d); }
  }

  lemma GoneLink(v: View, w: View, p: Node, i: nat, n: Node, j: nat)
    requires Gone(v, w, p, i) && n in v.s && n in w.s && j < |w.s[n].childs|
    ensures ChildOk(w.s, n, j)
  {
    var l, r := v.s[p].childs[i], v.s[p].childs[i + 1];
    assert w.s[n] == GoneRec(v.s, l, r, n);
    LinkAt(v, Whole, n, j);
    var c := v.s[n].childs[j];
    if j + 1 < |v.s[n].childs| { LinkAt(v, Whole, n, j + 1); }
    hide Tree;
    assert w.s[c] == GoneRec(v.s, l, r, c);
    if j + 1 < |v.s[n].childs| {
      var d := v.s[n].childs[j + 1];
      assert w.s[d] == GoneRec(v.s, l, r, d);
    }
  }

  lemma GoneSlots(v: View, w: View, p: Node, i: nat)
    requires Gone(v, w, p, i)
    ensures Slots(w, Dead(v.s[p].childs[i + 1]))
  {
    var l, r := v.s[p].childs[i], v.s[p].childs[i + 1];
    PairLeaves(v, p, i);
    hide Nodes, Links;
    forall j | 0 <= j < |w.chain| ensures SlotOk(w, Dead(r), j) {
      var q := if j <= v.s[l].lo then j else j + 1;
      assert SlotOk(v, Whole, q);
      assert w.s[v.chain[q]] == GoneRec(v.s, l, r, v.chain[q]);
    }
  }

  lemma GoneTree(v: View, w: View, p: Node, i: nat)
    requires Gone(v, w, p, i)
    ensures Tree(w, Dead(v.s[p].childs[i + 1]))
  {
    var l, r := v.s[p].childs[i], v.s[p].childs[i + 1];
    GoneSlots(v, w, p, i);
    PairLeaves(v, p, i);
    NodeSpan(v, Whole, v.root);
    hide Slots;
    forall n | n in w.s ensures NodeOk(w, Dead(r), n) { GoneNode(v, w, p, i, n); }
    forall n: Node, j: nat | n in w.s && !IsDead(Dead(r), n) && 0 <= j < |w.s[n].childs| ensures ChildOk(w.s, n, j) {
      GoneLink(v, w, p, i, n, j);
    }
    assert w.s[v.root] == GoneRec(v.s, l, r, v.root) && w.s[r] == GoneRec(v.s, l, r, r);
  }

  lemma GoneWindow(v: View, w: View, p: Node, i: nat)
    requires Gone(v, w, p, i)
    ensures var j := v.s[v.s[p].childs[i]].lo;
      HeadSame(v, w, j) && RestSame(v, w, j + 2, j + 1) && FlatTo(w.s, w.chain, j + 1) == FlatTo(v.s, v.chain, j + 2)
  {
    var l, r := v.s[p].childs[i], v.s[p].childs[i + 1];
    var j := v.s[l].lo;
    PairLeaves(v, p, i);
    GoneChain(v, w, p, i);
    hide Tree, Gone;
    forall q: nat {:trigger SameAt(v.s, w.s, v.chain, w.chain, j + 2, j + 1, q)} | q < |v.chain| - (j + 2)
      ensures SameAt(v.s, w.s, v.chain, w.chain, j + 2, j + 1, q)
    {
    }
    HeadEnds(v, w, j, j);
    assert FlatTo(v.s, v.chain, j + 1) == FlatTo(v.s, v.chain, j) + v.s[l].items;
  }

  // the chain without the leaf, and the items on it
  lemma GoneChain(v: View, w: View, p: Node, i: nat)
    requires Gone(v, w, p, i)
    ensures var l, r := v.s[p].childs[i], v.s[p].childs[i + 1]; var j := v.s[l].lo;
      && j + 1 < |v.chain| && v.chain[j] == l && v.chain[j + 1] == r && l in w.s
        && w.s[l].items == v.s[l].items + v.s[r].items
      && |w.chain| == |v.chain| - 1 && (forall q :: 0 <= q <= j ==> w.chain[q] == v.chain[q])
      && (forall q :: j + 1 <= q < |w.chain| ==> w.chain[q] == v.chain[q + 1])
      && (forall q {:trigger v.chain[q]} ::
        0 <= q < |v.chain| && q != j && q != j + 1 ==> SameItemsAt(v.s, w.s, v.chain[q]))
  {
    var l, r := v.s[p].childs[i], v.s[p].childs[i + 1];
    PairLeaves(v, p, i);
    hide Nodes, Links;
    assert w.s[l] == GoneRec(v.s, l, r, l);
    forall q {:trigger v.chain[q]} | 0 <= q < |v.chain| && q != v.s[l].lo && q != v.s[l].lo + 1
        ensures SameItemsAt(v.s, w.s, v.chain[q]) {
      assert SlotOk(v, Whole, q);
      assert w.s[v.chain[q]] == GoneRec(v.s, l, r, v.chain[q]);
    }
  }

  lemma GoneContents(v: View, w: View, p: Node, i: nat)
    requires Gone(v, w, p, i)
    ensures Contents(w) == Contents(v)
  {
    GoneWindow(v, w, p, i);
    var j := v.s[v.s[p].childs[i]].lo;
    hide Tree;
    WindowContents(v, w, j + 2, j + 1);
  }

  lemma GoneKeys(v: View, w: View, p: Node, i: nat)
    requires Gone(v, w, p, i) && Keys(v, Whole, NoSkip)
    ensures Keys(w, Dead(v.s[p].childs[i + 1]), NoSkip)
  {
    var l, r := v.s[p].childs[i], v.s[p].childs[i + 1];
    var j := v.s[l].lo;
    GoneWindow(v, w, p, i);
    PairLeaves(v, p, i);
    assert TopKept(v, w, j + 2, j + 1);
    hide FlatTo, Tree, KeyDue, TopKept, HeadSame, RestSame;
    forall n: Node, k: nat | n in w.s && KeyDue(w, Dead(r), NoSkip, n, k) ensures KeyOk(w, n, k) {
      GoneCarried(v, w, p, i, n, k);
      WindowKeyAt(v, w, Whole, NoSkip, j, j + 2, j + 1, n, k);
    }
  }

  lemma GoneCarried(v: View, w: View, p: Node, i: nat, n: Node, k: nat)
    requires Gone(v, w, p, i) && n in v.s && KeyDue(w, Dead(v.s[p].childs[i + 1]), NoSkip, n, k)
    ensures Carried(v, w, Whole, NoSkip, v.s[v.s[p].childs[i]].lo, v.s[v.s[p].childs[i]].lo + 2,
      v.s[v.s[p].childs[i]].lo + 1, n, k)
  {
    var l, r := v.s[p].childs[i], v.s[p].childs[i + 1];
    PairLeaves(v, p, i);
    assert w.s[n] == GoneRec(v.s, l, r, n);
    LinkAt(v, Whole, n, k);
    LinkAt(v, Whole, n, k + 1);
    var c := v.s[n].childs[k];
    assert w.s[c] == GoneRec(v.s, l, r, c);
    NodeSpan(v, Whole, v.s[n].childs[k + 1]);
    hide Nodes, Links, Slots;
    if v.s[c].hi == v.s[l].hi { KeyUnique(v, n, k, p, i); }
  }

  lemma GoneFill(v: View, w: View, p: Node, i: nat, c: Capacity, under: Node?)
    requires Gone(v, w, p, i)
    requires Fill(v, c, Whole, under) && (under == v.s[p].childs[i] || under == v.s[p].childs[i + 1])
    requires c.leaf / 2 <= |v.s[v.s[p].childs[i]].items| + |v.s[v.s[p].childs[i + 1]].items|
    ensures Fill(w, c, Dead(v.s[p].childs[i + 1]), null)
  {
    var l, r := v.s[p].childs[i], v.s[p].childs[i + 1];
    PairLeaves(v, p, i);
    hide Tree;
    forall n | n in w.s && n != r ensures FillOk(w, c, null, n) {
      assert FillOk(v, c, under, n);
      assert w.s[n] == GoneRec(v.s, l, r, n);
    }
  }
}
