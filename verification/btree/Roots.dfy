// The root grows over a split hole, or gives way to its only child.
module BTreeRoots {
  import opened BTreeNodes
  import opened BTreeStructure
  import opened BTreeContents

  ghost function GrowRec(s: Store, r: Node, x: Node, top: Node, n: Node): Rec
    requires n in s && x in s
  {
    if n == r then s[n].(parent := top, slot := 0, hi := s[x].lo)
    else if n == x then s[n].(parent := top, slot := 1)
    else s[n]
  }

  ghost predicate Grown(v: View, w: View, h: Hole, top: Node)
  {
    && Tree(v, h) && h.Split? && h.cut == v.root && h.extra in v.s && v.root in v.s && top !in v.s
    && w.root == top && w.chain == v.chain && w.s.Keys == v.s.Keys + {top}
    && w.s[top] == Rec(v.s[v.root].level + 1, null, 0, null, null, [], [h.key], [v.root, h.extra], 0, |v.chain|)
    && forall n {:trigger GrowRec(v.s, v.root, h.extra, top, n)} ::
      n in v.s ==> w.s[n] == GrowRec(v.s, v.root, h.extra, top, n)
  }

  lemma GrowTop(v: View, w: View, h: Hole, top: Node)
    requires Grown(v, w, h, top)
    ensures NodeOk(w, Whole, top) && ChildOk(w.s, top, 0) && ChildOk(w.s, top, 1)
  {
    var x := h.extra;
    NodeAt(v, h, v.root);
    NodeAt(v, h, x);
    hide Nodes, Links, Slots;
    assert w.s[v.root] == GrowRec(v.s, v.root, x, top, v.root) && w.s[x] == GrowRec(v.s, v.root, x, top, x);
  }

  lemma GrowTree(v: View, w: View, h: Hole, top: Node)
    requires Grown(v, w, h, top)
    ensures Tree(w, Whole)
  {
    hide Nodes, Links, Slots;
    GrowNodes(v, w, h, top);
    GrowLinks(v, w, h, top);
    GrowSlots(v, w, h, top);
  }

  lemma GrowNodes(v: View, w: View, h: Hole, top: Node)
    requires Grown(v, w, h, top)
    ensures Nodes(w, Whole)
  {
    hide Tree;
    GrowTop(v, w, h, top);
    forall n | n in w.s ensures NodeOk(w, Whole, n) {
      if n != top { GrowNode(v, w, h, top, n); }
    }
  }

  lemma GrowLinks(v: View, w: View, h: Hole, top: Node)
    requires Grown(v, w, h, top)
    ensures Links(w.s, Whole)
  {
    hide Tree;
    GrowTop(v, w, h, top);
    forall n: Node, j: nat | n in w.s && 0 <= j < |w.s[n].childs| ensures ChildOk(w.s, n, j) {
      if n != top { GrowLink(v, w, h, top, n, j); }
    }
  }

  lemma GrowSlots(v: View, w: View, h: Hole, top: Node)
    requires Grown(v, w, h, top)
    ensures Slots(w, Whole)
  {
    hide Nodes, Links;
    forall j | 0 <= j < |w.chain| ensures SlotOk(w, Whole, j) {
      assert SlotOk(v, h, j);
      assert w.s[v.chain[j]] == GrowRec(v.s, v.root, h.extra, top, v.chain[j]);
    }
  }

  lemma GrowNode(v: View, w: View, h: Hole, top: Node, n: Node)
    requires Grown(v, w, h, top) && n in v.s
    ensures NodeOk(w, Whole, n)
  {
    var x := h.extra;
    NodeAt(v, h, n);
    NodeAt(v, h, v.root);
    var q := v.s[n].childs;
    if v.s[n].level > 0 {
      LinkAt(v, h, n, 0);
      LinkAt(v, h, n, |q| - 1);
      assert w.s[q[0]] == GrowRec(v.s, v.root, x, top, q[0])
          && w.s[q[|q| - 1]] == GrowRec(v.s, v.root, x, top, q[|q| - 1]);
    }
    hide Nodes, Links, Slots;
    assert w.s[n] == GrowRec(v.s, v.root, x, top, n);
    if n != v.root && n != x {
      var p := v.s[n].parent;
      assert w.s[p] == GrowRec(v.s, v.root, x, top, p);
    }
  }

  lemma GrowLink(v: View, w: View, h: Hole, top: Node, n: Node, j: nat)
    requires Grown(v, w, h, top) && n in v.s && j < |w.s[n].childs|
    ensures ChildOk(w.s, n, j)
  {
    var x := h.extra;
    assert w.s[n] == GrowRec(v.s, v.root, x, top, n);
    LinkAt(v, h, n, j);
    var c := v.s[n].childs[j];
    assert w.s[c] == GrowRec(v.s, v.root, x, top, c);
    if j + 1 < |v.s[n].childs| {
      LinkAt(v, h, n, j + 1);
      var d := v.s[n].childs[j + 1];
      assert w.s[d] == GrowRec(v.s, v.root, x, top, d);
    }
  }

  lemma GrowItems(v: View, w: View, h: Hole, top: Node)
    requires Grown(v, w, h, top)
    ensures forall k :: FlatTo(w.s, w.chain, k) == FlatTo(v.s, v.chain, k)
  {
    hide Nodes, Links, FlatTo;
    forall j | 0 <= j < |v.chain| ensures SameItemsAt(v.s, w.s, v.chain[j]) {
      assert SlotOk(v, h, j);
      assert w.s[v.chain[j]] == GrowRec(v.s, v.root, h.extra, top, v.chain[j]);
    }
    FlatSame(v.s, w.s, v.chain);
  }

  lemma GrowKeys(v: View, w: View, h: Hole, top: Node)
    requires Grown(v, w, h, top) && Keys(v, h, NoSkip)
    ensures Keys(w, Whole, NoSkip)
  {
    GrowItems(v, w, h, top);
    var x := h.extra;
    assert w.s[v.root] == GrowRec(v.s, v.root, x, top, v.root);
    hide Nodes, Links, Slots, FlatTo;
    forall n: Node, j: nat | n in w.s && KeyDue(w, Whole, NoSkip, n, j) ensures KeyOk(w, n, j) {
      if n != top {
        assert w.s[n] == GrowRec(v.s, v.root, x, top, n);
        LinkAt(v, h, n, j);
        var c := v.s[n].childs[j];
        assert w.s[c] == GrowRec(v.s, v.root, x, top, c);
        assert KeyDue(v, h, NoSkip, n, j) && KeyOk(v, n, j);
      }
    }
  }

  lemma GrowFill(v: View, w: View, h: Hole, top: Node, c: Capacity)
    requires Grown(v, w, h, top) && Fill(v, c, h, null)
    requires v.s[v.root].level == 0 ==> c.leaf / 2 <= |v.s[v.root].items|
    requires v.s[v.root].level > 0 ==> c.branch / 2 <= |v.s[v.root].keys|
    ensures Fill(w, c, Whole, null)
  {
    hide Tree;
    forall n | n in w.s ensures FillOk(w, c, null, n) {
      if n != top {
        assert FillOk(v, c, null, n);
        assert w.s[n] == GrowRec(v.s, v.root, h.extra, top, n);
      }
    }
  }

  // ---------- the root collapses

  ghost function DropRec(s: Store, c: Node, n: Node): Rec
    requires n in s
  {
    if n == c then s[n].(parent := null, slot := 0) else s[n]
  }

  ghost predicate Dropped(v: View, w: View, c: Node)
  {
    && Tree(v, Whole) && v.root in v.s && v.s[v.root].keys == [] && v.s[v.root].childs == [c] && v.s[v.root].level > 0
    && w.root == c && w.chain == v.chain && w.s.Keys == v.s.Keys - {v.root}
    && forall n {:trigger DropRec(v.s, c, n)} :: n in w.s ==> w.s[n] == DropRec(v.s, c, n)
  }

  lemma DropNode(v: View, w: View, c: Node, n: Node)
    requires Dropped(v, w, c) && n in w.s && c in w.s
    ensures NodeOk(w, Whole, n)
  {
    NodeAt(v, Whole, n);
    NodeAt(v, Whole, v.root);
    LinkAt(v, Whole, v.root, 0);
    var p := v.s[n].parent;
    NodeAt(v, Whole, p);
    var q := v.s[n].childs;
    if v.s[n].level > 0 {
      LinkAt(v, Whole, n, 0);
      LinkAt(v, Whole, n, |q| - 1);
    }
    hide Nodes, Links, Slots;
    assert w.s[n] == DropRec(v.s, c, n) && w.s[c] == DropRec(v.s, c, c);
    if n != c {
      assert p in w.s && w.s[p] == DropRec(v.s, c, p);
    }
    if v.s[n].level > 0 {
      assert w.s[q[0]] == DropRec(v.s, c, q[0]) && w.s[q[|q| - 1]] == DropRec(v.s, c, q[|q| - 1]);
    }
  }

  lemma DropLink(v: View, w: View, c: Node, n: Node, j: nat)
    requires Dropped(v, w, c) && n in w.s && j < |w.s[n].childs|
    ensures ChildOk(w.s, n, j)
  {
    assert w.s[n] == DropRec(v.s, c, n);
    LinkAt(v, Whole, n, j);
    LinkAt(v, Whole, v.root, 0);
    var d := v.s[n].childs[j];
    assert w.s[d] == DropRec(v.s, c, d);
    if j + 1 < |v.s[n].childs| {
      LinkAt(v, Whole, n, j + 1);
      var e := v.s[n].childs[j + 1];
      assert w.s[e] == DropRec(v.s, c, e);
    }
  }

  lemma DropTree(v: View, w: View, c: Node)
    requires Dropped(v, w, c)
    ensures Tree(w, Whole)
  {
    LinkAt(v, Whole, v.root, 0);
    NodeAt(v, Whole, v.root);
    assert w.s[c] == DropRec(v.s, c, c);
    forall n | n in w.s ensures NodeOk(w, Whole, n) { DropNode(v, w, c, n); }
    forall n: Node, j: nat | n in w.s && 0 <= j < |w.s[n].childs|
        ensures ChildOk(w.s, n, j) { DropLink(v, w, c, n, j); }
    hide Nodes, Links;
    forall j | 0 <= j < |w.chain| ensures SlotOk(w, Whole, j) {
      assert SlotOk(v, Whole, j);
      assert w.s[v.chain[j]] == DropRec(v.s, c, v.chain[j]);
    }
  }

  lemma DropItems(v: View, w: View, c: Node)
    requires Dropped(v, w, c)
    ensures forall k :: FlatTo(w.s, w.chain, k) == FlatTo(v.s, v.chain, k)
  {
    hide Nodes, Links, FlatTo;
    forall j | 0 <= j < |v.chain| ensures SameItemsAt(v.s, w.s, v.chain[j]) {
      assert SlotOk(v, Whole, j);
      assert w.s[v.chain[j]] == DropRec(v.s, c, v.chain[j]);
    }
    FlatSame(v.s, w.s, v.chain);
  }

  lemma DropKeys(v: View, w: View, c: Node)
    requires Dropped(v, w, c) && Keys(v, Whole, NoSkip)
    ensures Keys(w, Whole, NoSkip)
  {
    DropItems(v, w, c);
    hide Nodes, Links, Slots, FlatTo;
    forall n: Node, j: nat | n in w.s && KeyDue(w, Whole, NoSkip, n, j) ensures KeyOk(w, n, j) {
      assert w.s[n] == DropRec(v.s, c, n);
      LinkAt(v, Whole, n, j);
      LinkAt(v, Whole, v.root, 0);
      var d := v.s[n].childs[j];
      assert w.s[d] == DropRec(v.s, c, d);
      assert KeyDue(v, Whole, NoSkip, n, j) && KeyOk(v, n, j);
    }
  }

  lemma DropFill(v: View, w: View, c: Node, cap: Capacity)
    requires Dropped(v, w, c) && Fill(v, cap, Whole, v.root) && cap.leaf >= 2 && cap.branch >= 2
    ensures Fill(w, cap, Whole, null)
  {
    hide Tree;
    forall n | n in w.s ensures FillOk(w, cap, null, n) {
      assert FillOk(v, cap, v.root, n);
      assert w.s[n] == DropRec(v.s, c, n);
    }
  }
}
