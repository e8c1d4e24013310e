// A branch with too many children gives its upper half to a new branch.
module BTreeBranchHalves {
  import opened BTreeNodes
  import opened BTreeStructure
  import opened BTreeContents

  ghost function HalfRec(s: Store, b: Node, x: Node, m: nat, n: Node): Rec
    requires b in s && n in s && m < |s[b].keys| && m < |s[b].childs|
  {
    if n == b then s[n].(keys := s[b].keys[..m], childs := s[b].childs[..m + 1])
    else if s[n].parent == b && s[n].slot > m then s[n].(parent := x, slot := s[n].slot - m - 1)
    else s[n]
  }

  ghost function UpperRec(s: Store, b: Node, m: nat): Rec
    requires b in s && m < |s[b].keys| && m + 1 < |s[b].childs| && s[b].childs[m + 1] in s
  {
    Rec(s[b].level, null, 0, null, null, [], s[b].keys[m + 1..], s[b].childs[m + 1..], s[s[b].childs[m + 1]].lo,
        s[b].hi)
  }

  ghost predicate Halved(s: Store, t: Store, b: Node, x: Node, m: nat)
  {
    && b in s && x !in s && m < |s[b].keys| && |s[b].childs| == |s[b].keys| + 1 && s[b].childs[m + 1] in s
      && s[b].level > 0
    && t.Keys == s.Keys + {x} && t[x] == UpperRec(s, b, m)
    && forall n {:trigger HalfRec(s, b, x, m, n)} :: n in s ==> t[n] == HalfRec(s, b, x, m, n)
  }

  ghost function UpperHole(s: Store, b: Node, x: Node, m: nat): Hole
    requires b in s && m < |s[b].keys| && m + 1 < |s[b].childs| && s[b].childs[m + 1] in s
  {
    Split(b, s[s[b].childs[m + 1]].lo, s[b].keys[m], x)
  }

  lemma HalfParentOk(v: View, w: View, b: Node, x: Node, m: nat, n: Node)
    requires Tree(v, Whole) && Halved(v.s, w.s, b, x, m) && w.root == v.root && w.chain == v.chain
    requires n in v.s && n != v.root
    ensures ParentOk(w.s, n)
  {
    hide Links, Slots;
    NodeAt(v, Whole, n);
    var p := v.s[n].parent;
    assert w.s[n] == HalfRec(v.s, b, x, m, n) && w.s[p] == HalfRec(v.s, b, x, m, p);
  }

  lemma HalfBranchElse(v: View, w: View, b: Node, x: Node, m: nat, n: Node)
    requires Tree(v, Whole) && Halved(v.s, w.s, b, x, m)
    requires n in v.s && v.s[n].level > 0 && n != b
    ensures n in w.s && BranchOk(w.s, UpperHole(v.s, b, x, m), n)
  {
    hide Links, Slots, Nodes;
    NodeAt(v, Whole, n);
    assert w.s[n] == HalfRec(v.s, b, x, m, n);
    var q := v.s[n].childs;
    assert w.s[q[0]] == HalfRec(v.s, b, x, m, q[0]) && w.s[q[|q| - 1]] == HalfRec(v.s, b, x, m, q[|q| - 1]);
  }

  lemma HalfBranchLow(v: View, w: View, b: Node, x: Node, m: nat)
    requires Tree(v, Whole) && Halved(v.s, w.s, b, x, m)
    ensures b in w.s && BranchOk(w.s, UpperHole(v.s, b, x, m), b)
  {
    ChildrenIn(v, Whole, b);
    ChildOrder(v, Whole, b, 0, m);
    LinkAt(v, Whole, b, m);
    NodeAt(v, Whole, b);
    hide Links, Slots, Nodes, Tree;
    var q := v.s[b].childs;
    assert w.s[b] == HalfRec(v.s, b, x, m, b);
    assert w.s[q[0]] == HalfRec(v.s, b, x, m, q[0]) && w.s[q[m]] == HalfRec(v.s, b, x, m, q[m]);
  }

  lemma HalfBranchHigh(v: View, w: View, b: Node, x: Node, m: nat)
    requires Tree(v, Whole) && Halved(v.s, w.s, b, x, m)
    ensures x in w.s && BranchOk(w.s, UpperHole(v.s, b, x, m), x)
  {
    ChildrenIn(v, Whole, b);
    ChildOrder(v, Whole, b, m + 1, |v.s[b].keys|);
    NodeAt(v, Whole, b);
    hide Links, Slots, Nodes, Tree;
    var q := v.s[b].childs;
    var d := q[|q| - 1];
    assert w.s[q[m + 1]] == HalfRec(v.s, b, x, m, q[m + 1]) && w.s[d] == HalfRec(v.s, b, x, m, d);
  }

  lemma HalfNodes(v: View, w: View, b: Node, x: Node, m: nat)
    requires Tree(v, Whole) && Halved(v.s, w.s, b, x, m) && w.root == v.root && w.chain == v.chain
    ensures Nodes(w, UpperHole(v.s, b, x, m))
  {
    var h := UpperHole(v.s, b, x, m);
    hide Links, Slots;
    assert w.s[w.root] == HalfRec(v.s, b, x, m, w.root);
    forall n | n in w.s ensures NodeOk(w, h, n) {
      NodeAt(v, Whole, b);
      if n != x {
        NodeAt(v, Whole, n);
        assert w.s[n] == HalfRec(v.s, b, x, m, n);
        if n != v.root { HalfParentOk(v, w, b, x, m, n); }
      }
      if n == b {
        HalfBranchLow(v, w, b, x, m);
      } else if n == x {
        HalfBranchHigh(v, w, b, x, m);
      } else if w.s[n].level > 0 {
        HalfBranchElse(v, w, b, x, m, n);
      }
    }
  }

  lemma HalfLink(v: View, w: View, b: Node, x: Node, m: nat, n: Node, j: nat)
    requires Tree(v, Whole) && Halved(v.s, w.s, b, x, m) && n in w.s && j < |w.s[n].childs|
    ensures ChildOk(w.s, n, j)
  {
    hide Nodes, Slots;
    var o: Node := if n == x then b else n;
    assert w.s[o] == HalfRec(v.s, b, x, m, o);
    var i := if n == x then m + 1 + j else j;
    LinkAt(v, Whole, o, i);
    var c := v.s[o].childs[i];
    assert w.s[c] == HalfRec(v.s, b, x, m, c);
    hide Links;
    if i + 1 < |v.s[o].childs| {
      var d := v.s[o].childs[i + 1];
      assert w.s[d] == HalfRec(v.s, b, x, m, d);
    }
  }

  lemma HalfLinks(v: View, w: View, b: Node, x: Node, m: nat)
    requires Tree(v, Whole) && Halved(v.s, w.s, b, x, m) && w.root == v.root && w.chain == v.chain
    ensures Links(w.s, UpperHole(v.s, b, x, m))
  {
    hide Nodes, Slots, Halved, ChildOk;
    forall n: Node, j: nat | n in w.s && 0 <= j < |w.s[n].childs| ensures ChildOk(w.s, n, j) {
      HalfLink(v, w, b, x, m, n, j);
    }
  }

  lemma HalfTree(v: View, w: View, b: Node, x: Node, m: nat)
    requires Tree(v, Whole) && Halved(v.s, w.s, b, x, m) && w.root == v.root && w.chain == v.chain
    ensures Tree(w, UpperHole(v.s, b, x, m))
  {
    var h := UpperHole(v.s, b, x, m);
    HalfNodes(v, w, b, x, m);
    HalfLinks(v, w, b, x, m);
    hide Nodes, Links;
    assert w.s[w.root] == HalfRec(v.s, b, x, m, w.root) && w.s[b] == HalfRec(v.s, b, x, m, b);
    NodeAt(v, Whole, v.root);
    forall j | 0 <= j < |w.chain| ensures SlotOk(w, h, j) {
      assert SlotOk(v, Whole, j);
      assert w.s[v.chain[j]] == HalfRec(v.s, b, x, m, v.chain[j]);
    }
    ChildrenIn(v, Whole, b);
    ChildOrder(v, Whole, b, m + 1, |v.s[b].childs| - 1);
    NodeAt(v, Whole, b);
  }

  lemma HalfItems(v: View, w: View, b: Node, x: Node, m: nat)
    requires Tree(v, Whole) && Halved(v.s, w.s, b, x, m) && w.root == v.root && w.chain == v.chain
    ensures forall k :: FlatTo(w.s, w.chain, k) == FlatTo(v.s, v.chain, k)
  {
    hide Nodes, Links, FlatTo;
    forall j | 0 <= j < |v.chain| ensures SameItemsAt(v.s, w.s, v.chain[j]) {
      assert SlotOk(v, Whole, j);
      assert w.s[v.chain[j]] == HalfRec(v.s, b, x, m, v.chain[j]);
    }
    FlatSame(v.s, w.s, v.chain);
  }

  lemma HalfKeys(v: View, w: View, b: Node, x: Node, m: nat)
    requires Tree(v, Whole) && Halved(v.s, w.s, b, x, m) && w.root == v.root && w.chain == v.chain
    requires Keys(v, Whole, NoSkip)
    ensures Keys(w, UpperHole(v.s, b, x, m), NoSkip)
  {
    var h := UpperHole(v.s, b, x, m);
    HalfItems(v, w, b, x, m);
    hide Nodes, Links, Slots, FlatTo;
    forall n: Node, j: nat | n in w.s && KeyDue(w, h, NoSkip, n, j) ensures KeyOk(w, n, j) {
      var o: Node := if n == x then b else n;
      assert w.s[o] == HalfRec(v.s, b, x, m, o);
      var i := if n == x then m + 1 + j else j;
      assert KeyDue(v, Whole, NoSkip, o, i) && KeyOk(v, o, i);
      LinkAt(v, Whole, o, i);
      var c := v.s[o].childs[i];
      assert w.s[c] == HalfRec(v.s, b, x, m, c);
    }
    assert KeyDue(v, Whole, NoSkip, b, m) && KeyOk(v, b, m);
    LinkAt(v, Whole, b, m);
  }

  // every half keeps its minimum when the branch had one child too many
  lemma HalfFill(v: View, w: View, b: Node, x: Node, m: nat, c: Capacity)
    requires Halved(v.s, w.s, b, x, m) && w.root == v.root && x != v.root
    requires Fill(v, c, Whole, null) && c.branch >= 2
    requires |v.s[b].keys| == c.branch + 1 && m == (c.branch + 1) / 2
    ensures Fill(w, c, UpperHole(v.s, b, x, m), null)
  {
    var h := UpperHole(v.s, b, x, m);
    forall n | n in w.s && !IsDead(h, n) ensures FillOk(w, c, null, n) {
      if n != x {
        assert FillOk(v, c, null, n);
        assert w.s[n] == HalfRec(v.s, b, x, m, n);
      }
    }
  }
}
