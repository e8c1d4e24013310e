// A leaf is cut in two: the spans behind it move up by one.
module BTreeLeafSteps {
  import opened BTreeNodes
  import opened BTreeStructure

  ghost function Shift(x: nat, j: nat): nat { if x > j then x + 1 else x }

  ghost predicate Kept(s: Store, t: Store, n: Node)
    requires n in s
  {
    n in t && t[n].level == s[n].level && t[n].parent == s[n].parent && t[n].slot == s[n].slot &&
    t[n].keys == s[n].keys && t[n].childs == s[n].childs && (s[n].level > 0 ==> t[n].items == s[n].items)
  }

  // the leaf a is cut in two: x takes the place behind it
  ghost predicate LeafCut(v: View, w: View, a: Node, x: Node)
  {
    && a in v.s && v.s[a].level == 0 && x !in v.s && w.root == v.root && w.s.Keys == v.s.Keys + {x}
    && v.s[a].lo < |v.chain|
    && w.chain == v.chain[..v.s[a].lo + 1] + [x] + v.chain[v.s[a].lo + 1..]
    && w.s[x].level == 0 && w.s[x].parent == null && w.s[x].keys == [] && w.s[x].childs == []
    && w.s[x].lo == v.s[a].lo + 1 && w.s[x].hi == v.s[a].lo + 2
    && forall n {:trigger Kept(v.s, w.s, n)} :: n in v.s ==>
        Kept(v.s, w.s, n) && w.s[n].lo == Shift(v.s[n].lo, v.s[a].lo) && w.s[n].hi == Shift(v.s[n].hi, v.s[a].lo)
  }

  lemma LeafCutNodes(v: View, w: View, a: Node, x: Node, k: int)
    requires Tree(v, Whole) && LeafCut(v, w, a, x)
    ensures Nodes(w, Split(a, v.s[a].lo + 1, k, x))
  {
    var h := Split(a, v.s[a].lo + 1, k, x);
    forall n | n in w.s ensures NodeOk(w, h, n) {
      assert Kept(v.s, w.s, v.root);
      assert NodeOk(v, Whole, a);
      if n != x {
        assert NodeOk(v, Whole, n) && Kept(v.s, w.s, n);
        var p := v.s[n].parent;
        if n != v.root {
          assert Kept(v.s, w.s, p);
        }
        if v.s[n].level > 0 {
          assert Kept(v.s, w.s, v.s[n].childs[0]);
          assert Kept(v.s, w.s, v.s[n].childs[|v.s[n].keys|]);
        }
      }
    }
  }

  lemma LeafCutLinks(v: View, w: View, a: Node, x: Node, k: int)
    requires Tree(v, Whole) && LeafCut(v, w, a, x)
    ensures Links(w.s, Split(a, v.s[a].lo + 1, k, x))
  {
    var h := Split(a, v.s[a].lo + 1, k, x);
    forall b, i | b in w.s && 0 <= i < |w.s[b].childs| ensures ChildOk(w.s, b, i) {
      assert Kept(v.s, w.s, b);
      assert ChildOk(v.s, b, i);
      assert Kept(v.s, w.s, v.s[b].childs[i]);
      if i + 1 < |w.s[b].childs| {
        assert Kept(v.s, w.s, v.s[b].childs[i + 1]);
      }
    }
  }

  lemma LeafCutTree(v: View, w: View, a: Node, x: Node, k: int)
    requires Tree(v, Whole) && LeafCut(v, w, a, x)
    ensures Tree(w, Split(a, v.s[a].lo + 1, k, x))
  {
    var h := Split(a, v.s[a].lo + 1, k, x);
    LeafCutNodes(v, w, a, x, k);
    LeafCutLinks(v, w, a, x, k);
    assert NodeOk(v, Whole, a) && Kept(v.s, w.s, a) && Kept(v.s, w.s, v.root);
    forall j | 0 <= j < |w.chain| ensures SlotOk(w, h, j) {
      if j != v.s[a].lo + 1 {
        var i := if j <= v.s[a].lo then j else j - 1;
        assert SlotOk(v, Whole, i) && Kept(v.s, w.s, v.chain[i]);
      }
    }
  }
}
