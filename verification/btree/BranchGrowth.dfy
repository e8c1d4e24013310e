// A branch takes in one more child.
module BTreeBranchGrowth {
  import opened BTreeArrays
  import opened BTreeNodes
  import opened BTreeStructure
  import opened BTreeContents

  // the record of n after x has been hung into b behind c == childs[i], with separator k
  ghost function AttachRec(s: Store, b: Node, i: nat, k: int, x: Node, n: Node): Rec
    requires b in s && x in s && n in s && i <= |s[b].keys| && i < |s[b].childs|
  {
    if n == b then s[n].(keys := Inserted(s[b].keys, i, k), childs := Inserted(s[b].childs, i + 1, x))
    else if n == x then s[n].(parent := b, slot := i + 1)
    else if s[n].parent == b && s[n].slot > i then s[n].(slot := s[n].slot + 1)
    else if n == s[b].childs[i] then s[n].(hi := s[x].lo)
    else s[n]
  }

  ghost predicate Attached(s: Store, t: Store, b: Node, i: nat, k: int, x: Node)
  {
    && b in s && x in s && i <= |s[b].keys| && i < |s[b].childs| && t.Keys == s.Keys
    && forall n {:trigger AttachRec(s, b, i, k, x, n)} :: n in s ==> t[n] == AttachRec(s, b, i, k, x, n)
  }

  ghost predicate AttachSite(v: View, h: Hole, b: Node, i: nat, x: Node)
  {
    && h.Split? && h.extra == x && h.cut in v.s && v.s[h.cut].parent == b && v.s[h.cut].slot == i
    && h.cut != v.root && Tree(v, h)
    && b in v.s && i <= |v.s[b].keys| && i < |v.s[b].childs| && h.cut == v.s[b].childs[i] && b != x
    && |v.s[b].childs| == |v.s[b].keys| + 1 && v.s[b].level == v.s[x].level + 1 && v.s[h.cut].level == v.s[x].level
    && x in v.s && x != v.root && v.s[x].parent == null && h.mid < v.s[h.cut].hi && v.s[x].lo == h.mid
      && v.s[x].hi == v.s[h.cut].hi
  }

  lemma AttachSiteOk(v: View, h: Hole)
    requires Tree(v, h) && h.Split? && h.cut != v.root
    ensures v.s[h.cut].parent != null && AttachSite(v, h, v.s[h.cut].parent, v.s[h.cut].slot, h.extra)
  {
    assert NodeOk(v, h, h.cut);
    assert NodeOk(v, h, v.s[h.cut].parent);
  }

  // what a Relinked step does to one node
  lemma RelinkedAt(s: Store, t: Store, b: Node, cs: seq<Node>, i: nat, j: nat, n: Node)
    requires i <= j <= |cs| && Relinked(s, t, b, cs, i, j) && n in s
    ensures n in t
    ensures n !in cs[i..j] ==> t[n] == s[n]
    ensures forall k :: i <= k < j && cs[k] == n ==> t[n] == s[n].(parent := b, slot := k)
  {
  }

  // which children the attaching step relinks
  lemma AttachMoved(v: View, h: Hole, b: Node, i: nat, x: Node, n: Node)
    requires AttachSite(v, h, b, i, x) && n in v.s
    ensures var cs := Inserted(v.s[b].childs, i + 1, x);
      && (n == x ==> cs[i + 1] == n)
      && (n != x && v.s[n].parent == b && v.s[n].slot > i ==>
        v.s[n].slot + 1 < |cs| && cs[v.s[n].slot + 1] == n && n != h.cut)
      && (n != x && !(v.s[n].parent == b && v.s[n].slot > i) ==> n !in cs[i + 1..])
      && (n == b ==> n !in cs[i + 1..])
  {
    hide Inserted;
    var cs := Inserted(v.s[b].childs, i + 1, x);
    InsertedAt(v.s[b].childs, i + 1, x, i + 1);
    assert cs[i + 1..] == cs[i + 1..|cs|];
    if n in cs[i + 1..] {
      var m := SliceIndex(cs, i + 1, |cs|, n);
      InsertedAt(v.s[b].childs, i + 1, x, m);
      if m > i + 1 { assert ChildOk(v.s, b, m - 1); }
    }
    if n != x && v.s[n].parent == b && v.s[n].slot > i {
      assert NodeOk(v, h, n);
      InsertedAt(v.s[b].childs, i + 1, x, v.s[n].slot + 1);
    }
  }

  lemma AttachSame(v: View, h: Hole, t: Store, b: Node, i: nat, x: Node, k: int, s1: Store)
    requires AttachSite(v, h, b, i, x) && s1.Keys == v.s.Keys + {h.cut, b}
    requires Relinked(s1, t, b, Inserted(v.s[b].childs, i + 1, x), i + 1, |v.s[b].childs| + 1)
    ensures b in v.s && x in v.s && i <= |v.s[b].keys| && i < |v.s[b].childs| && t.Keys == v.s.Keys
  {
    hide Inserted, Tree;
  }

  lemma AttachRelinkedAt(v: View, h: Hole, t: Store, b: Node, i: nat, x: Node, k: int, s1: Store, n: Node)
    requires AttachSite(v, h, b, i, x) && n in v.s
    requires s1 == v.s[h.cut := v.s[h.cut].(hi := v.s[x].lo)]
                      [b := v.s[b].(keys := Inserted(v.s[b].keys, i, k), childs := Inserted(v.s[b].childs, i + 1, x))]
    requires Relinked(s1, t, b, Inserted(v.s[b].childs, i + 1, x), i + 1, |v.s[b].childs| + 1)
    ensures n in t && t[n] == AttachRec(v.s, b, i, k, x, n)
  {
    hide Inserted, Relinked, Tree;
    var cs := Inserted(v.s[b].childs, i + 1, x);
    AttachMoved(v, h, b, i, x, n);
    RelinkedAt(s1, t, b, cs, i + 1, |cs|, n);
  }

  lemma FoldAttached(s: Store, t: Store, b: Node, i: nat, k: int, x: Node)
    requires b in s && x in s && i <= |s[b].keys| && i < |s[b].childs| && t.Keys == s.Keys
    requires forall n :: n in s ==> t[n] == AttachRec(s, b, i, k, x, n)
    ensures Attached(s, t, b, i, k, x)
  {
    hide AttachRec;
  }

  lemma AttachRelinked(v: View, h: Hole, t: Store, b: Node, i: nat, x: Node, k: int, s1: Store)
    requires AttachSite(v, h, b, i, x)
    requires s1 == v.s[h.cut := v.s[h.cut].(hi := v.s[x].lo)]
                      [b := v.s[b].(keys := Inserted(v.s[b].keys, i, k), childs := Inserted(v.s[b].childs, i + 1, x))]
    requires Relinked(s1, t, b, Inserted(v.s[b].childs, i + 1, x), i + 1, |v.s[b].childs| + 1)
    ensures Attached(v.s, t, b, i, k, x)
  {
    hide *;
    AttachSame(v, h, t, b, i, x, k, s1);
    forall n | n in v.s ensures t[n] == AttachRec(v.s, b, i, k, x, n) {
      AttachRelinkedAt(v, h, t, b, i, x, k, s1, n);
    }
    FoldAttached(v.s, t, b, i, k, x);
  }

  lemma AttachParentOk(v: View, h: Hole, t: Store, b: Node, i: nat, x: Node, k: int, n: Node)
    requires AttachSite(v, h, b, i, x) && Attached(v.s, t, b, i, k, x)
    requires n in v.s && n != v.root
    ensures ParentOk(t, n)
  {
    hide Inserted;
    assert NodeOk(v, h, n);
    var p := if n == x then b else v.s[n].parent;
    assert t[n] == AttachRec(v.s, b, i, k, x, n) && t[p] == AttachRec(v.s, b, i, k, x, p);
    if p == b {
      InsertedAt(v.s[b].childs, i + 1, x, t[n].slot);
    }
  }

  lemma AttachBranchOk(v: View, h: Hole, t: Store, b: Node, i: nat, x: Node, k: int, n: Node)
    requires AttachSite(v, h, b, i, x) && Attached(v.s, t, b, i, k, x)
    requires n in v.s && v.s[n].level > 0
    ensures BranchOk(t, Whole, n)
  {
    hide Inserted;
    assert NodeOk(v, h, n);
    assert t[n] == AttachRec(v.s, b, i, k, x, n);
    var c0, c1 := v.s[n].childs[0], v.s[n].childs[|v.s[n].keys|];
    assert t[c0] == AttachRec(v.s, b, i, k, x, c0) && t[c1] == AttachRec(v.s, b, i, k, x, c1)
        && t[x] == AttachRec(v.s, b, i, k, x, x);
    assert ChildOk(v.s, n, |v.s[n].keys|);
    if n == b {
      InsertedAt(v.s[b].childs, i + 1, x, 0);
      InsertedAt(v.s[b].childs, i + 1, x, |v.s[b].childs|);
    }
  }

  lemma AttachNodes(v: View, h: Hole, w: View, b: Node, i: nat, x: Node, k: int)
    requires AttachSite(v, h, b, i, x) && Attached(v.s, w.s, b, i, k, x) && w.root == v.root && w.chain == v.chain
    ensures Nodes(w, Whole)
  {
    hide Inserted;
    forall n | n in w.s ensures NodeOk(w, Whole, n) {
      assert NodeOk(v, h, n);
      assert w.s[n] == AttachRec(v.s, b, i, k, x, n) && w.s[w.root] == AttachRec(v.s, b, i, k, x, w.root);
      if n != v.root { AttachParentOk(v, h, w.s, b, i, x, k, n); }
      if v.s[n].level > 0 { AttachBranchOk(v, h, w.s, b, i, x, k, n); }
    }
  }

  lemma AttachLinks(v: View, h: Hole, t: Store, b: Node, i: nat, x: Node, k: int)
    requires AttachSite(v, h, b, i, x) && Attached(v.s, t, b, i, k, x)
    ensures Links(t, Whole)
  {
    hide Inserted, Nodes, Slots;
    forall n, j | n in t && 0 <= j < |t[n].childs| ensures ChildOk(t, n, j) {
      assert t[n] == AttachRec(v.s, b, i, k, x, n);
      if n == b {
        AttachLinksAtB(v, h, t, b, i, x, k, j);
      } else {
        AttachLinksElse(v, h, t, b, i, x, k, n, j);
      }
    }
  }

  lemma AttachLinksElse(v: View, h: Hole, t: Store, b: Node, i: nat, x: Node, k: int, n: Node, j: nat)
    requires AttachSite(v, h, b, i, x) && Attached(v.s, t, b, i, k, x)
    requires n in v.s && n != b && j < |v.s[n].childs|
    ensures t[n].childs == v.s[n].childs && ChildOk(t, n, j)
  {
    hide Inserted, Nodes, Slots;
    assert t[n] == AttachRec(v.s, b, i, k, x, n);
    LinkAt(v, h, n, j);
    var c := v.s[n].childs[j];
    assert t[c] == AttachRec(v.s, b, i, k, x, c);
    if j + 1 < |v.s[n].childs| {
      LinkAt(v, h, n, j + 1);
      var d := v.s[n].childs[j + 1];
      assert t[d] == AttachRec(v.s, b, i, k, x, d);
    }
  }

  lemma AttachLinksAtB(v: View, h: Hole, t: Store, b: Node, i: nat, x: Node, k: int, j: nat)
    requires AttachSite(v, h, b, i, x) && Attached(v.s, t, b, i, k, x)
    requires j < |t[b].childs|
    ensures ChildOk(t, b, j)
  {
    hide Inserted, Nodes, Slots;
    assert t[b] == AttachRec(v.s, b, i, k, x, b) && t[x] == AttachRec(v.s, b, i, k, x, x);
    var q := v.s[b].childs;
    InsertedAt(q, i + 1, x, j);
    var old0 := if j <= i then j else if j == i + 1 then i else j - 1;
    LinkAt(v, h, b, old0);
    assert t[q[old0]] == AttachRec(v.s, b, i, k, x, q[old0]);
    if j + 1 < |t[b].childs| {
      InsertedAt(q, i + 1, x, j + 1);
      if old0 + 1 < |q| {
        LinkAt(v, h, b, old0 + 1);
        assert t[q[old0 + 1]] == AttachRec(v.s, b, i, k, x, q[old0 + 1]);
      }
    }
  }

  lemma AttachTree(v: View, h: Hole, w: View, b: Node, i: nat, x: Node, k: int)
    requires AttachSite(v, h, b, i, x) && Attached(v.s, w.s, b, i, k, x) && w.root == v.root && w.chain == v.chain
    ensures Tree(w, Whole)
  {
    hide Inserted, Nodes, Links;
    AttachNodes(v, h, w, b, i, x, k);
    AttachLinks(v, h, w.s, b, i, x, k);
    assert w.s[w.root] == AttachRec(v.s, b, i, k, x, w.root);
    forall j | 0 <= j < |w.chain| ensures SlotOk(w, Whole, j) {
      assert SlotOk(v, h, j);
      assert w.s[v.chain[j]] == AttachRec(v.s, b, i, k, x, v.chain[j]);
    }
  }

  lemma AttachKeys(v: View, h: Hole, w: View, b: Node, i: nat, x: Node)
    requires AttachSite(v, h, b, i, x) && Attached(v.s, w.s, b, i, h.key, x) && w.root == v.root && w.chain == v.chain
    requires Keys(v, h, NoSkip)
    ensures Keys(w, Whole, NoSkip)
  {
    hide Inserted, Nodes, Links;
    var k := h.key;
    AttachItems(v, h, w, b, i, x, k);
    forall n: Node, j: nat | n in w.s && KeyDue(w, Whole, NoSkip, n, j) ensures KeyOk(w, n, j) {
      assert w.s[n] == AttachRec(v.s, b, i, k, x, n);
      if n == b {
        AttachKeysAtB(v, h, w, b, i, x, j);
      } else {
        assert KeyDue(v, h, NoSkip, n, j);
        assert KeyOk(v, n, j);
        LinkAt(v, h, n, j);
        var c := v.s[n].childs[j];
        assert w.s[c] == AttachRec(v.s, b, i, k, x, c);
      }
    }
  }

  lemma AttachItems(v: View, h: Hole, w: View, b: Node, i: nat, x: Node, k: int)
    requires AttachSite(v, h, b, i, x) && Attached(v.s, w.s, b, i, k, x) && w.root == v.root && w.chain == v.chain
    ensures forall m :: FlatTo(w.s, w.chain, m) == FlatTo(v.s, v.chain, m)
  {
    hide Inserted, Nodes, Links, FlatTo;
    forall j | 0 <= j < |v.chain| ensures SameItemsAt(v.s, w.s, v.chain[j]) {
      assert SlotOk(v, h, j);
      assert w.s[v.chain[j]] == AttachRec(v.s, b, i, k, x, v.chain[j]);
    }
    FlatSame(v.s, w.s, v.chain);
  }

  lemma AttachKeysAtB(v: View, h: Hole, w: View, b: Node, i: nat, x: Node, j: nat)
    requires AttachSite(v, h, b, i, x) && Attached(v.s, w.s, b, i, h.key, x) && w.root == v.root && w.chain == v.chain
    requires Keys(v, h, NoSkip) && j < |w.s[b].keys|
    requires forall m :: FlatTo(w.s, w.chain, m) == FlatTo(v.s, v.chain, m)
    ensures j < |w.s[b].childs| && KeyOk(w, b, j)
  {
    hide Inserted, Nodes, Links;
    var k := h.key;
    var q := v.s[b].childs;
    assert w.s[b] == AttachRec(v.s, b, i, k, x, b) && w.s[x] == AttachRec(v.s, b, i, k, x, x);
    InsertedAt(q, i + 1, x, j);
    InsertedAt(v.s[b].keys, i, k, j);
    var o := if j <= i then j else j - 1;
    LinkAt(v, h, b, o);
    assert w.s[q[o]] == AttachRec(v.s, b, i, k, x, q[o]);
    if j != i {
      assert KeyDue(v, h, NoSkip, b, o);
      assert KeyOk(v, b, o);
    }
  }

  lemma AttachFill(v: View, h: Hole, w: View, b: Node, i: nat, x: Node, k: int, c: Capacity)
    requires AttachSite(v, h, b, i, x) && Attached(v.s, w.s, b, i, k, x) && w.root == v.root
    requires Fill(v, c, h, null)
    ensures Fill(w, c, Whole, null)
  {
    forall n | n in w.s ensures FillOk(w, c, null, n) {
      assert FillOk(v, c, null, n);
      assert w.s[n] == AttachRec(v.s, b, i, k, x, n);
    }
  }
}
