// Two neighbouring branches become one; the emptied branch is dropped from its parent.
module BTreeBranchMerge {
  import opened BTreeArrays
  import opened BTreeNodes
  import opened BTreeStructure
  import opened BTreeContents
  import opened BTreeBranchBorrow

  // everything below the right branch moves to the left one; the parent's separator is lost (it becomes `lost`)
  ghost function MergeRec(s: Store, p: Node, i: nat, lost: int, n: Node): Rec
    requires p in s && i < |s[p].keys| && i + 1 < |s[p].childs| && s[p].childs[i] in s && s[p].childs[i + 1] in s
      && n in s
  {
    var l, r := s[p].childs[i], s[p].childs[i + 1];
    if n == l then s[n].(keys := BothKeys(s, p, i), childs := BothChilds(s, p, i), hi := s[r].hi)
    else if n == r then s[n].(keys := [], childs := s[r].childs[..if |s[r].childs| > 0 then 1 else 0], lo := s[r].hi)
    else if n == p then s[n].(keys := s[n].keys[i := lost])
    else if s[n].parent == r then s[n].(parent := l, slot := Rank(s, p, i, n))
    else s[n]
  }

  ghost predicate Merged(s: Store, t: Store, p: Node, i: nat, lost: int)
  {
    && p in s && i < |s[p].keys| && i + 1 < |s[p].childs| && s[p].childs[i] in s && s[p].childs[i + 1] in s
    && t.Keys == s.Keys
    && forall n {:trigger MergeRec(s, p, i, lost, n)} :: n in s ==> t[n] == MergeRec(s, p, i, lost, n)
  }

  ghost predicate Merging(v: View, w: View, p: Node, i: nat, lost: int)
  {
    Pair(v, p, i) && v.s[p].level > 1 && Merged(v.s, w.s, p, i, lost) && w.root == v.root && w.chain == v.chain
  }

  lemma MergeParentOk(v: View, w: View, p: Node, i: nat, lost: int, n: Node)
    requires Merging(v, w, p, i, lost) && n in v.s && n != v.root
    ensures ParentOk(w.s, n) && w.s[n].parent != v.s[p].childs[i + 1]
  {
    hide Links, Slots, Nodes, BothKeys;
    var l, r := v.s[p].childs[i], v.s[p].childs[i + 1];
    NodeAt(v, Whole, n);
    var q := v.s[n].parent;
    assert w.s[n] == MergeRec(v.s, p, i, lost, n) && w.s[q] == MergeRec(v.s, p, i, lost, q);
    assert w.s[l] == MergeRec(v.s, p, i, lost, l);
    if q == l || q == r {
      RowRank(v, p, i, n);
    }
  }

  lemma MergedAt(v: View, w: View, p: Node, i: nat, lost: int, n: Node)
    requires Merging(v, w, p, i, lost) && n in v.s
    ensures p in v.s && i < |v.s[p].keys| && i + 1 < |v.s[p].childs| && v.s[p].childs[i] in v.s
      && v.s[p].childs[i + 1] in v.s
    ensures n in w.s && w.s[n] == MergeRec(v.s, p, i, lost, n)
  {
    hide Tree, MergeRec;
  }

  lemma MergeBranchLeft(v: View, w: View, p: Node, i: nat, lost: int)
    requires Merging(v, w, p, i, lost) && v.s[v.s[p].childs[i]].level > 0
    ensures BranchOk(w.s, Dead(v.s[p].childs[i + 1]), v.s[p].childs[i])
  {
    var l, r := v.s[p].childs[i], v.s[p].childs[i + 1];
    NodeAt(v, Whole, l);
    NodeAt(v, Whole, r);
    var c, d := v.s[l].childs[0], v.s[r].childs[|v.s[r].childs| - 1];
    LinkAt(v, Whole, l, 0);
    LinkAt(v, Whole, r, |v.s[r].childs| - 1);
    NodeSpan(v, Whole, l);
    NodeSpan(v, Whole, r);
    hide Tree, Merged;
    MergedAt(v, w, p, i, lost, l);
    MergedAt(v, w, p, i, lost, c);
    MergedAt(v, w, p, i, lost, d);
  }

  lemma MergeBranchElse(v: View, w: View, p: Node, i: nat, lost: int, n: Node)
    requires Merging(v, w, p, i, lost) && n in v.s && v.s[n].level > 0
    requires n != v.s[p].childs[i] && n != v.s[p].childs[i + 1]
    ensures BranchOk(w.s, Dead(v.s[p].childs[i + 1]), n)
  {
    var l, r := v.s[p].childs[i], v.s[p].childs[i + 1];
    NodeAt(v, Whole, n);
    NodeAt(v, Whole, r);
    var q := v.s[n].childs;
    LinkAt(v, Whole, n, 0);
    LinkAt(v, Whole, n, |q| - 1);
    NodeSpan(v, Whole, r);
    hide Tree, Merged;
    MergedAt(v, w, p, i, lost, n);
    MergedAt(v, w, p, i, lost, q[0]);
    MergedAt(v, w, p, i, lost, q[|q| - 1]);
  }

  lemma MergeBranchOk(v: View, w: View, p: Node, i: nat, lost: int, n: Node)
    requires Merging(v, w, p, i, lost) && n in v.s && v.s[n].level > 0 && n != v.s[p].childs[i + 1]
    ensures BranchOk(w.s, Dead(v.s[p].childs[i + 1]), n)
  {
    hide *;
    MergedAt(v, w, p, i, lost, n);
    if n == v.s[p].childs[i] {
      MergeBranchLeft(v, w, p, i, lost);
    } else {
      MergeBranchElse(v, w, p, i, lost, n);
    }
  }

  lemma MergeNodes(v: View, w: View, p: Node, i: nat, lost: int)
    requires Merging(v, w, p, i, lost)
    ensures Nodes(w, Dead(v.s[p].childs[i + 1]))
  {
    hide Links, Slots, BothKeys, BothChilds;
    var r := v.s[p].childs[i + 1];
    assert w.s[w.root] == MergeRec(v.s, p, i, lost, w.root);
    NodeAt(v, Whole, r);
    forall n | n in w.s ensures NodeOk(w, Dead(r), n) {
      NodeAt(v, Whole, n);
      assert w.s[n] == MergeRec(v.s, p, i, lost, n);
      if n != v.root { MergeParentOk(v, w, p, i, lost, n); }
      if v.s[n].level > 0 && n != r { MergeBranchOk(v, w, p, i, lost, n); }
    }
  }

  lemma MergeLinksElse(v: View, w: View, p: Node, i: nat, lost: int, n: Node, j: nat)
    requires Merging(v, w, p, i, lost) && n in v.s && n != v.s[p].childs[i] && n != v.s[p].childs[i + 1]
    requires j < |v.s[n].childs|
    ensures w.s[n].childs == v.s[n].childs && ChildOk(w.s, n, j)
  {
    LinkAt(v, Whole, n, j);
    var c := v.s[n].childs[j];
    if j + 1 < |v.s[n].childs| { LinkAt(v, Whole, n, j + 1); }
    hide Tree, BothKeys, BothChilds;
    assert w.s[n] == MergeRec(v.s, p, i, lost, n) && w.s[c] == MergeRec(v.s, p, i, lost, c);
    if j + 1 < |v.s[n].childs| {
      var d := v.s[n].childs[j + 1];
      assert w.s[d] == MergeRec(v.s, p, i, lost, d);
    }
  }

  lemma MergeLinks(v: View, w: View, p: Node, i: nat, lost: int)
    requires Merging(v, w, p, i, lost)
    ensures Links(w.s, Dead(v.s[p].childs[i + 1]))
  {
    hide Tree, BothKeys, BothChilds;
    var l, r := v.s[p].childs[i], v.s[p].childs[i + 1];
    var cs := BothChilds(v.s, p, i);
    forall n: Node, j: nat | n in w.s && n != r && 0 <= j < |w.s[n].childs| ensures ChildOk(w.s, n, j) {
      assert w.s[n] == MergeRec(v.s, p, i, lost, n);
      if n == l {
        RowAt(v, p, i, j);
        assert w.s[cs[j]] == MergeRec(v.s, p, i, lost, cs[j]);
        if j + 1 < |cs| {
          RowAt(v, p, i, j + 1);
          assert w.s[cs[j + 1]] == MergeRec(v.s, p, i, lost, cs[j + 1]);
        }
      } else {
        MergeLinksElse(v, w, p, i, lost, n, j);
      }
    }
  }

  lemma MergeTree(v: View, w: View, p: Node, i: nat, lost: int)
    requires Merging(v, w, p, i, lost)
    ensures Tree(w, Dead(v.s[p].childs[i + 1]))
  {
    MergeNodes(v, w, p, i, lost);
    MergeLinks(v, w, p, i, lost);
    hide Nodes, Links, BothKeys, BothChilds;
    var r := v.s[p].childs[i + 1];
    assert w.s[w.root] == MergeRec(v.s, p, i, lost, w.root) && w.s[r] == MergeRec(v.s, p, i, lost, r);
    forall j | 0 <= j < |w.chain| ensures SlotOk(w, Dead(r), j) {
      assert SlotOk(v, Whole, j);
      assert w.s[v.chain[j]] == MergeRec(v.s, p, i, lost, v.chain[j]);
    }
  }

  lemma MergeItems(v: View, w: View, p: Node, i: nat, lost: int)
    requires Merging(v, w, p, i, lost)
    ensures forall k :: FlatTo(w.s, w.chain, k) == FlatTo(v.s, v.chain, k)
  {
    hide Nodes, Links, FlatTo, BothKeys, BothChilds;
    forall j | 0 <= j < |v.chain| ensures SameItemsAt(v.s, w.s, v.chain[j]) {
      assert SlotOk(v, Whole, j);
      assert w.s[v.chain[j]] == MergeRec(v.s, p, i, lost, v.chain[j]);
    }
    FlatSame(v.s, w.s, v.chain);
  }

  lemma MergeKeyAt(v: View, w: View, p: Node, i: nat, lost: int, n: Node, j: nat)
    requires Merging(v, w, p, i, lost) && Keys(v, Whole, NoSkip)
    requires forall k :: FlatTo(w.s, w.chain, k) == FlatTo(v.s, v.chain, k)
    requires KeyDue(w, Dead(v.s[p].childs[i + 1]), NoSkip, n, j)
    ensures KeyOk(w, n, j)
  {
    var l, r := v.s[p].childs[i], v.s[p].childs[i + 1];
    assert w.s[n] == MergeRec(v.s, p, i, lost, n);
    if n == l {
      var cs := BothChilds(v.s, p, i);
      RowKey(v, p, i, j);
      RowAt(v, p, i, j);
      hide Tree, FlatTo, BothChilds, BothKeys;
      assert w.s[cs[j]] == MergeRec(v.s, p, i, lost, cs[j]);
    } else {
      LinkAt(v, Whole, n, j);
      var c := v.s[n].childs[j];
      LinkAt(v, Whole, n, j + 1);
      hide Tree, FlatTo, BothChilds, BothKeys;
      assert w.s[c] == MergeRec(v.s, p, i, lost, c);
      assert KeyDue(v, Whole, NoSkip, n, j) && KeyOk(v, n, j);
    }
  }

  lemma MergeKeys(v: View, w: View, p: Node, i: nat, lost: int)
    requires Merging(v, w, p, i, lost) && Keys(v, Whole, NoSkip)
    ensures Keys(w, Dead(v.s[p].childs[i + 1]), NoSkip)
  {
    MergeItems(v, w, p, i, lost);
    hide Tree, BothKeys, BothChilds, FlatTo, KeyDue;
    forall n: Node, j: nat | n in w.s && KeyDue(w, Dead(v.s[p].childs[i + 1]), NoSkip, n, j) ensures KeyOk(w, n, j) {
      MergeKeyAt(v, w, p, i, lost, n, j);
    }
  }

  lemma MergeFill(v: View, w: View, p: Node, i: nat, lost: int, c: Capacity, under: Node?)
    requires Merging(v, w, p, i, lost)
    requires Fill(v, c, Whole, under) && (under == v.s[p].childs[i] || under == v.s[p].childs[i + 1])
    ensures Fill(w, c, Dead(v.s[p].childs[i + 1]), null)
  {
    hide Tree, BothChilds;
    var l, r := v.s[p].childs[i], v.s[p].childs[i + 1];
    assert FillOk(v, c, under, l) && FillOk(v, c, under, r);
    forall n | n in w.s && n != r ensures FillOk(w, c, null, n) {
      assert FillOk(v, c, under, n);
      assert w.s[n] == MergeRec(v.s, p, i, lost, n);
    }
  }

  // ---------- dropping the dead child

  ghost function DetachRec(s: Store, p: Node, k: nat, n: Node): Rec
    requires p in s && n in s && 0 < k <= |s[p].keys| && k < |s[p].childs|
  {
    if n == p then s[n].(keys := s[n].keys[..k - 1] + s[n].keys[k..], childs := s[n].childs[..k] + s[n].childs[k + 1..])
    else if s[n].parent == p && s[n].slot > k then s[n].(slot := s[n].slot - 1)
    else s[n]
  }

  ghost predicate Detached(s: Store, t: Store, p: Node, k: nat, x: Node)
  {
    && p in s && x in s && x != p && 0 < k <= |s[p].keys| && k < |s[p].childs| && t.Keys == s.Keys - {x}
    && forall n {:trigger DetachRec(s, p, k, n)} :: n in t ==> t[n] == DetachRec(s, p, k, n)
  }

  ghost predicate Detaching(v: View, w: View, p: Node, k: nat, x: Node)
  {
    && Tree(v, Dead(x)) && x in v.s && v.s[x].parent == p && v.s[x].slot == k && x != v.root
    && Detached(v.s, w.s, p, k, x) && w.root == v.root && w.chain == v.chain
    && v.s[p].childs[k] == x && |v.s[p].childs| == |v.s[p].keys| + 1 && v.s[p].level == v.s[x].level + 1
    && v.s[x].lo == v.s[x].hi && ChildOk(v.s, p, k) && ChildOk(v.s, p, k - 1)
  }

  lemma DetachingOk(v: View, w: View, p: Node, k: nat, x: Node)
    requires Tree(v, Dead(x)) && x in v.s && v.s[x].parent == p && v.s[x].slot == k
    requires Detached(v.s, w.s, p, k, x) && w.root == v.root && w.chain == v.chain
    ensures Detaching(v, w, p, k, x)
  {
    NodeAt(v, Dead(x), x);
    NodeAt(v, Dead(x), p);
    LinkAt(v, Dead(x), p, k);
    LinkAt(v, Dead(x), p, k - 1);
  }

  lemma DetachParentOk(v: View, w: View, p: Node, k: nat, x: Node, n: Node)
    requires Detaching(v, w, p, k, x) && n in w.s && n != v.root
    ensures ParentOk(w.s, n)
  {
    NodeAt(v, Dead(x), n);
    hide Tree;
    var q := v.s[n].parent;
    assert w.s[n] == DetachRec(v.s, p, k, n) && w.s[q] == DetachRec(v.s, p, k, q);
  }

  lemma DetachBranchElse(v: View, w: View, p: Node, k: nat, x: Node, n: Node)
    requires Detaching(v, w, p, k, x) && n in w.s && n != p && v.s[n].level > 0
    ensures BranchOk(w.s, Whole, n)
  {
    NodeAt(v, Dead(x), n);
    var q := v.s[n].childs;
    LinkAt(v, Dead(x), n, 0);
    LinkAt(v, Dead(x), n, |q| - 1);
    hide Tree;
    assert w.s[n] == DetachRec(v.s, p, k, n) && w.s[q[0]] == DetachRec(v.s, p, k, q[0]);
    assert w.s[q[|q| - 1]] == DetachRec(v.s, p, k, q[|q| - 1]);
  }

  lemma DetachBranchP(v: View, w: View, p: Node, k: nat, x: Node)
    requires Detaching(v, w, p, k, x)
    ensures BranchOk(w.s, Whole, p)
  {
    NodeAt(v, Dead(x), p);
    var q := v.s[p].childs;
    LinkAt(v, Dead(x), p, 0);
    LinkAt(v, Dead(x), p, |q| - 1);
    hide Tree;
    var d := if k == |q| - 1 then q[k - 1] else q[|q| - 1];
    assert w.s[p] == DetachRec(v.s, p, k, p) && w.s[q[0]] == DetachRec(v.s, p, k, q[0])
        && w.s[d] == DetachRec(v.s, p, k, d);
  }

  lemma DetachNodes(v: View, w: View, p: Node, k: nat, x: Node)
    requires Detaching(v, w, p, k, x)
    ensures Nodes(w, Whole)
  {
    hide Links, Slots;
    assert w.s[w.root] == DetachRec(v.s, p, k, w.root);
    DetachBranchP(v, w, p, k, x);
    forall n | n in w.s ensures NodeOk(w, Whole, n) {
      NodeAt(v, Dead(x), n);
      assert w.s[n] == DetachRec(v.s, p, k, n);
      if n != v.root { DetachParentOk(v, w, p, k, x, n); }
      if v.s[n].level > 0 && n != p { DetachBranchElse(v, w, p, k, x, n); }
    }
  }

  lemma DetachLinkAt(v: View, w: View, p: Node, k: nat, x: Node, n: Node, j: nat)
    requires Detaching(v, w, p, k, x) && n in w.s && j < |w.s[n].childs|
    ensures ChildOk(w.s, n, j)
  {
    var i := if n == p && j >= k then j + 1 else j;
    assert w.s[n] == DetachRec(v.s, p, k, n);
    LinkAt(v, Dead(x), n, i);
    var c := v.s[n].childs[i];
    if i + 1 < |v.s[n].childs| { LinkAt(v, Dead(x), n, i + 1); }
    if i + 2 < |v.s[n].childs| { LinkAt(v, Dead(x), n, i + 2); }
    hide Tree;
    assert w.s[c] == DetachRec(v.s, p, k, c);
    if j + 1 < |w.s[n].childs| {
      var d := w.s[n].childs[j + 1];
      assert w.s[d] == DetachRec(v.s, p, k, d);
    }
  }

  lemma DetachTree(v: View, w: View, p: Node, k: nat, x: Node)
    requires Detaching(v, w, p, k, x)
    ensures Tree(w, Whole)
  {
    hide BothKeys, BothChilds;
    DetachNodes(v, w, p, k, x);
    forall n: Node, j: nat | n in w.s && 0 <= j < |w.s[n].childs| ensures ChildOk(w.s, n, j) {
      DetachLinkAt(v, w, p, k, x, n, j);
    }
    assert Links(w.s, Whole);
    hide Nodes, Links;
    assert w.s[w.root] == DetachRec(v.s, p, k, w.root);
    forall j | 0 <= j < |w.chain| ensures SlotOk(w, Whole, j) {
      assert SlotOk(v, Dead(x), j);
      assert w.s[v.chain[j]] == DetachRec(v.s, p, k, v.chain[j]);
    }
  }

  lemma DetachItems(v: View, w: View, p: Node, k: nat, x: Node)
    requires Detaching(v, w, p, k, x)
    ensures forall m :: FlatTo(w.s, w.chain, m) == FlatTo(v.s, v.chain, m)
  {
    hide Nodes, Links, FlatTo;
    forall j | 0 <= j < |v.chain| ensures SameItemsAt(v.s, w.s, v.chain[j]) {
      assert SlotOk(v, Dead(x), j);
      assert w.s[v.chain[j]] == DetachRec(v.s, p, k, v.chain[j]);
    }
    FlatSame(v.s, w.s, v.chain);
  }

  lemma DetachKeyAt(v: View, w: View, p: Node, k: nat, x: Node, n: Node, j: nat)
    requires Detaching(v, w, p, k, x) && Keys(v, Dead(x), NoSkip)
    requires forall m :: FlatTo(w.s, w.chain, m) == FlatTo(v.s, v.chain, m)
    requires KeyDue(w, Whole, NoSkip, n, j)
    ensures KeyOk(w, n, j)
  {
    hide FlatTo;
    assert w.s[n] == DetachRec(v.s, p, k, n);
    var i := if n == p && j >= k - 1 then j + 1 else j;
    LinkAt(v, Dead(x), n, i);
    LinkAt(v, Dead(x), n, i + 1);
    LinkAt(v, Dead(x), n, j);
    var c := w.s[n].childs[j];
    hide Tree;
    assert c in w.s && w.s[c] == DetachRec(v.s, p, k, c);
    assert KeyDue(v, Dead(x), NoSkip, n, i) && KeyOk(v, n, i);
  }

  lemma DetachKeys(v: View, w: View, p: Node, k: nat, x: Node)
    requires Detaching(v, w, p, k, x) && Keys(v, Dead(x), NoSkip)
    ensures Keys(w, Whole, NoSkip)
  {
    DetachItems(v, w, p, k, x);
    hide Tree, FlatTo, KeyDue;
    forall n: Node, j: nat | n in w.s && KeyDue(w, Whole, NoSkip, n, j) ensures KeyOk(w, n, j) {
      DetachKeyAt(v, w, p, k, x, n, j);
    }
  }

  lemma DetachFill(v: View, w: View, p: Node, k: nat, x: Node, c: Capacity)
    requires Detaching(v, w, p, k, x) && Fill(v, c, Dead(x), null)
    ensures Fill(w, c, Whole, p)
  {
    hide Tree;
    forall n | n in w.s ensures FillOk(w, c, p, n) {
      assert FillOk(v, c, null, n);
      assert w.s[n] == DetachRec(v.s, p, k, n);
    }
  }
}
