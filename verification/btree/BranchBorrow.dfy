// Two neighbouring branches share their children anew, through the separator of their parent.
module BTreeBranchBorrow {
  import opened BTreeNodes
  import opened BTreeStructure
  import opened BTreeContents

  ghost predicate Pair(v: View, p: Node, i: nat)
  {
    && Tree(v, Whole) && p in v.s && i < |v.s[p].keys| && |v.s[p].childs| == |v.s[p].keys| + 1
    && var l, r := v.s[p].childs[i], v.s[p].childs[i + 1];
    && l in v.s && r in v.s && l != r && l != p && r != p && v.s[l].parent == p && v.s[r].parent == p
    && v.s[l].slot == i && v.s[r].slot == i + 1 && l != v.root && r != v.root
    && v.s[l].level == v.s[r].level && v.s[l].level + 1 == v.s[p].level && v.s[l].hi == v.s[r].lo
    && (v.s[l].level > 0 ==> |v.s[l].childs| == |v.s[l].keys| + 1 && |v.s[r].childs| == |v.s[r].keys| + 1)
  }

  lemma PairOk(v: View, p: Node, i: nat)
    requires Tree(v, Whole) && p in v.s && i < |v.s[p].keys|
    ensures Pair(v, p, i)
  {
    NodeAt(v, Whole, p);
    LinkAt(v, Whole, p, i);
    LinkAt(v, Whole, p, i + 1);
    NodeAt(v, Whole, v.s[p].childs[i]);
    NodeAt(v, Whole, v.s[p].childs[i + 1]);
  }

  ghost function BothKeys(s: Store, p: Node, i: nat): seq<int>
    requires p in s && i < |s[p].keys| && i + 1 < |s[p].childs| && s[p].childs[i] in s && s[p].childs[i + 1] in s
  {
    s[s[p].childs[i]].keys + [s[p].keys[i]] + s[s[p].childs[i + 1]].keys
  }

  ghost function BothChilds(s: Store, p: Node, i: nat): seq<Node>
    requires p in s && i + 1 < |s[p].childs| && s[p].childs[i] in s && s[p].childs[i + 1] in s
  {
    s[s[p].childs[i]].childs + s[s[p].childs[i + 1]].childs
  }

  // the index a child of either branch has among all children of both
  ghost function Rank(s: Store, p: Node, i: nat, n: Node): nat
    requires p in s && i + 1 < |s[p].childs| && s[p].childs[i] in s && n in s
  {
    if s[n].parent == s[p].childs[i] then s[n].slot else |s[s[p].childs[i]].childs| + s[n].slot
  }

  ghost function BorrowRec(s: Store, p: Node, i: nat, m: nat, n: Node): Rec
    requires p in s && i < |s[p].keys| && i + 1 < |s[p].childs| && s[p].childs[i] in s && s[p].childs[i + 1] in s
      && n in s
    requires m < |BothKeys(s, p, i)| && m + 1 < |BothChilds(s, p, i)| && BothChilds(s, p, i)[m + 1] in s
  {
    var l, r, ks, cs := s[p].childs[i], s[p].childs[i + 1], BothKeys(s, p, i), BothChilds(s, p, i);
    if n == l then s[n].(keys := ks[..m], childs := cs[..m + 1], hi := s[cs[m + 1]].lo)
    else if n == r then s[n].(keys := ks[m + 1..], childs := cs[m + 1..], lo := s[cs[m + 1]].lo)
    else if n == p then s[n].(keys := s[n].keys[i := ks[m]])
    else if s[n].parent == l || s[n].parent == r then
      if Rank(s, p, i, n) <= m then s[n].(parent := l, slot := Rank(s, p, i, n))
      else s[n].(parent := r, slot := Rank(s, p, i, n) - m - 1)
    else s[n]
  }

  ghost predicate Borrowed(s: Store, t: Store, p: Node, i: nat, m: nat)
  {
    && p in s && i < |s[p].keys| && i + 1 < |s[p].childs| && s[p].childs[i] in s && s[p].childs[i + 1] in s
    && m < |BothKeys(s, p, i)| && m + 1 < |BothChilds(s, p, i)| && BothChilds(s, p, i)[m + 1] in s
    && t.Keys == s.Keys
    && forall n {:trigger BorrowRec(s, p, i, m, n)} :: n in s ==> t[n] == BorrowRec(s, p, i, m, n)
  }

  // the children of both branches, seen as one row
  lemma RowAt(v: View, p: Node, i: nat, k: nat)
    requires Pair(v, p, i) && k < |BothChilds(v.s, p, i)| && v.s[p].level > 1
    ensures var cs := BothChilds(v.s, p, i); var l, r := v.s[p].childs[i], v.s[p].childs[i + 1];
      && cs[k] in v.s && (v.s[cs[k]].parent == l || v.s[cs[k]].parent == r) && Rank(v.s, p, i, cs[k]) == k
      && v.s[cs[k]].level + 2 == v.s[p].level && v.s[cs[k]].lo < v.s[cs[k]].hi && cs[k] != l && cs[k] != r && cs[k] != p
      && (k + 1 < |cs| ==> cs[k + 1] in v.s && v.s[cs[k]].hi == v.s[cs[k + 1]].lo)
  {
    hide Nodes, Slots, Links;
    var l, r := v.s[p].childs[i], v.s[p].childs[i + 1];
    var lc := |v.s[l].childs|;
    NodeAt(v, Whole, l);
    NodeAt(v, Whole, r);
    if k < lc {
      LinkAt(v, Whole, l, k);
      NodeSpan(v, Whole, v.s[l].childs[k]);
    } else {
      LinkAt(v, Whole, r, k - lc);
      NodeSpan(v, Whole, v.s[r].childs[k - lc]);
    }
  }

  lemma RowOrder(v: View, p: Node, i: nat, a: nat, b: nat)
    requires Pair(v, p, i) && a <= b < |BothChilds(v.s, p, i)| && v.s[p].level > 1
    ensures var cs := BothChilds(v.s, p, i); cs[a] in v.s && cs[b] in v.s && v.s[cs[a]].lo < v.s[cs[b]].hi
    decreases b - a
  {
    hide Tree, BothChilds;
    RowAt(v, p, i, a);
    if a < b {
      RowAt(v, p, i, a + 1);
      RowOrder(v, p, i, a + 1, b);
    }
  }

  // a child of either branch stands in the row at its rank
  lemma RowRank(v: View, p: Node, i: nat, n: Node)
    requires Pair(v, p, i) && n in v.s && v.s[p].level > 1
    requires v.s[n].parent == v.s[p].childs[i] || v.s[n].parent == v.s[p].childs[i + 1]
    ensures n != v.root && Rank(v.s, p, i, n) < |BothChilds(v.s, p, i)|
      && BothChilds(v.s, p, i)[Rank(v.s, p, i, n)] == n
  {
    hide Links, Slots;
    NodeAt(v, Whole, n);
  }

  lemma BorrowParentOk(v: View, t: Store, p: Node, i: nat, m: nat, n: Node)
    requires Pair(v, p, i) && v.s[p].level > 1 && Borrowed(v.s, t, p, i, m)
    requires n in v.s && n != v.root
    ensures ParentOk(t, n)
  {
    hide Links, Slots, Nodes, BothKeys, BothChilds, Borrowed;
    var l, r := v.s[p].childs[i], v.s[p].childs[i + 1];
    NodeAt(v, Whole, n);
    var q := v.s[n].parent;
    BorrowedAt(v.s, t, p, i, m, n);
    BorrowedAt(v.s, t, p, i, m, q);
    BorrowedAt(v.s, t, p, i, m, l);
    BorrowedAt(v.s, t, p, i, m, r);
    if q == l || q == r {
      RowRank(v, p, i, n);
    }
  }

  lemma BorrowedAt(s: Store, t: Store, p: Node, i: nat, m: nat, n: Node)
    requires Borrowed(s, t, p, i, m) && n in s
    ensures n in t && t[n] == BorrowRec(s, p, i, m, n)
    ensures m < |BothKeys(s, p, i)| && m + 1 < |BothChilds(s, p, i)|
  {
  }

  // what borrowing leaves as it was
  lemma BorrowedKeeps(v: View, t: Store, p: Node, i: nat, m: nat, n: Node)
    requires Pair(v, p, i) && Borrowed(v.s, t, p, i, m) && n in v.s
    ensures n in t && t[n].items == v.s[n].items && t[n].level == v.s[n].level
    ensures n != v.s[p].childs[i + 1] ==> t[n].lo == v.s[n].lo
    ensures n != v.s[p].childs[i] ==> t[n].hi == v.s[n].hi
    ensures n != v.s[p].childs[i] && n != v.s[p].childs[i + 1] ==>
      t[n].childs == v.s[n].childs && |t[n].keys| == |v.s[n].keys|
  {
    hide Tree, BothKeys, BothChilds, Rank;
    BorrowedAt(v.s, t, p, i, m, n);
  }

  lemma BorrowBranchElse(v: View, t: Store, p: Node, i: nat, m: nat, n: Node)
    requires Pair(v, p, i) && v.s[p].level > 1 && Borrowed(v.s, t, p, i, m)
    requires n in v.s && v.s[n].level > 0 && n != v.s[p].childs[i] && n != v.s[p].childs[i + 1]
    ensures BranchOk(t, Whole, n)
  {
    var l, r := v.s[p].childs[i], v.s[p].childs[i + 1];
    NodeAt(v, Whole, n);
    var q := v.s[n].childs;
    LinkAt(v, Whole, n, 0);
    LinkAt(v, Whole, n, |q| - 1);
    assert q[0] != r && q[|q| - 1] != l;
    hide Tree, Borrowed;
    BorrowedKeeps(v, t, p, i, m, n);
    BorrowedKeeps(v, t, p, i, m, q[0]);
    BorrowedKeeps(v, t, p, i, m, q[|q| - 1]);
  }

  lemma BorrowBranchLeft(v: View, t: Store, p: Node, i: nat, m: nat)
    requires Pair(v, p, i) && v.s[p].level > 1 && Borrowed(v.s, t, p, i, m)
    ensures BranchOk(t, Whole, v.s[p].childs[i])
  {
    var l, cs := v.s[p].childs[i], BothChilds(v.s, p, i);
    NodeAt(v, Whole, l);
    RowOrder(v, p, i, 0, m);
    RowAt(v, p, i, 0);
    RowAt(v, p, i, m);
    hide Tree, Borrowed;
    BorrowedAt(v.s, t, p, i, m, l);
    BorrowedKeeps(v, t, p, i, m, cs[0]);
    BorrowedKeeps(v, t, p, i, m, cs[m]);
  }

  lemma BorrowBranchRight(v: View, t: Store, p: Node, i: nat, m: nat)
    requires Pair(v, p, i) && v.s[p].level > 1 && Borrowed(v.s, t, p, i, m)
    ensures BranchOk(t, Whole, v.s[p].childs[i + 1])
  {
    var r, cs := v.s[p].childs[i + 1], BothChilds(v.s, p, i);
    NodeAt(v, Whole, r);
    RowOrder(v, p, i, m + 1, |cs| - 1);
    RowAt(v, p, i, m + 1);
    RowAt(v, p, i, |cs| - 1);
    hide Tree, Borrowed;
    BorrowedAt(v.s, t, p, i, m, r);
    BorrowedKeeps(v, t, p, i, m, cs[m + 1]);
    BorrowedKeeps(v, t, p, i, m, cs[|cs| - 1]);
  }

  lemma BorrowBranchPair(v: View, t: Store, p: Node, i: nat, m: nat)
    requires Pair(v, p, i) && v.s[p].level > 1 && Borrowed(v.s, t, p, i, m)
    ensures BranchOk(t, Whole, v.s[p].childs[i]) && BranchOk(t, Whole, v.s[p].childs[i + 1])
  {
    BorrowBranchLeft(v, t, p, i, m);
    BorrowBranchRight(v, t, p, i, m);
  }

  lemma BorrowNode(v: View, w: View, p: Node, i: nat, m: nat, n: Node)
    requires Pair(v, p, i) && v.s[p].level > 1 && Borrowed(v.s, w.s, p, i, m) && w.root == v.root && w.chain == v.chain
    requires BranchOk(w.s, Whole, v.s[p].childs[i]) && BranchOk(w.s, Whole, v.s[p].childs[i + 1]) && n in v.s
    ensures NodeOk(w, Whole, n)
  {
    hide Links, Slots, BothKeys, BothChilds, BranchOk, ParentOk, Borrowed;
    var l, r := v.s[p].childs[i], v.s[p].childs[i + 1];
    NodeAt(v, Whole, n);
    BorrowedSpan(v, w, p, i, m, n);
    BorrowedKeeps(v, w.s, p, i, m, n);
    BorrowedKeeps(v, w.s, p, i, m, v.root);
    if n != v.root { BorrowParentOk(v, w.s, p, i, m, n); }
    if v.s[n].level > 0 && n != l && n != r { BorrowBranchElse(v, w.s, p, i, m, n); }
  }

  lemma BorrowedSpan(v: View, w: View, p: Node, i: nat, m: nat, n: Node)
    requires Pair(v, p, i) && v.s[p].level > 1 && Borrowed(v.s, w.s, p, i, m) && n in v.s
    ensures n in w.s && w.s[n].hi <= |v.chain| && w.s.Keys == v.s.Keys
    ensures v.s[n].level == 0 ==> w.s[n].keys == v.s[n].keys
  {
    hide Links, Slots, BothKeys, BothChilds;
    BorrowedAt(v.s, w.s, p, i, m, n);
    var d := BothChilds(v.s, p, i)[m + 1];
    RowAt(v, p, i, m + 1);
    NodeAt(v, Whole, d);
    NodeAt(v, Whole, n);
  }

  lemma BorrowNodes(v: View, w: View, p: Node, i: nat, m: nat)
    requires Pair(v, p, i) && v.s[p].level > 1 && Borrowed(v.s, w.s, p, i, m) && w.root == v.root && w.chain == v.chain
    ensures Nodes(w, Whole)
  {
    hide Links, Slots, BothKeys, BothChilds, BranchOk, ParentOk;
    BorrowBranchPair(v, w.s, p, i, m);
    forall n | n in w.s ensures NodeOk(w, Whole, n) {
      BorrowNode(v, w, p, i, m, n);
    }
  }

  lemma BorrowLinks(v: View, t: Store, p: Node, i: nat, m: nat)
    requires Pair(v, p, i) && v.s[p].level > 1 && Borrowed(v.s, t, p, i, m)
    ensures Links(t, Whole)
  {
    hide Nodes, Slots, BothKeys, BothChilds;
    var l, r := v.s[p].childs[i], v.s[p].childs[i + 1];
    forall n: Node, j: nat | n in t && 0 <= j < |t[n].childs| ensures ChildOk(t, n, j) {
      assert t[n] == BorrowRec(v.s, p, i, m, n);
      if n == l || n == r {
        BorrowLinksPair(v, t, p, i, m, n, j);
      } else {
        BorrowLinksElse(v, t, p, i, m, n, j);
      }
    }
  }

  lemma BorrowLinksElse(v: View, t: Store, p: Node, i: nat, m: nat, n: Node, j: nat)
    requires Pair(v, p, i) && v.s[p].level > 1 && Borrowed(v.s, t, p, i, m)
    requires n in v.s && n != v.s[p].childs[i] && n != v.s[p].childs[i + 1] && j < |v.s[n].childs|
    ensures t[n].childs == v.s[n].childs && ChildOk(t, n, j)
  {
    LinkAt(v, Whole, n, j);
    var c := v.s[n].childs[j];
    if j + 1 < |v.s[n].childs| { LinkAt(v, Whole, n, j + 1); }
    hide Tree, BothKeys, BothChilds;
    assert t[n] == BorrowRec(v.s, p, i, m, n) && t[c] == BorrowRec(v.s, p, i, m, c);
    if j + 1 < |v.s[n].childs| {
      var d := v.s[n].childs[j + 1];
      assert t[d] == BorrowRec(v.s, p, i, m, d);
    }
  }

  // the record of a child of the pair afterwards
  lemma RowRec(v: View, p: Node, i: nat, m: nat, k: nat)
    requires Pair(v, p, i) && v.s[p].level > 1 && k < |BothChilds(v.s, p, i)|
    requires m < |BothKeys(v.s, p, i)| && m + 1 < |BothChilds(v.s, p, i)| && BothChilds(v.s, p, i)[m + 1] in v.s
    ensures BothChilds(v.s, p, i)[k] in v.s
    ensures var n := BothChilds(v.s, p, i)[k];
      BorrowRec(v.s, p, i, m, n)
      == v.s[n].(parent := if k <= m then v.s[p].childs[i] else v.s[p].childs[i + 1],
                 slot := if k <= m then k else k - m - 1)
  {
    hide Tree, BothKeys, BothChilds;
    RowAt(v, p, i, k);
  }

  lemma RowRecAt(v: View, t: Store, p: Node, i: nat, m: nat, k: nat)
    requires Pair(v, p, i) && v.s[p].level > 1 && Borrowed(v.s, t, p, i, m) && k < |BothChilds(v.s, p, i)|
    ensures var n := BothChilds(v.s, p, i)[k];
      && n in v.s && n in t && t[n].level + 2 == v.s[p].level && t[n].lo == v.s[n].lo && t[n].hi == v.s[n].hi
      && t[n].parent == (if k <= m then v.s[p].childs[i] else v.s[p].childs[i + 1])
      && t[n].slot == (if k <= m then k else k - m - 1)
  {
    hide Tree, BothKeys, BothChilds, BorrowRec;
    var n := BothChilds(v.s, p, i)[k];
    RowAt(v, p, i, k);
    BorrowedAt(v.s, t, p, i, m, n);
    RowRec(v, p, i, m, k);
  }

  // the records of the pair itself
  lemma PairRecs(v: View, t: Store, p: Node, i: nat, m: nat)
    requires Pair(v, p, i) && Borrowed(v.s, t, p, i, m)
    ensures var l, r := v.s[p].childs[i], v.s[p].childs[i + 1]; var cs := BothChilds(v.s, p, i);
      && l in t && r in t && m + 1 < |cs| && t[l].childs == cs[..m + 1] && t[r].childs == cs[m + 1..]
      && t[l].level + 1 == v.s[p].level && t[r].level + 1 == v.s[p].level
  {
    hide Tree, BothChilds;
    BorrowedAt(v.s, t, p, i, m, v.s[p].childs[i]);
    BorrowedAt(v.s, t, p, i, m, v.s[p].childs[i + 1]);
  }

  lemma BorrowLinksPair(v: View, t: Store, p: Node, i: nat, m: nat, n: Node, j: nat)
    requires Pair(v, p, i) && v.s[p].level > 1 && Borrowed(v.s, t, p, i, m)
    requires (n == v.s[p].childs[i] || n == v.s[p].childs[i + 1]) && j < |t[n].childs|
    ensures ChildOk(t, n, j)
  {
    hide Tree, BothKeys, BothChilds, BorrowRec, Borrowed;
    var cs := BothChilds(v.s, p, i);
    PairRecs(v, t, p, i, m);
    var k := if n == v.s[p].childs[i] then j else m + 1 + j;
    assert t[n].childs[j] == cs[k];
    RowAt(v, p, i, k);
    RowRecAt(v, t, p, i, m, k);
    if j + 1 < |t[n].childs| {
      assert t[n].childs[j + 1] == cs[k + 1];
      RowRecAt(v, t, p, i, m, k + 1);
    }
  }

  lemma BorrowTree(v: View, w: View, p: Node, i: nat, m: nat)
    requires Pair(v, p, i) && v.s[p].level > 1 && Borrowed(v.s, w.s, p, i, m) && w.root == v.root && w.chain == v.chain
    ensures Tree(w, Whole)
  {
    BorrowNodes(v, w, p, i, m);
    BorrowLinks(v, w.s, p, i, m);
    hide Nodes, Links, BothKeys, BothChilds;
    assert w.s[w.root] == BorrowRec(v.s, p, i, m, w.root);
    forall j | 0 <= j < |w.chain| ensures SlotOk(w, Whole, j) {
      assert SlotOk(v, Whole, j);
      assert w.s[v.chain[j]] == BorrowRec(v.s, p, i, m, v.chain[j]);
    }
  }

  lemma BorrowItems(v: View, w: View, p: Node, i: nat, m: nat)
    requires Pair(v, p, i) && v.s[p].level > 1 && Borrowed(v.s, w.s, p, i, m) && w.root == v.root && w.chain == v.chain
    ensures forall k :: FlatTo(w.s, w.chain, k) == FlatTo(v.s, v.chain, k)
  {
    hide Nodes, Links, FlatTo, BothKeys, BothChilds;
    forall j | 0 <= j < |v.chain| ensures SameItemsAt(v.s, w.s, v.chain[j]) {
      assert SlotOk(v, Whole, j);
      assert w.s[v.chain[j]] == BorrowRec(v.s, p, i, m, v.chain[j]);
    }
    FlatSame(v.s, w.s, v.chain);
  }

  // key k of the row separates children k and k + 1 of the row
  lemma RowKey(v: View, p: Node, i: nat, k: nat)
    requires Pair(v, p, i) && v.s[p].level > 1 && Keys(v, Whole, NoSkip) && k < |BothKeys(v.s, p, i)|
    ensures k < |BothChilds(v.s, p, i)| && BothChilds(v.s, p, i)[k] in v.s
    ensures EndsWith(v.s, v.chain, v.s[BothChilds(v.s, p, i)[k]].hi, BothKeys(v.s, p, i)[k])
  {
    RowAt(v, p, i, k);
    var l, r := v.s[p].childs[i], v.s[p].childs[i + 1];
    NodeAt(v, Whole, l);
    hide Tree;
    var n := |v.s[l].keys|;
    if k < n {
      assert KeyDue(v, Whole, NoSkip, l, k) && KeyOk(v, l, k);
    } else if k == n {
      assert KeyDue(v, Whole, NoSkip, p, i) && KeyOk(v, p, i);
    } else {
      assert KeyDue(v, Whole, NoSkip, r, k - n - 1) && KeyOk(v, r, k - n - 1);
    }
  }

  lemma BorrowKeyPair(v: View, w: View, p: Node, i: nat, m: nat, n: Node, j: nat)
    requires Pair(v, p, i) && v.s[p].level > 1 && Borrowed(v.s, w.s, p, i, m) && w.root == v.root && w.chain == v.chain
    requires Keys(v, Whole, NoSkip) && forall k :: FlatTo(w.s, w.chain, k) == FlatTo(v.s, v.chain, k)
    requires KeyDue(w, Whole, NoSkip, n, j) && (n == v.s[p].childs[i] || n == v.s[p].childs[i + 1])
    ensures KeyOk(w, n, j)
  {
    var cs := BothChilds(v.s, p, i);
    assert w.s[n] == BorrowRec(v.s, p, i, m, n);
    var k := if n == v.s[p].childs[i] then j else m + 1 + j;
    RowKey(v, p, i, k);
    RowAt(v, p, i, k);
    assert w.s[n].childs[j] == cs[k];
    hide Tree, FlatTo, BothChilds;
    assert w.s[cs[k]] == BorrowRec(v.s, p, i, m, cs[k]);
  }

  lemma BorrowKeyElse(v: View, w: View, p: Node, i: nat, m: nat, n: Node, j: nat)
    requires Pair(v, p, i) && v.s[p].level > 1 && Borrowed(v.s, w.s, p, i, m) && w.root == v.root && w.chain == v.chain
    requires Keys(v, Whole, NoSkip) && forall k :: FlatTo(w.s, w.chain, k) == FlatTo(v.s, v.chain, k)
    requires KeyDue(w, Whole, NoSkip, n, j) && n != v.s[p].childs[i] && n != v.s[p].childs[i + 1]
    ensures KeyOk(w, n, j)
  {
    var l := v.s[p].childs[i];
    assert w.s[n] == BorrowRec(v.s, p, i, m, n) && w.s[l] == BorrowRec(v.s, p, i, m, l);
    RowKey(v, p, i, m);
    RowAt(v, p, i, m);
    LinkAt(v, Whole, n, j);
    var c := v.s[n].childs[j];
    hide Tree, FlatTo, BothChilds, BothKeys;
    assert w.s[c] == BorrowRec(v.s, p, i, m, c);
    if c != l {
      assert KeyDue(v, Whole, NoSkip, n, j) && KeyOk(v, n, j);
    }
  }

  lemma BorrowKeys(v: View, w: View, p: Node, i: nat, m: nat)
    requires Pair(v, p, i) && v.s[p].level > 1 && Borrowed(v.s, w.s, p, i, m) && w.root == v.root && w.chain == v.chain
    requires Keys(v, Whole, NoSkip)
    ensures Keys(w, Whole, NoSkip)
  {
    BorrowItems(v, w, p, i, m);
    hide Tree, BothKeys, BothChilds, FlatTo, KeyDue;
    forall n: Node, j: nat | n in w.s && KeyDue(w, Whole, NoSkip, n, j) ensures KeyOk(w, n, j) {
      if n == v.s[p].childs[i] || n == v.s[p].childs[i + 1] {
        BorrowKeyPair(v, w, p, i, m, n, j);
      } else {
        BorrowKeyElse(v, w, p, i, m, n, j);
      }
    }
  }

  lemma BorrowFill(v: View, w: View, p: Node, i: nat, m: nat, c: Capacity, under: Node?)
    requires Pair(v, p, i) && v.s[p].level > 1 && Borrowed(v.s, w.s, p, i, m) && w.root == v.root
    requires Fill(v, c, Whole, under) && (under == v.s[p].childs[i] || under == v.s[p].childs[i + 1])
    requires c.branch / 2 <= m && c.branch / 2 + m < |BothKeys(v.s, p, i)|
    ensures Fill(w, c, Whole, null)
  {
    hide Tree, BothChilds;
    forall n | n in w.s ensures FillOk(w, c, null, n) {
      assert FillOk(v, c, under, n);
      assert w.s[n] == BorrowRec(v.s, p, i, m, n);
    }
  }
}
