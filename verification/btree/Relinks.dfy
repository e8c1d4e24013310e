// From the nodes a branch operation writes to the record of every node.
module BTreeRelinks {
  import opened BTreeArrays
  import opened BTreeNodes
  import opened BTreeStructure
  import opened BTreeBranchGrowth
  import opened BTreeBranchHalves
  import opened BTreeBranchBorrow
  import opened BTreeBranchMerge

  lemma RelinkedSameKeys(s: Store, t: Store, b: Node, cs: seq<Node>, i: nat, j: nat)
    requires i <= j <= |cs| && Relinked(s, t, b, cs, i, j)
    ensures t.Keys == s.Keys
  {
  }

  lemma RootAlone(v: View, h: Hole)
    requires Tree(v, h)
    ensures v.root in v.s && v.s[v.root].parent == null
  {
  }

  // ---------- RearrangeKeys: one branch takes all

  lemma MergeRelinkedAt(v: View, p: Node, i: nat, lost: int, s1: Store, t: Store, n: Node)
    requires Pair(v, p, i) && v.s[p].level > 1 && n in v.s
    requires var l, r := v.s[p].childs[i], v.s[p].childs[i + 1];
      && s1 == v.s[l := MergeRec(v.s, p, i, lost, l)][r := MergeRec(v.s, p, i, lost, r)][p :=
        MergeRec(v.s, p, i, lost, p)]
      && Relinked(s1, t, l, BothChilds(v.s, p, i), |v.s[l].childs|, |BothChilds(v.s, p, i)|)
    ensures t[n] == MergeRec(v.s, p, i, lost, n)
  {
    hide Tree, Relinked, BothKeys;
    var l, r := v.s[p].childs[i], v.s[p].childs[i + 1];
    var cs, a := BothChilds(v.s, p, i), |v.s[l].childs|;
    RelinkedAt(s1, t, l, cs, a, |cs|, n);
    if v.s[n].parent == l || v.s[n].parent == r {
      RowRank(v, p, i, n);
    }
    if n in cs[a..|cs|] {
      var k := SliceIndex(cs, a, |cs|, n);
      RowAt(v, p, i, k);
    }
  }

  lemma MergeSame(v: View, p: Node, i: nat, lost: int, s1: Store, t: Store)
    requires Pair(v, p, i)
    requires var l, r := v.s[p].childs[i], v.s[p].childs[i + 1];
      && s1.Keys == v.s.Keys + {l, r, p}
      && Relinked(s1, t, l, BothChilds(v.s, p, i), |v.s[l].childs|, |BothChilds(v.s, p, i)|)
    ensures p in v.s && i < |v.s[p].keys| && i + 1 < |v.s[p].childs| && v.s[p].childs[i] in v.s
      && v.s[p].childs[i + 1] in v.s && t.Keys == v.s.Keys
  {
    hide Tree, BothChilds;
  }

  lemma FoldMerged(s: Store, t: Store, p: Node, i: nat, lost: int)
    requires p in s && i < |s[p].keys| && i + 1 < |s[p].childs| && s[p].childs[i] in s && s[p].childs[i + 1] in s
    requires t.Keys == s.Keys && forall n :: n in s ==> t[n] == MergeRec(s, p, i, lost, n)
    ensures Merged(s, t, p, i, lost)
  {
    hide MergeRec;
  }

  lemma MergeRelinked(v: View, p: Node, i: nat, lost: int, s1: Store, t: Store)
    requires Pair(v, p, i) && v.s[p].level > 1
    requires var l, r := v.s[p].childs[i], v.s[p].childs[i + 1];
      && s1 == v.s[l := MergeRec(v.s, p, i, lost, l)][r := MergeRec(v.s, p, i, lost, r)][p :=
        MergeRec(v.s, p, i, lost, p)]
      && Relinked(s1, t, l, BothChilds(v.s, p, i), |v.s[l].childs|, |BothChilds(v.s, p, i)|)
    ensures Merged(v.s, t, p, i, lost)
  {
    hide *;
    MergeSame(v, p, i, lost, s1, t);
    forall n | n in v.s ensures t[n] == MergeRec(v.s, p, i, lost, n) {
      MergeRelinkedAt(v, p, i, lost, s1, t, n);
    }
    FoldMerged(v.s, t, p, i, lost);
  }

  // ---------- RearrangeKeys: the children are shared anew at m

  ghost predicate BorrowLinks(v: View, p: Node, i: nat, m: nat, s1: Store, s2: Store, t: Store)
  {
    && Pair(v, p, i) && v.s[p].level > 1
    && m < |BothKeys(v.s, p, i)| && m + 1 < |BothChilds(v.s, p, i)| && BothChilds(v.s, p, i)[m + 1] in v.s
    && var l, r := v.s[p].childs[i], v.s[p].childs[i + 1];
    var cs, a := BothChilds(v.s, p, i), if |v.s[l].childs| < m + 1 then |v.s[l].childs| else m + 1;
    && s1 == v.s[l := BorrowRec(v.s, p, i, m, l)][r := BorrowRec(v.s, p, i, m, r)][p := BorrowRec(v.s, p, i, m, p)]
    && Relinked(s1, s2, l, cs[..m + 1], a, m + 1) && Relinked(s2, t, r, cs[m + 1..], 0, |cs| - m - 1)
  }

  // a child of the pair stands in one place only
  lemma NotAmong(v: View, p: Node, i: nat, k: nat, begin: nat, end: nat)
    requires Pair(v, p, i) && v.s[p].level > 1 && k < |BothChilds(v.s, p, i)|
    requires begin <= end <= |BothChilds(v.s, p, i)| && !(begin <= k < end)
    ensures BothChilds(v.s, p, i)[k] !in BothChilds(v.s, p, i)[begin..end]
  {
    hide Tree, BothChilds;
    var cs := BothChilds(v.s, p, i);
    RowAt(v, p, i, k);
    if cs[k] in cs[begin..end] {
      var q := SliceIndex(cs, begin, end, cs[k]);
      RowAt(v, p, i, q);
    }
  }

  lemma LinksParts(v: View, p: Node, i: nat, m: nat, s1: Store, s2: Store, t: Store)
    requires BorrowLinks(v, p, i, m, s1, s2, t)
    ensures Pair(v, p, i) && v.s[p].level > 1 && p in v.s && i + 1 < |v.s[p].childs| && v.s[p].childs[i] in v.s
      && v.s[p].childs[i + 1] in v.s && i < |v.s[p].keys|
    ensures m < |BothKeys(v.s, p, i)| && m + 1 < |BothChilds(v.s, p, i)| && BothChilds(v.s, p, i)[m + 1] in v.s
    ensures var l, r := v.s[p].childs[i], v.s[p].childs[i + 1];
      var cs, a := BothChilds(v.s, p, i), if |v.s[l].childs| < m + 1 then |v.s[l].childs| else m + 1;
      && (forall n :: n in v.s && n != l && n != r && n != p ==> n in s1 && s1[n] == v.s[n])
      && Relinked(s1, s2, l, cs[..m + 1], a, m + 1) && Relinked(s2, t, r, cs[m + 1..], 0, |cs| - m - 1)
  {
    hide Tree, Relinked, BothKeys, BothChilds, BorrowRec;
  }

  // children that come before those linked anew are where they were
  lemma RowFirst(v: View, p: Node, i: nat, k: nat)
    requires Pair(v, p, i) && v.s[p].level > 1 && k < |v.s[v.s[p].childs[i]].childs|
    ensures k < |BothChilds(v.s, p, i)| && BothChilds(v.s, p, i)[k] in v.s
    ensures var n := BothChilds(v.s, p, i)[k]; v.s[n].parent == v.s[p].childs[i] && v.s[n].slot == k
  {
    hide Nodes, Slots;
    LinkAt(v, Whole, v.s[p].childs[i], k);
  }

  lemma BorrowRelinkedChild(v: View, p: Node, i: nat, m: nat, s1: Store, s2: Store, t: Store, k: nat)
    requires BorrowLinks(v, p, i, m, s1, s2, t) && k < |BothChilds(v.s, p, i)|
    ensures var n := BothChilds(v.s, p, i)[k]; n in v.s && t[n] == BorrowRec(v.s, p, i, m, n)
  {
    hide *;
    LinksParts(v, p, i, m, s1, s2, t);
    var l, r := v.s[p].childs[i], v.s[p].childs[i + 1];
    var cs, b := BothChilds(v.s, p, i), |v.s[l].childs|;
    var n := cs[k];
    var a := if b < m + 1 then b else m + 1;
    RowAt(v, p, i, k);
    RowRec(v, p, i, m, k);
    assert cs[..m + 1][a..m + 1] == cs[a..m + 1] && cs[m + 1..][0..|cs| - m - 1] == cs[m + 1..|cs|];
    RelinkedAt(s1, s2, l, cs[..m + 1], a, m + 1, n);
    RelinkedAt(s2, t, r, cs[m + 1..], 0, |cs| - m - 1, n);
    if k > m {
      NotAmong(v, p, i, k, a, m + 1);
      assert cs[m + 1..][k - m - 1] == n;
    } else {
      NotAmong(v, p, i, k, m + 1, |cs|);
      if k < a {
        NotAmong(v, p, i, k, a, m + 1);
        RowFirst(v, p, i, k);
      } else {
        assert cs[..m + 1][k] == n;
      }
    }
  }

  lemma BorrowRelinkedAt(v: View, p: Node, i: nat, m: nat, s1: Store, s2: Store, t: Store, n: Node)
    requires BorrowLinks(v, p, i, m, s1, s2, t) && n in v.s
    ensures t[n] == BorrowRec(v.s, p, i, m, n)
  {
    hide Tree, Relinked, BothKeys;
    var l, r := v.s[p].childs[i], v.s[p].childs[i + 1];
    var cs, b := BothChilds(v.s, p, i), |v.s[l].childs|;
    if v.s[n].parent == l || v.s[n].parent == r {
      RowRank(v, p, i, n);
      BorrowRelinkedChild(v, p, i, m, s1, s2, t, Rank(v.s, p, i, n));
    } else {
      if n in cs {
        var q :| 0 <= q < |cs| && cs[q] == n;
        RowAt(v, p, i, q);
      }
      RelinkedAt(s1, s2, l, cs[..m + 1], if b < m + 1 then b else m + 1, m + 1, n);
      RelinkedAt(s2, t, r, cs[m + 1..], 0, |cs| - m - 1, n);
    }
  }

  lemma BorrowRelinked(v: View, p: Node, i: nat, m: nat, s1: Store, s2: Store, t: Store)
    requires BorrowLinks(v, p, i, m, s1, s2, t)
    ensures Borrowed(v.s, t, p, i, m)
  {
    BorrowRelinkedKeys(v, p, i, m, s1, s2, t);
    hide BorrowLinks, BorrowRec, BothKeys, BothChilds;
    forall n | n in v.s ensures t[n] == BorrowRec(v.s, p, i, m, n) { BorrowRelinkedAt(v, p, i, m, s1, s2, t, n); }
  }

  lemma BorrowRelinkedKeys(v: View, p: Node, i: nat, m: nat, s1: Store, s2: Store, t: Store)
    requires BorrowLinks(v, p, i, m, s1, s2, t)
    ensures p in v.s && i < |v.s[p].keys| && i + 1 < |v.s[p].childs| && v.s[p].childs[i] in v.s
      && v.s[p].childs[i + 1] in v.s
    ensures m < |BothKeys(v.s, p, i)| && m + 1 < |BothChilds(v.s, p, i)| && BothChilds(v.s, p, i)[m + 1] in v.s
    ensures t.Keys == v.s.Keys
  {
    hide Tree, BorrowRec, BothKeys, BothChilds;
    assert t.Keys == s2.Keys == s1.Keys;
  }

  // ---------- dropping a child

  ghost predicate DetachLinks(v: View, p: Node, k: nat, x: Node, s1: Store, t: Store)
  {
    && Tree(v, Dead(x)) && x in v.s && v.s[x].parent == p && v.s[x].slot == k && p in v.s && p != x
    && 0 < k <= |v.s[p].keys| && k < |v.s[p].childs|
    && s1 == (v.s - {x})[p := DetachRec(v.s, p, k, p)]
    && Relinked(s1, t, p, Removed(v.s[p].childs, k), k, |v.s[p].childs| - 1)
  }

  // which children move down a slot
  lemma DetachMoved(v: View, p: Node, k: nat, x: Node, s1: Store, t: Store, n: Node)
    requires DetachLinks(v, p, k, x, s1, t) && n in v.s && n != x
    ensures var cs := Removed(v.s[p].childs, k);
      && (v.s[n].parent == p && v.s[n].slot > k ==> v.s[n].slot - 1 < |cs| && cs[v.s[n].slot - 1] == n && n != p)
      && (!(v.s[n].parent == p && v.s[n].slot > k) ==> n !in cs[k..])
      && (n == p ==> n !in cs[k..])
  {
    hide Tree, Relinked;
    var cs := Removed(v.s[p].childs, k);
    NodeAt(v, Dead(x), n);
    RootAlone(v, Dead(x));
    assert cs[k..] == cs[k..|cs|];
    if n in cs[k..] {
      var q := SliceIndex(cs, k, |cs|, n);
      LinkAt(v, Dead(x), p, q + 1);
    }
  }

  lemma DetachRelinkedAt(v: View, p: Node, k: nat, x: Node, s1: Store, t: Store, n: Node)
    requires DetachLinks(v, p, k, x, s1, t) && n in v.s && n != x
    ensures t[n] == DetachRec(v.s, p, k, n)
  {
    hide Tree, Relinked, Removed;
    DetachMoved(v, p, k, x, s1, t, n);
    var cs := Removed(v.s[p].childs, k);
    RelinkedAt(s1, t, p, cs, k, |cs|, n);
    assert cs[k..] == cs[k..|cs|];
  }

  lemma DetachRelinked(v: View, p: Node, k: nat, x: Node, s1: Store, t: Store)
    requires DetachLinks(v, p, k, x, s1, t)
    ensures Detached(v.s, t, p, k, x)
  {
    assert t.Keys == s1.Keys == v.s.Keys - {x};
    hide Tree, Relinked, DetachRec;
    forall n | n in t ensures t[n] == DetachRec(v.s, p, k, n) { DetachRelinkedAt(v, p, k, x, s1, t, n); }
  }

  // ---------- a full branch takes a child and splits

  ghost predicate SplitLinks(v: View, h: Hole, b: Node, i: nat, x: Node, y: Node, m: nat, u: View, s1: Store, s2: Store,
      t: Store)
  {
    && AttachSite(v, h, b, i, x) && Attached(v.s, u.s, b, i, h.key, x) && u.root == v.root && u.chain == v.chain
      && Tree(u, Whole)
    && h.Split? && h.cut in v.s && x in v.s && b in v.s
    && y !in v.s && m < |v.s[b].keys| && v.s[b].level > 0
    && SplitWrites(v, h, b, i, x, y, m, u, s1, s2, t)
  }

  ghost predicate SplitWrites(v: View, h: Hole, b: Node, i: nat, x: Node, y: Node, m: nat, u: View, s1: Store,
      s2: Store, t: Store)
    requires h.Split? && h.cut in v.s && x in v.s && b in v.s
  {
    && b in u.s && m + 1 < |u.s[b].childs| && m < |u.s[b].keys| && u.s[b].childs[m + 1] in u.s
    && var cs := u.s[b].childs;
    && s1 == v.s[h.cut := v.s[h.cut].(hi := v.s[x].lo)][b := HalfRec(u.s, b, y, m, b)][y := UpperRec(u.s, b, m)]
    && Relinked(s1, s2, b, cs[..m + 1], if i < m then i + 1 else m + 1, m + 1)
    && Relinked(s2, t, y, cs[m + 1..], 0, |cs| - m - 1)
  }

  lemma SplitAttach(v: View, h: Hole, b: Node, i: nat, x: Node, u: View, k: nat)
    requires AttachSite(v, h, b, i, x) && Attached(v.s, u.s, b, i, h.key, x) && Tree(u, Whole) && k < |u.s[b].childs|
    ensures var n := u.s[b].childs[k];
      && n in u.s && n in v.s && n != b && u.s[n].parent == b && u.s[n].slot == k
      && v.s[h.cut := v.s[h.cut].(hi := v.s[x].lo)][n].(parent := b, slot := k) == u.s[n]
      && (k <= i ==> v.s[h.cut := v.s[h.cut].(hi := v.s[x].lo)][n] == u.s[n])
  {
    hide Tree, Inserted;
    var n := u.s[b].childs[k];
    LinkAt(u, Whole, b, k);
    assert u.s[n] == AttachRec(v.s, b, i, h.key, x, n) && u.s[b] == AttachRec(v.s, b, i, h.key, x, b);
    InsertedAt(v.s[b].childs, i + 1, x, k);
  }

  // child k of the enlarged branch, before the links of the children are written
  lemma SplitBase(v: View, h: Hole, b: Node, i: nat, x: Node, y: Node, m: nat, u: View, s1: Store, s2: Store, t: Store,
      k: nat)
    requires SplitLinks(v, h, b, i, x, y, m, u, s1, s2, t) && k < |u.s[b].childs|
    ensures var n := u.s[b].childs[k];
      && n in u.s && n in s1 && n != b && n != y && u.s[n].parent == b && u.s[n].slot == k
      && s1[n].(parent := b, slot := k) == u.s[n] && (k <= i ==> s1[n] == u.s[n])
  {
    hide Tree, Relinked, Inserted, AttachSite;
    var n := u.s[b].childs[k];
    SplitAttach(v, h, b, i, x, u, k);
  }

  lemma SplitLinksParts(v: View, h: Hole, b: Node, i: nat, x: Node, y: Node, m: nat, u: View, s1: Store, s2: Store,
      t: Store)
    requires SplitLinks(v, h, b, i, x, y, m, u, s1, s2, t)
    ensures b in u.s && m + 1 < |u.s[b].childs| && m < |u.s[b].keys|
    ensures Relinked(s1, s2, b, u.s[b].childs[..m + 1], if i < m then i + 1 else m + 1, m + 1)
    ensures Relinked(s2, t, y, u.s[b].childs[m + 1..], 0, |u.s[b].childs| - m - 1)
  {
    hide AttachSite, Attached, Tree, Relinked, Inserted;
  }

  // no child hangs twice
  lemma SplitOnce(v: View, h: Hole, b: Node, i: nat, x: Node, y: Node, m: nat, u: View, s1: Store, s2: Store, t: Store,
      k: nat)
    requires SplitLinks(v, h, b, i, x, y, m, u, s1, s2, t) && b in u.s && k < |u.s[b].childs|
    ensures forall q :: 0 <= q < |u.s[b].childs| && u.s[b].childs[q] == u.s[b].childs[k] ==> q == k
  {
    hide SplitLinks;
    SplitBase(v, h, b, i, x, y, m, u, s1, s2, t, k);
    forall q | 0 <= q < |u.s[b].childs| && u.s[b].childs[q] == u.s[b].childs[k] ensures q == k {
      SplitBase(v, h, b, i, x, y, m, u, s1, s2, t, q);
    }
  }

  lemma SplitRelinkedChild(v: View, h: Hole, b: Node, i: nat, x: Node, y: Node, m: nat, u: View, s1: Store, s2: Store,
      t: Store, k: nat)
    requires SplitLinks(v, h, b, i, x, y, m, u, s1, s2, t) && k < |u.s[b].childs|
    ensures var n := u.s[b].childs[k]; n in u.s && t[n] == HalfRec(u.s, b, y, m, n)
  {
    hide *;
    SplitLinksParts(v, h, b, i, x, y, m, u, s1, s2, t);
    SplitBase(v, h, b, i, x, y, m, u, s1, s2, t, k);
    SplitOnce(v, h, b, i, x, y, m, u, s1, s2, t, k);
    TwoRelinks(s1, s2, t, b, y, u.s[b].childs, m, if i < m then i + 1 else m + 1, k);
    HalfRecChild(u.s, b, y, m, u.s[b].childs[k]);
  }

  lemma HalfRecChild(s: Store, b: Node, y: Node, m: nat, n: Node)
    requires b in s && n in s && m < |s[b].keys| && m < |s[b].childs| && n != b && s[n].parent == b
    ensures HalfRec(s, b, y, m, n) == if s[n].slot > m then s[n].(parent := y, slot := s[n].slot - m - 1) else s[n]
  {
  }

  // the links of one child after the links of both halves have been written
  lemma TwoRelinks(s1: Store, s2: Store, t: Store, b: Node, y: Node, cs: seq<Node>, m: nat, a: nat, k: nat)
    requires a <= m + 1 < |cs| && k < |cs| && cs[k] in s1
    requires Relinked(s1, s2, b, cs[..m + 1], a, m + 1) && Relinked(s2, t, y, cs[m + 1..], 0, |cs| - m - 1)
    requires forall q :: 0 <= q < |cs| && cs[q] == cs[k] ==> q == k
    ensures var n := cs[k];
      n in t && t[n] == if k > m then s1[n].(parent := y, slot := k - m - 1)
                        else if k >= a then s1[n].(parent := b, slot := k) else s1[n]
  {
    hide Relinked;
    var n := cs[k];
    RelinkedAt(s1, s2, b, cs[..m + 1], a, m + 1, n);
    RelinkedAt(s2, t, y, cs[m + 1..], 0, |cs| - m - 1, n);
    if k > m {
      assert cs[m + 1..][k - m - 1] == n;
      assert n !in cs[..m + 1][a..m + 1];
    } else if k >= a {
      assert cs[..m + 1][k] == n;
      assert n !in cs[m + 1..];
    } else {
      assert n !in cs[..m + 1][a..m + 1] && n !in cs[m + 1..];
    }
  }

  lemma NoRelinks(s1: Store, s2: Store, t: Store, b: Node, y: Node, cs: seq<Node>, m: nat, a: nat, n: Node)
    requires a <= m + 1 < |cs| && n in s1 && n !in cs
    requires Relinked(s1, s2, b, cs[..m + 1], a, m + 1) && Relinked(s2, t, y, cs[m + 1..], 0, |cs| - m - 1)
    ensures n in t && t[n] == s1[n]
  {
    hide Relinked;
    RelinkedAt(s1, s2, b, cs[..m + 1], a, m + 1, n);
    RelinkedAt(s2, t, y, cs[m + 1..], 0, |cs| - m - 1, n);
  }

  // a node that is no child of the enlarged branch
  lemma SplitElse(v: View, h: Hole, b: Node, i: nat, x: Node, y: Node, m: nat, u: View, s1: Store, s2: Store, t: Store,
      n: Node)
    requires SplitLinks(v, h, b, i, x, y, m, u, s1, s2, t) && n in u.s
    ensures u.s[n].parent == b ==> u.s[n].slot < |u.s[b].childs| && u.s[b].childs[u.s[n].slot] == n
    ensures u.s[n].parent != b ==>
      n !in u.s[b].childs && h.Split? && n != h.cut && (n != b ==> n in v.s && u.s[n] == v.s[n]) && n != y
  {
    var cs := u.s[b].childs;
    NodeAt(u, Whole, n);
    hide Nodes, Slots, Relinked, Inserted;
    if n in cs {
      var q :| 0 <= q < |cs| && cs[q] == n;
      LinkAt(u, Whole, b, q);
    }
    hide Tree;
    assert u.s[n] == AttachRec(v.s, b, i, h.key, x, n);
  }

  lemma SplitRelinkedAt(v: View, h: Hole, b: Node, i: nat, x: Node, y: Node, m: nat, u: View, s1: Store, s2: Store,
      t: Store, n: Node)
    requires SplitLinks(v, h, b, i, x, y, m, u, s1, s2, t) && n in u.s
    ensures t[n] == HalfRec(u.s, b, y, m, n)
  {
    hide *;
    SplitLinksParts(v, h, b, i, x, y, m, u, s1, s2, t);
    SplitElse(v, h, b, i, x, y, m, u, s1, s2, t, n);
    if u.s[n].parent == b {
      SplitRelinkedChild(v, h, b, i, x, y, m, u, s1, s2, t, u.s[n].slot);
    } else {
      SplitOther(v, h, b, i, x, y, m, u, s1, s2, t, n);
      NoRelinks(s1, s2, t, b, y, u.s[b].childs, m, if i < m then i + 1 else m + 1, n);
    }
  }

  lemma SplitOther(v: View, h: Hole, b: Node, i: nat, x: Node, y: Node, m: nat, u: View, s1: Store, s2: Store, t: Store,
      n: Node)
    requires SplitLinks(v, h, b, i, x, y, m, u, s1, s2, t) && n in u.s && b in u.s && m < |u.s[b].keys|
      && m < |u.s[b].childs|
    requires u.s[n].parent != b && h.Split? && n != h.cut && n != y && (n != b ==> n in v.s && u.s[n] == v.s[n])
    ensures n in s1 && s1[n] == HalfRec(u.s, b, y, m, n)
  {
    hide AttachSite, Attached, Tree, Relinked, Inserted;
  }

  lemma SplitRelinkedNew(v: View, h: Hole, b: Node, i: nat, x: Node, y: Node, m: nat, u: View, s1: Store, s2: Store,
      t: Store)
    requires SplitLinks(v, h, b, i, x, y, m, u, s1, s2, t)
    ensures t.Keys == u.s.Keys + {y} && t[y] == UpperRec(u.s, b, m)
  {
    hide AttachSite, Tree, Relinked;
    assert u.s.Keys == v.s.Keys;
    ChildrenIn(u, Whole, b);
    hide Attached;
    var cs := u.s[b].childs;
    assert s1.Keys == v.s.Keys + {y};
    RelinkedSameKeys(s1, s2, b, cs[..m + 1], if i < m then i + 1 else m + 1, m + 1);
    RelinkedSameKeys(s2, t, y, cs[m + 1..], 0, |cs| - m - 1);
    RelinkedAt(s1, s2, b, cs[..m + 1], if i < m then i + 1 else m + 1, m + 1, y);
    RelinkedAt(s2, t, y, cs[m + 1..], 0, |cs| - m - 1, y);
  }

  lemma SplitRelinked(v: View, h: Hole, b: Node, i: nat, x: Node, y: Node, m: nat, u: View, s1: Store, s2: Store,
      t: Store)
    requires SplitLinks(v, h, b, i, x, y, m, u, s1, s2, t)
    ensures Halved(u.s, t, b, y, m)
  {
    assert u.s.Keys == v.s.Keys && m < |u.s[b].keys| && m + 1 < |u.s[b].childs| && u.s[b].childs[m + 1] in u.s;
    NodeAt(u, Whole, b);
    assert u.s[b] == AttachRec(v.s, b, i, h.key, x, b);
    hide SplitLinks, SplitWrites, AttachSite, Attached, Tree, Relinked, HalfRec, Inserted;
    forall n | n in u.s ensures t[n]
        == HalfRec(u.s, b, y, m, n) { SplitRelinkedAt(v, h, b, i, x, y, m, u, s1, s2, t, n); }
    SplitRelinkedNew(v, h, b, i, x, y, m, u, s1, s2, t);
  }
}
