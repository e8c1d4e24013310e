// What Branch::Insert and Branch::InsertAndSplit write makes the whole tree good again.
module BTreeBranchSteps {
  import opened BTreeArrays
  import opened BTreeNodes
  import opened BTreeStructure
  import opened BTreeBranchGrowth
  import opened BTreeBranchHalves
  import opened BTreeRelinks
  import opened BTreeInsertSteps
  import opened BTreeNodeSteps

  lemma ChildrenDistinct(v: View, h: Hole, b: Node)
    requires Tree(v, h) && b in v.s && !IsDead(h, b)
    ensures Distinct(v.s[b].childs) && forall k :: 0 <= k < |v.s[b].childs| ==> v.s[b].childs[k] in v.s
  {
    hide Tree;
    var q := v.s[b].childs;
    forall i, j | 0 <= i < j < |q| ensures q[i] != q[j] {
      LinkAt(v, h, b, i);
      LinkAt(v, h, b, j);
    }
    ChildrenIn(v, h, b);
  }

  lemma AttachDistinct(v: View, h: Hole, b: Node, i: nat, x: Node)
    requires AttachSite(v, h, b, i, x)
    ensures var cs := Inserted(v.s[b].childs, i + 1, x); Distinct(cs) && forall k :: 0 <= k < |cs| ==> cs[k] in v.s
  {
    ChildrenDistinct(v, h, b);
    var q := v.s[b].childs;
    var cs := Inserted(q, i + 1, x);
    forall k | 0 <= k < |q| ensures q[k] != x { LinkAt(v, h, b, k); }
    hide Tree, AttachSite, Inserted;
    forall k | 0 <= k < |cs| ensures cs[k] in v.s { InsertedAt(q, i + 1, x, k); }
    forall k, l | 0 <= k < l < |cs| ensures cs[k] != cs[l] {
      InsertedAt(q, i + 1, x, k);
      InsertedAt(q, i + 1, x, l);
    }
  }

  lemma SpanBack(v: View, h: Hole, b: Node, i: nat, x: Node)
    requires AttachSite(v, h, b, i, x)
    ensures h.Split? && h.extra == x && h.cut in v.s && x in v.s && b in v.s && h.cut != b && x != b
    ensures i <= |v.s[b].keys| && i + 1 <= |v.s[b].childs| == |v.s[b].keys| + 1 && v.s[b].level > 0
      && v.s[b].items == []
    ensures h.cut == v.s[b].childs[i]
  {
    NodeAt(v, h, b);
  }

  lemma AttachSteady(v: View, h: Hole, t: Store, b: Node, i: nat, x: Node, k: int)
    requires AttachSite(v, h, b, i, x) && Attached(v.s, t, b, i, k, x)
    ensures Steady(v.s, t, v.s[b].level)
  {
    hide Links, Slots, Inserted;
    forall n | n in v.s && v.s[n].level >= v.s[b].level
        ensures t[n].parent == v.s[n].parent && t[n].slot == v.s[n].slot {
      NodeAt(v, h, n);
      assert t[n] == AttachRec(v.s, b, i, k, x, n);
    }
  }

  lemma AttachedLevels(s: Store, t: Store, b: Node, i: nat, x: Node, k: int)
    requires Attached(s, t, b, i, k, x)
    ensures t.Keys == s.Keys && forall n :: n in s ==> t[n].level == s[n].level
  {
    hide Inserted;
    forall n | n in s ensures t[n].level == s[n].level { assert t[n] == AttachRec(s, b, i, k, x, n); }
  }

  lemma HalfSteady(v: View, t: Store, b: Node, y: Node, m: nat)
    requires Tree(v, Whole) && Halved(v.s, t, b, y, m)
    ensures Steady(v.s, t, v.s[b].level)
  {
    hide Links, Slots;
    forall n | n in v.s && v.s[n].level >= v.s[b].level
        ensures t[n].parent == v.s[n].parent && t[n].slot == v.s[n].slot {
      NodeAt(v, Whole, n);
      assert t[n] == HalfRec(v.s, b, y, m, n);
    }
  }

  // Branch::Insert
  lemma AttachAll(v: View, h: Hole, w: View, b: Node, i: nat, x: Node, c: Capacity)
    requires Good(v, c, h, null) && AttachSite(v, h, b, i, x) && w.root == v.root && w.chain == v.chain
    requires h.Split? && h.cut in v.s
    requires Relinked(v.s[h.cut := v.s[h.cut].(hi := v.s[x].lo)]
                         [b := v.s[b].(keys := Inserted(v.s[b].keys, i, h.key),
                             childs := Inserted(v.s[b].childs, i + 1, x))],
                      w.s, b, Inserted(v.s[b].childs, i + 1, x), i + 1, |v.s[b].childs| + 1)
    ensures Good(w, c, Whole, null) && Contents(w) == Contents(v) && Branches(w.s) == Branches(v.s)
    ensures b in v.s && Steady(v.s, w.s, v.s[b].level)
  {
    AttachRelinked(v, h, w.s, b, i, x, h.key,
      v.s[h.cut := v.s[h.cut].(hi := v.s[x].lo)]
         [b := v.s[b].(keys := Inserted(v.s[b].keys, i, h.key), childs := Inserted(v.s[b].childs, i + 1, x))]);
    AttachSteady(v, h, w.s, b, i, x, h.key);
    hide Steady, Tree, Keys, Fill, Chained, Contents, AttachSite, Attached, Inserted, Relinked, Branches;
    AttachStep(v, h, w, b, i, x, c);
  }

  ghost function AttachView(v: View, h: Hole, b: Node, i: nat, x: Node): View
    requires h.Split? && b in v.s && x in v.s && i <= |v.s[b].keys| && i < |v.s[b].childs|
  {
    v.(s := map n | n in v.s :: AttachRec(v.s, b, i, h.key, x, n))
  }

  // what a branch that splits looks like: base is the snapshot before the links of the children are written
  ghost predicate SplitBases(v: View, h: Hole, b: Node, i: nat, x: Node, y: Node, c: Capacity, base: Store)
  {
    && h.Split? && h.cut in v.s && x in v.s && b in v.s && y !in v.s && FullAt(v.s, c, b, i)
      && (c.branch + 1) / 2 + 1 < c.branch + 2
    && Inserted(v.s[b].childs, i + 1, x)[(c.branch + 1) / 2 + 1] in v.s
    && base == v.s[h.cut := v.s[h.cut].(hi := v.s[x].lo)][b := LowerHalf(v.s[b], c, i, h.key, x)]
                [y := UpperHalf(v.s[b], c, i, h.key, x,
                    v.s[Inserted(v.s[b].childs, i + 1, x)[(c.branch + 1) / 2 + 1]].lo)]
  }

  lemma SplitHalves(v: View, h: Hole, b: Node, i: nat, x: Node, y: Node, c: Capacity, base: Store)
    requires SplitBases(v, h, b, i, x, y, c, base) && h.cut != b && x != b && |v.s[b].childs| == |v.s[b].keys| + 1
    requires v.s[b].items == []
    ensures var u, m := AttachView(v, h, b, i, x), (c.branch + 1) / 2; var cs := Inserted(v.s[b].childs, i + 1, x);
      && b in u.s && m + 1 < |u.s[b].childs| && m < |u.s[b].keys| && u.s[b].childs == cs && cs[m + 1] in u.s
      && base == v.s[h.cut := v.s[h.cut].(hi := v.s[x].lo)][b := HalfRec(u.s, b, y, m, b)][y := UpperRec(u.s, b, m)]
  {
    hide Inserted;
    var u, m := AttachView(v, h, b, i, x), (c.branch + 1) / 2;
    var cs := Inserted(v.s[b].childs, i + 1, x);
    assert u.s[b] == AttachRec(v.s, b, i, h.key, x, b);
    assert u.s[cs[m + 1]] == AttachRec(v.s, b, i, h.key, x, cs[m + 1]);
    assert u.s[b].keys == Inserted(v.s[b].keys, i, h.key) && |u.s[b].keys| == c.branch + 1 && |cs| == c.branch + 2;
    assert HalfRec(u.s, b, y, m, b) == LowerHalf(v.s[b], c, i, h.key, x);
    assert UpperRec(u.s, b, m) == UpperHalf(v.s[b], c, i, h.key, x, v.s[cs[m + 1]].lo);
  }

  lemma SplitSite(v: View, h: Hole, b: Node, i: nat, x: Node, y: Node, c: Capacity, base: Store, mid: Store, t: Store)
    requires AttachSite(v, h, b, i, x) && SplitBases(v, h, b, i, x, y, c, base)
    requires HalvesLinked(base, mid, t, c, b, y, i, Inserted(v.s[b].childs, i + 1, x))
    requires Tree(AttachView(v, h, b, i, x), Whole) && Attached(v.s, AttachView(v, h, b, i, x).s, b, i, h.key, x)
    ensures SplitLinks(v, h, b, i, x, y, (c.branch + 1) / 2, AttachView(v, h, b, i, x), base, mid, t)
  {
    hide Tree, Relinked, Inserted, Attached;
    SpanBack(v, h, b, i, x);
    hide AttachSite, LowerHalf, UpperHalf, AttachRec, HalfRec, UpperRec;
    SplitHalves(v, h, b, i, x, y, c, base);
    var u, m := AttachView(v, h, b, i, x), (c.branch + 1) / 2;
    var cs := u.s[b].childs;
    assert |cs| == c.branch + 2 && |v.s[b].keys| == c.branch;
  }

  // Branch::InsertAndSplit
  lemma SplitAll(v: View, h: Hole, w: View, b: Node, i: nat, x: Node, y: Node, c: Capacity, base: Store, mid: Store)
    requires Good(v, c, h, null) && AttachSite(v, h, b, i, x) && w.root == v.root && w.chain == v.chain
    requires SplitBases(v, h, b, i, x, y, c, base)
      && HalvesLinked(base, mid, w.s, c, b, y, i, Inserted(v.s[b].childs, i + 1, x))
    ensures h.Split? && b in v.s && b in w.s && y in w.s && i <= |v.s[b].keys| && (c.branch + 1) / 2 <= |v.s[b].keys|
    ensures Good(w, c, Split(b, w.s[y].lo, Inserted(v.s[b].keys, i, h.key)[(c.branch + 1) / 2], y), null)
      && Contents(w) == Contents(v)
    ensures |Branches(w.s)| == |Branches(v.s)| + 1 && (c.branch + 1) / 2 == |w.s[b].keys|
    ensures Steady(v.s, w.s, v.s[b].level)
  {
    hide Keys, Fill, Chained, Contents, HalvesLinked, Inserted, Branches, Steady;
    SpanBack(v, h, b, i, x);
    var u, m := AttachView(v, h, b, i, x), (c.branch + 1) / 2;
    hide Tree, AttachSite;
    assert Attached(v.s, u.s, b, i, h.key, x);
    AttachStep(v, h, u, b, i, x, c);
    SplitSite(v, h, b, i, x, y, c, base, mid, w.s);
    SplitRelinked(v, h, b, i, x, y, m, u, base, mid, w.s);
    assert u.s[b] == AttachRec(v.s, b, i, h.key, x, b);
    AttachSteady(v, h, u.s, b, i, x, h.key);
    AttachedLevels(v.s, u.s, b, i, x, h.key);
    hide Attached, AttachView, SplitLinks;
    HalfStep(u, w, b, y, m, c);
    HalfSteady(u, w.s, b, y, m);
    SteadyThen(v.s, u.s, w.s, v.s[b].level, v.s[b].level);
    assert w.s[b] == HalfRec(u.s, b, y, m, b);
  }

  lemma SiteOk(v: View, h: Hole, b: Node, i: nat)
    requires Tree(v, h) && h.Split? && h.cut in v.s && v.s[h.cut].parent == b && v.s[h.cut].slot == i
    ensures AttachSite(v, h, b, i, h.extra) && b in v.s && b != h.cut && b != h.extra && h.extra in v.s
    ensures i <= |v.s[b].keys| && |v.s[b].childs| == |v.s[b].keys| + 1 && v.s[h.extra].lo == h.mid
    ensures var cs := Inserted(v.s[b].childs, i + 1, h.extra);
      Distinct(cs) && |cs| == |v.s[b].childs| + 1 && forall k :: 0 <= k < |cs| ==> cs[k] in v.s
  {
    RootAlone(v, h);
    hide Inserted;
    AttachSiteOk(v, h);
    SpanBack(v, h, b, i, h.extra);
    AttachDistinct(v, h, b, i, h.extra);
  }

  lemma FoldBases(v: View, h: Hole, b: Node, i: nat, x: Node, y: Node, c: Capacity, cs: seq<Node>, base: Store)
    requires h.Split? && h.cut in v.s && x in v.s && b in v.s && y !in v.s && FullAt(v.s, c, b, i)
    requires cs == Inserted(v.s[b].childs, i + 1, x) && cs[(c.branch + 1) / 2 + 1] in v.s
    requires base == v.s[h.cut := v.s[h.cut].(hi := v.s[x].lo)][b := LowerHalf(v.s[b], c, i, h.key, x)]
                        [y := UpperHalf(v.s[b], c, i, h.key, x, v.s[cs[(c.branch + 1) / 2 + 1]].lo)]
    ensures SplitBases(v, h, b, i, x, y, c, base)
  {
  }
}
