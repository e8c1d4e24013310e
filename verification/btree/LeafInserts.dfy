// The ways a key enters a leaf: into a free slot, by sharing with a neighbour, or by cutting the leaf in two.
module BTreeLeafInserts {
  import opened BTreeArrays
  import opened BTreeNodes
  import opened BTreeStructure
  import opened BTreeContents
  import opened BTreeLeafSteps
  import opened BTreeLeaves

  ghost predicate IsLeafOf(v: View, a: Node)
  {
    a in v.s && v.s[a].level == 0 && v.s[a].lo < |v.chain| && v.chain[v.s[a].lo] == a && v.s[a].hi == v.s[a].lo + 1
  }

  lemma LeafPlace(v: View, a: Node)
    requires Tree(v, Whole) && a in v.s && v.s[a].level == 0
    ensures IsLeafOf(v, a)
  {
    NodeAt(v, Whole, a);
  }

  lemma ChainNode(v: View, h: Hole, j: nat)
    requires Tree(v, h) && j < |v.chain|
    ensures SlotOk(v, h, j)
  {
  }

  // only the items of the leaves j..a differ
  lemma ItemsWindow(v: View, w: View, j: nat, a: nat)
    requires Tree(v, Whole) && SameShape(v, w) && j <= a <= |v.chain|
    requires forall n ::
      n in v.s && v.s[n].level == 0 && (v.s[n].lo < j || a <= v.s[n].lo) ==> w.s[n].items == v.s[n].items
    ensures HeadSame(v, w, j) && RestSame(v, w, a, a)
  {
    hide Nodes, Links;
    forall q | 0 <= q < |v.chain| ensures v.chain[q] in v.s && v.s[v.chain[q]].level == 0 && v.s[v.chain[q]].lo == q
        && v.chain[q] in w.s {
      ChainNode(v, Whole, q);
    }
    forall q: nat {:trigger SameAt(v.s, w.s, v.chain, w.chain, a, a, q)} | q < |v.chain| - a
      ensures SameAt(v.s, w.s, v.chain, w.chain, a, a, q)
    {
    }
  }

  lemma InsertedMiddle(a: seq<Item>, m: seq<Item>, b: seq<Item>, slot: nat, x: Item)
    requires slot <= |m|
    ensures a + Inserted(m, slot, x) + b == Inserted(a + m + b, |a| + slot, x)
  {
  }

  // a window whose items gain x at `slot`
  lemma WindowInserted(v: View, w: View, j: nat, a: nat, b: nat, mid: seq<Item>, slot: nat, x: Item)
    requires RestSame(v, w, a, b) && HeadSame(v, w, j) && slot <= |mid|
    requires FlatTo(v.s, v.chain, a) == FlatTo(v.s, v.chain, j) + mid
    requires FlatTo(w.s, w.chain, b) == FlatTo(w.s, w.chain, j) + Inserted(mid, slot, x)
    ensures |FlatTo(v.s, v.chain, j)| + slot <= |Contents(v)|
    ensures Contents(w) == Inserted(Contents(v), |FlatTo(v.s, v.chain, j)| + slot, x)
    ensures |mid| > slot ==> TopKept(v, w, a, b)
  {
    hide *;
    WindowContents(v, w, a, b);
    HeadEnds(v, w, j, j);
    InsertedMiddle(FlatTo(v.s, v.chain, j), mid, Contents(v)[|FlatTo(v.s, v.chain, a)|..], slot, x);
    if |mid| > slot {
      InsertedTop(v, w, a, b, FlatTo(v.s, v.chain, j), mid, slot, x);
    }
  }

  lemma InsertedTop(v: View, w: View, a: nat, b: nat, p: seq<Item>, mid: seq<Item>, slot: nat, x: Item)
    requires slot < |mid| && FlatTo(v.s, v.chain, a) == p + mid && FlatTo(w.s, w.chain, b) == p + Inserted(mid, slot, x)
    ensures TopKept(v, w, a, b)
  {
    hide FlatTo;
    var q := Inserted(mid, slot, x);
    assert q[|q| - 1] == mid[|mid| - 1];
  }

  // ---------- a free slot

  ghost predicate Entered(v: View, w: View, a: Node, slot: nat, x: Item)
  {
    && Tree(v, Whole) && IsLeafOf(v, a) && slot <= |v.s[a].items|
    && w == v.(s := Put(v.s, a, Inserted(v.s[a].items, slot, x)))
  }

  lemma EnteredShape(v: View, w: View, a: Node, slot: nat, x: Item)
    requires Entered(v, w, a, slot, x)
    ensures SameShape(v, w) && Tree(w, Whole)
    ensures HeadSame(v, w, v.s[a].lo) && RestSame(v, w, v.s[a].lo + 1, v.s[a].lo + 1)
  {
    hide Inserted;
    var j := v.s[a].lo;
    assert SameShape(v, w) by {
      hide Tree;
      forall n | n in v.s ensures ShapeAt(v.s, w.s, n) {
      }
    }
    ShapeTree(v, w, Whole);
    forall n | n in v.s && v.s[n].level == 0 && v.s[n].lo == j ensures n == a {
      LeafPlace(v, n);
    }
    hide Tree;
    ItemsWindow(v, w, j, j + 1);
  }

  lemma EnteredOk(v: View, w: View, a: Node, slot: nat, x: Item)
    requires Entered(v, w, a, slot, x) && Keys(v, Whole, NoSkip)
    requires slot == |v.s[a].items| ==> v.s[a].lo + 1 == |v.chain|
    ensures Tree(w, Whole) && Keys(w, Whole, NoSkip)
    ensures |FlatTo(v.s, v.chain, v.s[a].lo)| + slot <= |Contents(v)|
    ensures Contents(w) == Inserted(Contents(v), |FlatTo(v.s, v.chain, v.s[a].lo)| + slot, x)
  {
    EnteredShape(v, w, a, slot, x);
    var j := v.s[a].lo;
    assert FlatTo(v.s, v.chain, j + 1) == FlatTo(v.s, v.chain, j) + v.s[a].items;
    assert FlatTo(w.s, w.chain, j + 1) == FlatTo(w.s, w.chain, j) + w.s[a].items;
    hide Tree, FlatTo, Inserted, HeadSame, RestSame, TopKept;
    WindowInserted(v, w, j, j + 1, j + 1, v.s[a].items, slot, x);
    ItemsKeys(v, w, j, j + 1, NoSkip);
  }

  lemma EnteredFill(v: View, w: View, a: Node, slot: nat, x: Item, c: Capacity, under: Node?)
    requires Entered(v, w, a, slot, x) && Fill(v, c, Whole, under) && (under == null || (under == a && a == v.root))
    ensures Fill(w, c, Whole, null)
  {
    hide Tree;
    forall n | n in w.s ensures FillOk(w, c, null, n) {
      assert FillOk(v, c, under, n);
    }
  }

  // ---------- two neighbouring leaves share their items and x

  ghost predicate Shared(v: View, w: View, l: Node, r: Node, slot: nat, x: Item, m: nat)
  {
    && Tree(v, Whole) && IsLeafOf(v, l) && IsLeafOf(v, r) && v.s[r].lo == v.s[l].lo + 1
    && slot <= |v.s[l].items + v.s[r].items| && 0 < m <= |v.s[l].items + v.s[r].items|
    && var all := Inserted(v.s[l].items + v.s[r].items, slot, x);
    w == v.(s := Put(Put(v.s, l, all[..m]), r, all[m..]))
  }

  // two neighbouring leaves hold new items
  ghost predicate Dealt(v: View, w: View, l: Node, r: Node, p: seq<Item>, q: seq<Item>)
  {
    && Tree(v, Whole) && IsLeafOf(v, l) && IsLeafOf(v, r) && v.s[r].lo == v.s[l].lo + 1
    && w == v.(s := Put(Put(v.s, l, p), r, q))
  }

  lemma DealtShape(v: View, w: View, l: Node, r: Node, p: seq<Item>, q: seq<Item>)
    requires Dealt(v, w, l, r, p, q)
    ensures SameShape(v, w) && Tree(w, Whole)
    ensures forall n {:trigger ShapeAt(v.s, w.s, n)} :: n in v.s ==> w.s[n].keys == v.s[n].keys
    ensures HeadSame(v, w, v.s[l].lo) && RestSame(v, w, v.s[l].lo + 2, v.s[l].lo + 2)
  {
    var j := v.s[l].lo;
    assert SameShape(v, w) by {
      hide Tree;
      forall n | n in v.s ensures ShapeAt(v.s, w.s, n) {
      }
    }
    ShapeTree(v, w, Whole);
    forall n | n in v.s && v.s[n].level == 0 ensures (v.s[n].lo == j ==> n == l) && (v.s[n].lo == j + 1 ==> n == r) {
      LeafPlace(v, n);
    }
    hide Tree;
    ItemsWindow(v, w, j, j + 2);
  }

  lemma DealtFlat(v: View, w: View, l: Node, r: Node, p: seq<Item>, q: seq<Item>)
    requires Dealt(v, w, l, r, p, q)
    ensures var j := v.s[l].lo;
      && FlatTo(v.s, v.chain, j + 2) == FlatTo(v.s, v.chain, j) + (v.s[l].items + v.s[r].items)
      && FlatTo(w.s, w.chain, j + 2) == FlatTo(w.s, w.chain, j) + (p + q)
      && FlatTo(w.s, w.chain, j + 1) == FlatTo(w.s, w.chain, j) + p
  {
    hide Tree;
    var j := v.s[l].lo;
    assert FlatTo(v.s, v.chain, j + 1) == FlatTo(v.s, v.chain, j) + v.s[l].items;
    assert FlatTo(w.s, w.chain, j + 1) == FlatTo(w.s, w.chain, j) + p;
    assert FlatTo(w.s, w.chain, j + 2) == FlatTo(w.s, w.chain, j) + p + q;
  }

  lemma SharedDealt(v: View, w: View, l: Node, r: Node, slot: nat, x: Item, m: nat)
    requires Shared(v, w, l, r, slot, x, m)
    ensures var all := Inserted(v.s[l].items + v.s[r].items, slot, x);
      Dealt(v, w, l, r, all[..m], all[m..]) && all[..m] + all[m..] == all
  {
    hide Tree, Inserted;
  }

  lemma SharedShape(v: View, w: View, l: Node, r: Node, slot: nat, x: Item, m: nat)
    requires Shared(v, w, l, r, slot, x, m)
    ensures SameShape(v, w) && Tree(w, Whole)
    ensures forall n {:trigger ShapeAt(v.s, w.s, n)} :: n in v.s ==> w.s[n].keys == v.s[n].keys
    ensures HeadSame(v, w, v.s[l].lo) && RestSame(v, w, v.s[l].lo + 2, v.s[l].lo + 2)
  {
    hide Tree, Inserted;
    var all := Inserted(v.s[l].items + v.s[r].items, slot, x);
    SharedDealt(v, w, l, r, slot, x, m);
    DealtShape(v, w, l, r, all[..m], all[m..]);
  }

  lemma SharedFlat(v: View, w: View, l: Node, r: Node, slot: nat, x: Item, m: nat)
    requires Shared(v, w, l, r, slot, x, m)
    ensures var j := v.s[l].lo; var mid := v.s[l].items + v.s[r].items;
      && FlatTo(v.s, v.chain, j + 2) == FlatTo(v.s, v.chain, j) + mid
      && FlatTo(w.s, w.chain, j + 2) == FlatTo(w.s, w.chain, j) + Inserted(mid, slot, x)
      && FlatTo(w.s, w.chain, j + 1) == FlatTo(w.s, w.chain, j) + Inserted(mid, slot, x)[..m]
  {
    hide Tree, Inserted, Put;
    var all := Inserted(v.s[l].items + v.s[r].items, slot, x);
    SharedDealt(v, w, l, r, slot, x, m);
    DealtFlat(v, w, l, r, all[..m], all[m..]);
  }

  lemma SharedEnds(v: View, w: View, l: Node, r: Node, slot: nat, x: Item, m: nat)
    requires Shared(v, w, l, r, slot, x, m)
    ensures w.s[l].items != [] && EndsWith(w.s, w.chain, v.s[l].lo + 1, w.s[l].items[|w.s[l].items| - 1].key)
  {
    SharedFlat(v, w, l, r, slot, x, m);
    hide Tree, FlatTo, Inserted;
    var all := Inserted(v.s[l].items + v.s[r].items, slot, x);
    assert w.s[l].items == all[..m];
  }

  lemma SharedParts(v: View, w: View, l: Node, r: Node, slot: nat, x: Item, m: nat)
    requires Shared(v, w, l, r, slot, x, m)
    ensures l in v.s && r in v.s && slot <= |v.s[l].items + v.s[r].items|
  {
    hide Tree, Inserted, Put;
  }

  lemma SharedContents(v: View, w: View, l: Node, r: Node, slot: nat, x: Item, m: nat)
    requires Shared(v, w, l, r, slot, x, m)
    ensures |FlatTo(v.s, v.chain, v.s[l].lo)| + slot <= |Contents(v)|
    ensures Contents(w) == Inserted(Contents(v), |FlatTo(v.s, v.chain, v.s[l].lo)| + slot, x)
    ensures slot < |v.s[l].items + v.s[r].items| ==> TopKept(v, w, v.s[l].lo + 2, v.s[l].lo + 2)
  {
    hide *;
    SharedShape(v, w, l, r, slot, x, m);
    SharedFlat(v, w, l, r, slot, x, m);
    SharedParts(v, w, l, r, slot, x, m);
    var j, mid := v.s[l].lo, v.s[l].items + v.s[r].items;
    WindowInserted(v, w, j, j + 2, j + 2, mid, slot, x);
  }

  lemma SharedOk(v: View, w: View, l: Node, r: Node, slot: nat, x: Item, m: nat)
    requires Shared(v, w, l, r, slot, x, m) && Keys(v, Whole, NoSkip)
    requires slot == |v.s[l].items + v.s[r].items| ==> v.s[l].lo + 2 == |v.chain|
    ensures Tree(w, Whole) && Keys(w, Whole, v.s[l].lo + 1)
  {
    SharedShape(v, w, l, r, slot, x, m);
    SharedContents(v, w, l, r, slot, x, m);
    hide Tree, FlatTo, HeadSame, RestSame, TopKept, Inserted, Contents, SameShape, Keys;
    ItemsKeys(v, w, v.s[l].lo, v.s[l].lo + 2, v.s[l].lo + 1);
  }

  lemma SharedFill(v: View, w: View, l: Node, r: Node, slot: nat, x: Item, m: nat, c: Capacity)
    requires Shared(v, w, l, r, slot, x, m) && Fill(v, c, Whole, null)
    requires c.leaf / 2 <= m && c.leaf / 2 + m <= |v.s[l].items + v.s[r].items| + 1
      && m < |v.s[l].items + v.s[r].items| + 1
    ensures Fill(w, c, Whole, null)
  {
    hide Tree;
    forall n | n in w.s ensures FillOk(w, c, null, n) {
      assert FillOk(v, c, null, n);
    }
  }

  // ---------- the leaf is cut in two

  ghost predicate CutIn(v: View, w: View, a: Node, b: Node, slot: nat, x: Item, m: nat)
  {
    && Tree(v, Whole) && IsLeafOf(v, a) && slot <= |v.s[a].items| && 0 < m <= |v.s[a].items| && LeafCut(v, w, a, b)
    && (forall n :: n in v.s && n != a ==> n in w.s && w.s[n].items == v.s[n].items)
    && a in w.s && b in w.s && w.s[a].items == Inserted(v.s[a].items, slot, x)[..m]
      && w.s[b].items == Inserted(v.s[a].items, slot, x)[m..]
  }

  lemma CutWindow(v: View, w: View, a: Node, b: Node, slot: nat, x: Item, m: nat)
    requires CutIn(v, w, a, b, slot, x, m)
    ensures var j := v.s[a].lo; HeadSame(v, w, j) && RestSame(v, w, j + 1, j + 2)
  {
    var j := v.s[a].lo;
    forall q | 0 <= q < |v.chain| && q != j ensures v.chain[q] in v.s && v.chain[q] != a && v.chain[q] in w.s {
      ChainNode(v, Whole, q);
    }
    hide Tree, Inserted;
    forall q: nat {:trigger SameAt(v.s, w.s, v.chain, w.chain, j + 1, j + 2, q)} | q < |v.chain| - (j + 1)
      ensures SameAt(v.s, w.s, v.chain, w.chain, j + 1, j + 2, q)
    {
    }
  }

  lemma CutOk(v: View, w: View, a: Node, b: Node, slot: nat, x: Item, m: nat, k: int)
    requires CutIn(v, w, a, b, slot, x, m) && Keys(v, Whole, NoSkip)
    requires slot == |v.s[a].items| ==> v.s[a].lo + 1 == |v.chain|
    requires w.s[a].items != [] ==> k == w.s[a].items[|w.s[a].items| - 1].key
    ensures Tree(w, Split(a, v.s[a].lo + 1, k, b)) && Keys(w, Split(a, v.s[a].lo + 1, k, b), NoSkip)
    ensures |FlatTo(v.s, v.chain, v.s[a].lo)| + slot <= |Contents(v)|
    ensures Contents(w) == Inserted(Contents(v), |FlatTo(v.s, v.chain, v.s[a].lo)| + slot, x)
  {
    hide *;
    CutParts(v, w, a, b, slot, x, m);
    var j := v.s[a].lo;
    CutWindow(v, w, a, b, slot, x, m);
    LeafCutTree(v, w, a, b, k);
    CutFlat(v, w, a, b, slot, x, m);
    CutEnds(v, w, a, m, slot, x, k);
    WindowInserted(v, w, j, j + 1, j + 2, v.s[a].items, slot, x);
    CutKeys(v, w, a, b, k);
  }

  lemma CutParts(v: View, w: View, a: Node, b: Node, slot: nat, x: Item, m: nat)
    requires CutIn(v, w, a, b, slot, x, m)
    ensures Tree(v, Whole) && a in v.s && slot <= |v.s[a].items| && 0 < m <= |v.s[a].items| && LeafCut(v, w, a, b)
    ensures a in w.s && w.s[a].items == Inserted(v.s[a].items, slot, x)[..m]
  {
    hide Tree, LeafCut, Inserted;
  }

  // the contents up to the leaf, and up to the new one
  lemma CutFlat(v: View, w: View, a: Node, b: Node, slot: nat, x: Item, m: nat)
    requires CutIn(v, w, a, b, slot, x, m)
    ensures var j, all := v.s[a].lo, Inserted(v.s[a].items, slot, x);
      && FlatTo(v.s, v.chain, j + 1) == FlatTo(v.s, v.chain, j) + v.s[a].items
      && FlatTo(w.s, w.chain, j + 1) == FlatTo(w.s, w.chain, j) + all[..m]
      && FlatTo(w.s, w.chain, j + 2) == FlatTo(w.s, w.chain, j) + all
  {
    hide Tree, Inserted;
    var j, all := v.s[a].lo, Inserted(v.s[a].items, slot, x);
    assert w.chain[j] == a && w.chain[j + 1] == b && v.chain[j] == a;
    assert all[..m] + all[m..] == all;
    assert FlatTo(w.s, w.chain, j) + all[..m] + all[m..] == FlatTo(w.s, w.chain, j) + (all[..m] + all[m..]);
  }

  lemma CutEnds(v: View, w: View, a: Node, m: nat, slot: nat, x: Item, k: int)
    requires a in v.s && a in w.s && 0 < m && w.s[a].items != [] && k == w.s[a].items[|w.s[a].items| - 1].key
    requires FlatTo(w.s, w.chain, v.s[a].lo + 1) == FlatTo(w.s, w.chain, v.s[a].lo) + w.s[a].items
    ensures EndsWith(w.s, w.chain, v.s[a].lo + 1, k)
  {
    hide FlatTo;
  }

  lemma CutFill(v: View, w: View, a: Node, b: Node, slot: nat, x: Item, m: nat, k: int, c: Capacity)
    requires CutIn(v, w, a, b, slot, x, m) && Fill(v, c, Whole, null)
    requires m == (c.leaf + 1) / 2 && |v.s[a].items| == c.leaf && c.leaf >= 2
    ensures Fill(w, c, Split(a, v.s[a].lo + 1, k, b), null)
  {
    assert v.root in v.s && b != v.root;
    hide Tree;
    forall n | n in w.s ensures FillOk(w, c, null, n) {
      if n != b {
        assert FillOk(v, c, null, n) && Kept(v.s, w.s, n);
      }
    }
  }
}
