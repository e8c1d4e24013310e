// Descending by the separators ends in the only leaf that can hold the key.
module BTreeSearch {
  import opened BTreeArrays
  import opened BTreeNodes
  import opened BTreeStructure
  import opened BTreeContents
  import opened BTreeLeafInserts

  ghost predicate Below(q: seq<Item>, key: int) { forall i :: 0 <= i < |q| ==> q[i].key < key }

  ghost predicate AtMost(q: seq<Item>, key: int) { forall i :: 0 <= i < |q| ==> q[i].key <= key }

  // every leaf holds an item
  ghost predicate Full(v: View)
  {
    forall j {:trigger v.chain[j]} :: 0 <= j < |v.chain| ==> v.chain[j] in v.s && |v.s[v.chain[j]].items| > 0
  }

  ghost function LastKey(v: View, h: nat): int
  {
    var q := FlatTo(v.s, v.chain, h);
    if q == [] then 0 else q[|q| - 1].key
  }

  ghost predicate Sane(v: View, unique: bool)
  {
    Tree(v, Whole) && Keys(v, Whole, NoSkip) && Full(v) && Ordered(Contents(v), unique)
  }

  // if key is anywhere, then below n; once a separator equal to key was met, n ends with key
  ghost predicate Range(v: View, n: Node, key: int)
  {
    && n in v.s && v.s[n].hi <= |v.chain| && AtMost(FlatTo(v.s, v.chain, v.s[n].lo), key)
    && (v.s[n].hi < |v.chain| ==> key <= LastKey(v, v.s[n].hi))
    && (Below(FlatTo(v.s, v.chain, v.s[n].lo), key) || LastKey(v, v.s[n].hi) == key)
  }

  lemma FlatFull(v: View, h: nat)
    requires Full(v) && 0 < h <= |v.chain|
    ensures FlatTo(v.s, v.chain, h) != []
  {
    assert v.chain[h - 1] in v.s;
  }

  lemma LastMono(v: View, a: nat, b: nat)
    requires Full(v) && Ordered(Contents(v), false) && 0 < a <= b <= |v.chain|
    ensures LastKey(v, a) <= LastKey(v, b)
    ensures FlatTo(v.s, v.chain, a) != [] && FlatTo(v.s, v.chain, b) != []
  {
    FlatFull(v, a);
    FlatFull(v, b);
    FlatMono(v.s, v.chain, a, b);
    FlatMono(v.s, v.chain, a, |v.chain|);
    FlatMono(v.s, v.chain, b, |v.chain|);
    var c, p, q := Contents(v), FlatTo(v.s, v.chain, a), FlatTo(v.s, v.chain, b);
    assert p[|p| - 1] == c[|p| - 1] && q[|q| - 1] == c[|q| - 1];
  }

  // the items of the first a leaves are bounded by the last key of the first b leaves
  lemma LastBounds(v: View, a: nat, b: nat, key: int)
    requires Full(v) && Ordered(Contents(v), false) && a <= b <= |v.chain| && 0 < b
    ensures LastKey(v, b) < key ==> Below(FlatTo(v.s, v.chain, a), key)
    ensures LastKey(v, b) <= key ==> AtMost(FlatTo(v.s, v.chain, a), key)
  {
    FlatFull(v, b);
    FlatMono(v.s, v.chain, a, b);
    FlatMono(v.s, v.chain, b, |v.chain|);
    var c, p, q := Contents(v), FlatTo(v.s, v.chain, a), FlatTo(v.s, v.chain, b);
    hide FlatTo, Contents, Full;
    forall i | 0 <= i < |p| ensures p[i].key <= q[|q| - 1].key {
      assert p[i] == q[i] && q[i] == c[i] && q[|q| - 1] == c[|q| - 1];
    }
  }

  lemma Weaken(q: seq<Item>, unique: bool)
    requires Ordered(q, unique)
    ensures Ordered(q, false)
  {
  }

  lemma RangeRoot(v: View, key: int)
    requires Tree(v, Whole)
    ensures Range(v, v.root, key)
  {
    NodeAt(v, Whole, v.root);
  }

  // separators bound what lies on both sides of child i
  lemma Separators(v: View, b: Node, i: nat, unique: bool)
    requires Sane(v, unique) && b in v.s && v.s[b].level > 0 && i < |v.s[b].childs|
    ensures |v.s[b].childs| == |v.s[b].keys| + 1 && v.s[b].childs[i] in v.s
    ensures var c := v.s[v.s[b].childs[i]];
      && v.s[b].lo <= c.lo < c.hi <= v.s[b].hi <= |v.chain|
      && (i < |v.s[b].keys| ==> LastKey(v, c.hi) == v.s[b].keys[i])
      && (i == |v.s[b].keys| ==> c.hi == v.s[b].hi)
      && (i > 0 ==> 0 < c.lo && LastKey(v, c.lo) == v.s[b].keys[i - 1])
      && (i == 0 ==> c.lo == v.s[b].lo)
  {
    NodeAt(v, Whole, b);
    LinkAt(v, Whole, b, i);
    ChildrenIn(v, Whole, b);
    ChildOrder(v, Whole, b, i, |v.s[b].keys|);
    ChildOrder(v, Whole, b, 0, i);
    NodeSpan(v, Whole, v.s[b].childs[i]);
    NodeSpan(v, Whole, v.s[b].childs[0]);
    NodeSpan(v, Whole, v.s[b].childs[|v.s[b].keys|]);
    if i > 0 {
      LinkAt(v, Whole, b, i - 1);
      NodeSpan(v, Whole, v.s[b].childs[i - 1]);
      assert KeyDue(v, Whole, NoSkip, b, i - 1) && KeyOk(v, b, i - 1);
      FlatFull(v, v.s[v.s[b].childs[i]].lo);
    }
    hide Nodes, Links, Slots, FlatTo;
    if i < |v.s[b].keys| {
      assert KeyDue(v, Whole, NoSkip, b, i) && KeyOk(v, b, i);
      FlatFull(v, v.s[v.s[b].childs[i]].hi);
    }
  }

  lemma RangeDown(v: View, b: Node, i: nat, key: int, found: bool, unique: bool)
    requires Sane(v, unique) && b in v.s && v.s[b].level > 0 && Range(v, b, key) && Hit(v.s[b].keys, key, i, found)
    ensures |v.s[b].childs| == |v.s[b].keys| + 1 && Range(v, v.s[b].childs[i], key)
  {
    NodeAt(v, Whole, b);
    Separators(v, b, i, unique);
    Weaken(Contents(v), unique);
    var c := v.s[v.s[b].childs[i]];
    hide Tree, Keys, FlatTo, Contents, LastKey, Below, AtMost, Full, Ordered;
    LastBounds(v, c.lo, c.hi, key);
    if c.lo > 0 { LastBounds(v, c.lo, c.lo, key); }
    LastMono(v, c.hi, v.s[b].hi);
    BelowAtMost(FlatTo(v.s, v.chain, c.lo), key);
  }

  lemma BelowAtMost(q: seq<Item>, key: int)
    ensures Below(q, key) ==> AtMost(q, key)
  {
  }

  // the contents around leaf a
  lemma AroundLeaf(v: View, a: Node)
    requires Tree(v, Whole) && IsLeafOf(v, a)
    ensures var j := v.s[a].lo; var c, p := Contents(v), FlatTo(v.s, v.chain, j);
      && FlatTo(v.s, v.chain, j + 1) == p + v.s[a].items
      && |p| + |v.s[a].items| <= |c| && c[..|p|] == p && c[|p|..|p| + |v.s[a].items|] == v.s[a].items
  {
    var j := v.s[a].lo;
    var c, p, q := Contents(v), FlatTo(v.s, v.chain, j), FlatTo(v.s, v.chain, j + 1);
    FlatMono(v.s, v.chain, j, |v.chain|);
    FlatMono(v.s, v.chain, j + 1, |v.chain|);
    hide Tree;
    assert q == p + v.s[a].items;
    assert c[|p|..|p| + |v.s[a].items|] == c[..|q|][|p|..];
  }

  lemma LeafSorted(v: View, a: Node, unique: bool)
    requires Sane(v, unique) && IsLeafOf(v, a)
    ensures Ordered(v.s[a].items, unique)
  {
    AroundLeaf(v, a);
    var c, p := Contents(v), FlatTo(v.s, v.chain, v.s[a].lo);
    hide Tree, Keys, FlatTo, Contents, Full;
    forall i, k | 0 <= i < k < |v.s[a].items| ensures c[|p| + i] == v.s[a].items[i] && c[|p| + k] == v.s[a].items[k] {
    }
  }

  // the order of all contents around slot i of the leaf reached
  lemma AtSlot(v: View, a: Node, i: nat, key: int, found: bool, unique: bool)
    requires Sane(v, unique) && IsLeafOf(v, a) && Range(v, a, key) && Hit(ItemKeys(v.s[a].items), key, i, found)
    ensures var c, pos := Contents(v), |FlatTo(v.s, v.chain, v.s[a].lo)| + i;
      && pos <= |c| && i <= |v.s[a].items|
      && (found ==> pos < |c| && i < |v.s[a].items| && c[pos].key == key && c[pos] == v.s[a].items[i])
      && (forall m :: 0 <= m < pos ==> c[m].key <= key) && (forall m :: pos <= m < |c| ==> key <= c[m].key)
      && (!found ==> (forall m :: 0 <= m < pos ==> c[m].key < key) && (forall m :: pos <= m < |c| ==> key < c[m].key))
      && (i == |v.s[a].items| ==> v.s[a].lo + 1 == |v.chain|)
  {
    AroundLeaf(v, a);
    Weaken(Contents(v), unique);
    FlatFull(v, v.s[a].lo + 1);
    var c, p, q := Contents(v), FlatTo(v.s, v.chain, v.s[a].lo), v.s[a].items;
    assert v.chain[v.s[a].lo] == a && |q| > 0;
    var l := LastKey(v, v.s[a].hi);
    assert l == q[|q| - 1].key;
    hide Tree, Keys, FlatTo, Full, LastKey, Contents;
    AtSlotOrder(c, p, q, i, key, found, v.s[a].hi < |v.chain|);
  }

  lemma AtSlotOrder(c: seq<Item>, p: seq<Item>, q: seq<Item>, i: nat, key: int, found: bool, more: bool)
    requires Ordered(c, false) && |p| + |q| <= |c| && c[..|p|] == p && c[|p|..|p| + |q|] == q && |q| > 0
    requires AtMost(p, key) && (more ==> key <= q[|q| - 1].key) && (!more ==> |c| == |p| + |q|)
    requires Below(p, key) || q[|q| - 1].key == key
    requires Hit(ItemKeys(q), key, i, found)
    ensures var pos := |p| + i;
      && pos <= |c| && i <= |q| && (found ==> pos < |c| && i < |q| && c[pos].key == key && c[pos] == q[i])
      && (forall m :: 0 <= m < pos ==> c[m].key <= key) && (forall m :: pos <= m < |c| ==> key <= c[m].key)
      && (!found ==> (forall m :: 0 <= m < pos ==> c[m].key < key) && (forall m :: pos <= m < |c| ==> key < c[m].key))
      && (i == |q| ==> !more)
  {
    var ks := ItemKeys(q);
    var pos := |p| + i;
    assert ks[|q| - 1] == q[|q| - 1].key;
    assert c[|p| + |q| - 1] == q[|q| - 1];
    if found {
      assert c[pos] == q[i] && ks[i] == key;
    } else {
      forall m | 0 <= m < pos ensures c[m].key < key {
        if m < |p| { assert c[m] == p[m]; } else { assert c[m] == q[m - |p|] && ks[m - |p|] < key; }
      }
      forall m | pos <= m < |c| ensures key < c[m].key {
        if m < |p| + |q| { assert c[m] == q[m - |p|] && key < ks[m - |p|]; }
      }
    }
  }

  lemma InsertedOrdered(c: seq<Item>, pos: nat, x: Item, unique: bool)
    requires Ordered(c, unique) && pos <= |c|
    requires forall m :: 0 <= m < pos ==> if unique then c[m].key < x.key else c[m].key <= x.key
    requires forall m :: pos <= m < |c| ==> if unique then x.key < c[m].key else x.key <= c[m].key
    ensures Ordered(Inserted(c, pos, x), unique)
  {
    var d := Inserted(c, pos, x);
    forall i, j | 0 <= i < j < |d| ensures if unique then d[i].key < d[j].key else d[i].key <= d[j].key {
      InsertedAt(c, pos, x, i);
      InsertedAt(c, pos, x, j);
    }
  }

  // separators of one branch are sorted
  lemma KeysSorted(v: View, b: Node, unique: bool)
    requires Sane(v, unique) && b in v.s && v.s[b].level > 0
    ensures forall i, j :: 0 <= i <= j < |v.s[b].keys| ==> v.s[b].keys[i] <= v.s[b].keys[j]
  {
    NodeAt(v, Whole, b);
    Weaken(Contents(v), unique);
    forall i, j | 0 <= i <= j < |v.s[b].keys| ensures v.s[b].keys[i] <= v.s[b].keys[j] {
      Separators(v, b, i, unique);
      Separators(v, b, j, unique);
      ChildrenIn(v, Whole, b);
      ChildOrder(v, Whole, b, i, j);
      LastMono(v, v.s[v.s[b].childs[i]].hi, v.s[v.s[b].childs[j]].hi);
    }
  }

  lemma FullOk(v: View, c: Capacity)
    requires Tree(v, Whole) && Fill(v, c, Whole, null) && c.leaf >= 2
    ensures Full(v)
  {
    hide Nodes, Links;
    forall j | 0 <= j < |v.chain| ensures v.chain[j] in v.s && |v.s[v.chain[j]].items| > 0 {
      ChainNode(v, Whole, j);
      assert FillOk(v, c, null, v.chain[j]);
    }
  }

  // what a search says about position pos of the contents
  ghost predicate Spot(c: seq<Item>, pos: nat, key: int, found: bool)
  {
    && pos <= |c| && (found ==> pos < |c| && c[pos].key == key)
    && (forall m :: 0 <= m < pos ==> c[m].key <= key) && (forall m :: pos <= m < |c| ==> key <= c[m].key)
    && (!found ==> (forall m :: 0 <= m < pos ==> c[m].key < key) && (forall m :: pos <= m < |c| ==> key < c[m].key))
  }

  ghost predicate HasKey(c: seq<Item>, key: int) { exists i :: 0 <= i < |c| && c[i].key == key }

  lemma SpotHas(c: seq<Item>, pos: nat, key: int, found: bool)
    requires Spot(c, pos, key, found)
    ensures found <==> HasKey(c, key)
  {
  }

  lemma SpotOrdered(c: seq<Item>, pos: nat, key: int, found: bool, unique: bool, x: Item)
    requires Spot(c, pos, key, found) && Ordered(c, unique) && x.key == key && !(found && unique)
    ensures Ordered(Inserted(c, pos, x), unique)
  {
    InsertedOrdered(c, pos, x, unique);
  }

  // the leaf reached, and the slot in it; an empty tree is a single empty leaf
  lemma Spotted(v: View, c: Capacity, under: Node?, a: Node, i: nat, key: int, found: bool, unique: bool)
    requires Tree(v, Whole) && Keys(v, Whole, NoSkip) && Fill(v, c, Whole, under) && c.leaf >= 2
      && Ordered(Contents(v), unique)
    requires IsLeafOf(v, a) && Range(v, a, key) && Hit(ItemKeys(v.s[a].items), key, i, found)
    requires under != null ==> under == a && a == v.root && v.s[a].items == []
    ensures Spot(Contents(v), |FlatTo(v.s, v.chain, v.s[a].lo)| + i, key, found) && i <= |v.s[a].items|
    ensures found ==> i < |v.s[a].items| && Contents(v)[|FlatTo(v.s, v.chain, v.s[a].lo)| + i] == v.s[a].items[i]
    ensures i == |v.s[a].items| ==> v.s[a].lo + 1 == |v.chain|
  {
    if under == null {
      hide Tree, Keys, FlatTo, Contents;
      FullOk(v, c);
      AtSlot(v, a, i, key, found, unique);
    } else {
      NodeAt(v, Whole, a);
      AroundLeaf(v, a);
    }
  }

  // the slot a search from n ends at, if it holds key
  ghost function Reached(s: Store, n: Node, key: int): (Node?, nat)
    requires n in s
    decreases s[n].level
  {
    if s[n].level == 0 then
      var (i, found) := Probe(ItemKeys(s[n].items), key, 0, |s[n].items|);
      (if found then n else null, i)
    else
      var (i, found) := Probe(s[n].keys, key, 0, |s[n].keys|);
      if i < |s[n].childs| && s[n].childs[i] in s
          && s[s[n].childs[i]].level < s[n].level then Reached(s, s[n].childs[i], key)
      else (null, 0)
  }

  lemma ReachedLeaf(s: Store, n: Node, key: int, i: nat, found: bool)
    requires n in s && s[n].level == 0 && (i, found) == Probe(ItemKeys(s[n].items), key, 0, |s[n].items|)
    ensures Reached(s, n, key) == (if found then n else null, i)
  {
  }

  lemma ReachedBelow(s: Store, n: Node, key: int, i: nat, found: bool)
    requires n in s && s[n].level > 0 && (i, found) == Probe(s[n].keys, key, 0, |s[n].keys|)
    requires i < |s[n].childs| && s[n].childs[i] in s && s[s[n].childs[i]].level < s[n].level
    ensures Reached(s, n, key) == Reached(s, s[n].childs[i], key)
  {
  }

  lemma ItemsSorted(v: View, c: Capacity, under: Node?, a: Node, unique: bool)
    requires Tree(v, Whole) && Keys(v, Whole, NoSkip) && Fill(v, c, Whole, under) && c.leaf >= 2
      && Ordered(Contents(v), unique)
    requires IsLeafOf(v, a) && (under != null ==> v.s[a].items == [])
    ensures forall i, j :: 0 <= i <= j < |v.s[a].items| ==> v.s[a].items[i].key <= v.s[a].items[j].key
  {
    if under == null {
      hide Tree, Keys, FlatTo, Contents;
      FullOk(v, c);
      LeafSorted(v, a, unique);
    }
  }

  lemma BranchSorted(v: View, c: Capacity, b: Node, unique: bool)
    requires Tree(v, Whole) && Keys(v, Whole, NoSkip) && Fill(v, c, Whole, null) && c.leaf >= 2
      && Ordered(Contents(v), unique)
    requires b in v.s && v.s[b].level > 0
    ensures forall i, j :: 0 <= i <= j < |v.s[b].keys| ==> v.s[b].keys[i] <= v.s[b].keys[j]
  {
    hide Tree, Keys, FlatTo, Contents;
    FullOk(v, c);
    KeysSorted(v, b, unique);
  }

  lemma Descended(v: View, c: Capacity, b: Node, i: nat, key: int, found: bool, unique: bool)
    requires Tree(v, Whole) && Keys(v, Whole, NoSkip) && Fill(v, c, Whole, null) && c.leaf >= 2
      && Ordered(Contents(v), unique)
    requires b in v.s && v.s[b].level > 0 && Range(v, b, key) && Hit(v.s[b].keys, key, i, found)
    ensures i <= |v.s[b].keys| < |v.s[b].childs| && Range(v, v.s[b].childs[i], key)
    ensures var n := v.s[b].childs[i];
      n in v.s && v.s[n].parent == b && v.s[n].slot == i && v.s[n].level + 1 == v.s[b].level
  {
    hide Keys, FlatTo, Contents, Nodes, Slots;
    FullOk(v, c);
    RangeDown(v, b, i, key, found, unique);
    LinkAt(v, Whole, b, i);
  }
}
