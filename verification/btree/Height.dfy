// The height of a tree is logarithmic in its size.
module BTreeHeight {
  import opened BTreeNodes
  import opened BTreeStructure
  import BTreeNodeSteps
  import opened BTreeSearch
  import opened BTreeTree

  ghost function Pow(b: nat, e: nat): nat { if e == 0 then 1 else b * Pow(b, e - 1) }

  // the least number of items below a node of a level that is not the root
  ghost function Least(c: Capacity, level: nat): nat
  {
    if level == 0 then c.leaf / 2 else (c.branch / 2 + 1) * Least(c, level - 1)
  }

  lemma {:induction false} LeastIs(c: Capacity, level: nat)
    ensures Least(c, level) == Pow(c.branch / 2 + 1, level) * (c.leaf / 2)
  {
    if level > 0 {
      LeastIs(c, level - 1);
      var b, p, q := c.branch / 2 + 1, Pow(c.branch / 2 + 1, level - 1), c.leaf / 2;
      assert b * (p * q) == (b * p) * q;
    }
  }

  // the items before and at the end of the span of n
  ghost function Count(v: View, a: nat): nat { |FlatTo(v.s, v.chain, a)| }

  lemma {:induction false} RowItems(v: View, c: Capacity, b: Node, i: nat)
    requires Tree(v, Whole) && Fill(v, c, Whole, null) && b in v.s && i < |v.s[b].childs|
    requires v.s[b].level > 0
    ensures v.s[b].childs[i] in v.s && v.s[v.s[b].childs[i]].hi <= |v.chain|
    ensures Count(v, v.s[v.s[b].childs[i]].hi) >= Count(v, v.s[b].lo) + (i + 1) * Least(c, v.s[b].level - 1)
    decreases v.s[b].level, i, 1
  {
    LinkAt(v, Whole, b, i);
    NodeAt(v, Whole, b);
    var child := v.s[b].childs[i];
    NodeAt(v, Whole, child);
    RootHere(v, child);
    hide Nodes, Links, Slots, Fill, FlatTo;
    BelowNode(v, c, child);
    if i > 0 {
      LinkAt(v, Whole, b, i - 1);
      RowItems(v, c, b, i - 1);
      Distribute(i, Least(c, v.s[b].level - 1));
    }
  }

  lemma Distribute(i: nat, x: nat)
    ensures (i + 1) * x == i * x + x
  {
  }

  lemma RootHere(v: View, n: Node)
    requires Tree(v, Whole) && n in v.s && v.s[n].parent != null
    ensures n != v.root
  {
  }

  lemma {:induction false} BelowNode(v: View, c: Capacity, n: Node)
    requires Tree(v, Whole) && Fill(v, c, Whole, null) && n in v.s && n != v.root
    ensures v.s[n].hi <= |v.chain| && Count(v, v.s[n].hi) >= Count(v, v.s[n].lo) + Least(c, v.s[n].level)
    decreases v.s[n].level + 1, 0, 0
  {
    NodeAt(v, Whole, n);
    assert FillOk(v, c, null, n);
    if v.s[n].level == 0 {
      AroundLeaf(v, n);
    } else {
      var k := |v.s[n].keys|;
      hide Nodes, Links, Slots, Fill, FlatTo;
      RowItems(v, c, n, k);
      Grow(k + 1, c.branch / 2 + 1, Least(c, v.s[n].level - 1));
    }
  }

  lemma Grow(a: nat, b: nat, x: nat)
    requires b <= a
    ensures b * x <= a * x
  {
  }

  lemma RootItems(v: View, c: Capacity)
    requires Tree(v, Whole) && Fill(v, c, Whole, null) && v.root in v.s && v.s[v.root].level > 0
    ensures |Contents(v)| >= 2 * Least(c, v.s[v.root].level - 1)
  {
    NodeAt(v, Whole, v.root);
    assert FillOk(v, c, null, v.root);
    var k := |v.s[v.root].keys|;
    hide Nodes, Links, Slots, Fill;
    RowItems(v, c, v.root, k);
    Grow(k + 1, 2, Least(c, v.s[v.root].level - 1));
  }

  // A tree whose root is a branch of level h holds at least 2 * (B/2 + 1)^(h - 1) * (L/2) items.
  lemma HeightBound(tree: BTree)
    requires tree.Valid() && tree.root != null && tree.root.level > 0
    ensures tree.size >= 2 * (Pow(tree.capacity.branch / 2 + 1, tree.root.level - 1) * (tree.capacity.leaf / 2))
  {
    hide *;
    tree.ValidParts();
    tree.Opened(Whole, null);
    tree.RootIn(Whole, null);
    BTreeNodeSteps.SnapAt(tree.nodes, tree.root);
    RootItems(tree.V(), tree.capacity);
    LeastIs(tree.capacity, tree.root.level - 1);
  }
}
