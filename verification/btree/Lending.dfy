// A tree on which line 609 of BTree.hpp as written loses items: leaves -1 0 1 2 and 10 11 of capacity four.
// Inserting 1, 2, 3, 10, 11, 0 and -1 and deleting 3 leaves these keys in these leaves.
module BTreeLending {
  import opened BTreeArrays
  import opened BTreeNodes
  import opened BTreeStructure
  import opened BTreeSearch
  import opened BTreeInsertSteps
  import opened BTreeTree

  function LeftItems(): seq<Item> { [Item(-1, 0), Item(0, 0), Item(1, 0), Item(2, 0)] }

  function RightItems(): seq<Item> { [Item(10, 0), Item(11, 0)] }

  lemma Lengths()
    ensures |LeftItems()| == 4 && |RightItems()| == 2
  {
  }

  const Capacities := Capacity(4, 2)

  ghost function Records(l: Node, r: Node, b: Node): Store
  {
    map[l := Rec(0, b, 0, r, null, LeftItems(), [], [], 0, 1),
        r := Rec(0, b, 1, null, l, RightItems(), [], [], 1, 2),
        b := Rec(1, null, 0, null, null, [], [2], [l, r], 0, 2)]
  }

  ghost predicate Apart(l: Node, r: Node, b: Node) { l != r && l != b && r != b }

  lemma ContentsAre(v: View, l: Node, r: Node, b: Node)
    requires Apart(l, r, b) && v == View(Records(l, r, b), b, [l, r])
    ensures FlatTo(v.s, v.chain, 1) == LeftItems() && Contents(v) == LeftItems() + RightItems()
    ensures Ordered(Contents(v), true) && |Contents(v)| == 6
  {
    hide LeftItems, RightItems, Ordered;
    assert FlatTo(v.s, v.chain, 0) == [];
    assert FlatTo(v.s, v.chain, 1) == LeftItems();
    Lengths();
    InOrderOf(Contents(v));
  }

  lemma InOrderOf(q: seq<Item>)
    requires q == LeftItems() + RightItems()
    ensures Ordered(q, true)
  {
    assert q == [Item(-1, 0), Item(0, 0), Item(1, 0), Item(2, 0), Item(10, 0), Item(11, 0)];
  }

  lemma TreeIs(v: View, l: Node, r: Node, b: Node)
    requires Apart(l, r, b) && v == View(Records(l, r, b), b, [l, r])
    ensures Tree(v, Whole)
  {
    hide FlatTo, LeftItems, RightItems;
    assert v.s.Keys == {l, r, b};
    assert ParentOk(v.s, l) && ParentOk(v.s, r);
    assert NodeOk(v, Whole, l) && NodeOk(v, Whole, r) && NodeOk(v, Whole, b);
    assert ChildOk(v.s, b, 0) && ChildOk(v.s, b, 1);
    assert SlotOk(v, Whole, 0) && SlotOk(v, Whole, 1);
  }

  lemma RestIs(v: View, l: Node, r: Node, b: Node)
    requires Apart(l, r, b) && v == View(Records(l, r, b), b, [l, r])
    ensures Chained(v.s, v.chain) && Fill(v, Capacities, Whole, null) && Keys(v, Whole, NoSkip) && Branches(v.s) == {b}
  {
    ContentsAre(v, l, r, b);
    assert v.s.Keys == {l, r, b};
    assert NextOk(v.s, v.chain, 0) && NextOk(v.s, v.chain, 1);
    assert KeyOk(v, b, 0);
    hide FlatTo;
  }

  lemma GoodIs(v: View, l: Node, r: Node, b: Node)
    requires Apart(l, r, b) && v == View(Records(l, r, b), b, [l, r])
    ensures Good(v, Capacities, Whole, null) && |Branches(v.s)| == 1
  {
    hide Tree, Chained, Fill, Keys, Branches, Records;
    TreeIs(v, l, r, b);
    RestIs(v, l, r, b);
  }

  lemma SnapIs(nodes: set<Node>, l: Node, r: Node, b: Node)
    requires Apart(l, r, b) && nodes == {l, r, b}
    requires l.Record() == Records(l, r, b)[l] && r.Record() == Records(l, r, b)[r] && b.Record() == Records(l, r, b)[b]
    ensures Snap(nodes) == Records(l, r, b)
  {
    hide LeftItems, RightItems;
  }

  // the two leaves and the branch above them
  ghost predicate Joined(l: Node, r: Node, b: Node)
    reads l, r, b
  {
    && Apart(l, r, b)
    && l.level == 0 && l.size == 4 && |l.items| == 4 && l.items[..4] == LeftItems() && l.keys == [] && l.childs == []
      && l.parent == b && l.slot == 0
    && r.level == 0 && r.size == 2 && |r.items| == 4 && r.items[..2] == RightItems() && r.keys == [] && r.childs == []
    && r.parent == b && r.slot == 1 && l.next == r && l.prev == null && r.next == null && r.prev == l
    && b.level == 1 && b.size == 1 && b.items == [] && |b.keys| == 2 && b.keys[..1] == [2] && |b.childs| == 3
      && b.childs[..2] == [l, r]
    && b.parent == null && b.slot == 0 && b.next == null && b.prev == null
    && l.lo == 0 && l.hi == 1 && r.lo == 1 && r.hi == 2 && b.lo == 0 && b.hi == 2
  }

  method NewLeaf(q: seq<Item>, ghost lo: nat) returns (n: Node)
    requires |q| <= 4
    ensures fresh(n) && n.level == 0 && n.size == |q| && |n.items| == 4 && n.items[..|q|] == q && n.keys == []
      && n.childs == []
    ensures n.next == null && n.prev == null && n.lo == lo && n.hi == lo + 1
  {
    n := new Node.Leaf(4);
    n.items, n.size := q + n.items[|q|..], |q|;
    n.lo, n.hi := lo, lo + 1;
  }

  method BuildNodes() returns (l: Node, r: Node, b: Node)
    ensures fresh(l) && fresh(r) && fresh(b) && Joined(l, r, b)
  {
    hide LeftItems, RightItems, Node.Record, Snap;
    Lengths();
    l := NewLeaf(LeftItems(), 0);
    r := NewLeaf(RightItems(), 1);
    b := new Node.Above(1, 2, 2, l, r);
    l.next, r.prev := r, l;
    l.SetParent(b, 0);
    r.SetParent(b, 1);
    b.lo, b.hi := 0, 2;
  }

  method Build() returns (tree: BTree)
    ensures fresh(tree) && fresh(tree.nodes) && tree.Valid() && tree.unique && tree.asWritten
    ensures tree.Items() == LeftItems() + RightItems() && tree.LendsFor(10)
  {
    hide *;
    var l, r, b := BuildNodes();
    CapacitiesAre();
    tree := new BTree(Capacities, true, true);
    tree.root, tree.firstLeaf, tree.size, tree.leavesCount, tree.branchesCount := b, l, 6, 2, 1;
    tree.nodes, tree.chain := {l, r, b}, [l, r];
    Built(tree, l, r, b);
  }

  lemma CapacitiesAre()
    ensures Capacities.leaf == 4 && Capacities.branch == 2
  {
  }

  lemma Built(tree: BTree, l: Node, r: Node, b: Node)
    requires tree.capacity == Capacities && tree.unique && tree.asWritten
    requires tree.root == b && tree.firstLeaf == l && tree.size == 6 && tree.leavesCount == 2 && tree.branchesCount == 1
    requires tree.nodes == {l, r, b} && tree.chain == [l, r]
    requires Joined(l, r, b)
    ensures tree.Valid() && tree.Items() == LeftItems() + RightItems() && tree.LendsFor(10)
  {
    RecordsAre(l, r, b);
    SnapIs(tree.nodes, l, r, b);
    assert Sized(tree.nodes, tree.capacity) by {
      assert l.Buffers(tree.capacity) && r.Buffers(tree.capacity) && b.Buffers(tree.capacity);
    }
    hide *;
    tree.ViewIs();
    ContentsAre(tree.V(), l, r, b);
    GoodIs(tree.V(), l, r, b);
    tree.Closed(Whole, null);
    tree.ValidParts();
    tree.ItemsParts();
    HoldsTen(tree, l, r, b);
  }

  lemma RecordsAre(l: Node, r: Node, b: Node)
    requires Joined(l, r, b)
    ensures l.Record() == Records(l, r, b)[l] && r.Record() == Records(l, r, b)[r] && b.Record() == Records(l, r, b)[b]
  {
  }

  lemma HoldsTen(tree: BTree, l: Node, r: Node, b: Node)
    requires tree.Valid() && tree.capacity == Capacities && l in tree.nodes && r in tree.nodes && b in tree.nodes
      && l.size == 4
    requires r.level == 0 && r.size == 2 && |r.items| == 4 && r.items[..2] == RightItems() && r.parent == b
      && r.slot == 1
    requires |b.childs| == 3 && b.childs[..2] == [l, r]
    ensures tree.LendsFor(10)
  {
    assert r.items[0] == r.items[..2][0] && b.childs[0] == b.childs[..2][0];
    assert tree.Holds(r, 0, 10) && tree.Lends(r);
  }

  // Taking out 10 does not leave -1 0 1 2 11.
  method DeletionLoses() returns (tree: BTree, deleted: bool)
    ensures fresh(tree) && deleted
    ensures !(tree.Valid() && tree.Items() == LeftItems() + [Item(11, 0)])
  {
    hide *;
    tree := Build();
    ghost var before := tree.Items();
    TenAt(before);
    ghost var pos;
    deleted, pos := tree.Delete(10);
    OnlyTen(before, pos);
  }

  lemma TenAt(q: seq<Item>)
    requires q == LeftItems() + RightItems()
    ensures HasKey(q, 10)
  {
    assert q[4].key == 10;
  }

  lemma OnlyTen(q: seq<Item>, pos: nat)
    requires q == LeftItems() + RightItems() && pos < |q| && q[pos].key == 10
    ensures Removed(q, pos) == LeftItems() + [Item(11, 0)]
  {
    assert pos == 4;
  }
}
