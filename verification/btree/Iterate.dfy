// Walking the chain of leaves, and the set view of the tree.
module BTreeIterate {
  import opened BTreeNodes
  import opened BTreeArrays
  import opened BTreeStructure
  import opened BTreeSearch
  import opened BTreeTraversal
  import opened BTreeTree

  // ---------- the traversal by children

  // the leaves a descent from the root meets
  ghost function Leaves(tree: BTree): seq<Node>
    reads tree, tree.nodes
  {
    if tree.root == null || tree.root !in tree.nodes then [] else InOrder(tree.V().s, tree.root)
  }

  ghost function Walked(s: Store, leaves: seq<Node>): seq<Item> { FlatTo(s, leaves, |leaves|) }

  // The items of the tree are those of the leaves met by descending, and from firstLeaf the links `next` lead
  // through just these leaves in that order.
  lemma TraversalIs(tree: BTree)
    requires tree.Valid()
    ensures tree.root == null ==> Leaves(tree) == [] && tree.Items() == [] && tree.firstLeaf == null
    ensures tree.root != null ==>
              var q := Leaves(tree);
              && q != [] && q[0] == tree.firstLeaf && Chained(tree.V().s, q) && tree.Items() == Walked(tree.V().s, q)
  {
    hide *;
    tree.ValidParts();
    tree.ItemsParts();
    LeavesAre(tree);
    if tree.root != null {
      tree.Opened(Whole, null);
      tree.RootIn(Whole, null);
      ChainIsInOrder(tree.V());
      WalkedIs(tree.V());
    }
  }

  lemma LeavesAre(tree: BTree)
    ensures tree.root == null ==> Leaves(tree) == []
    ensures tree.root != null && tree.root in tree.nodes ==>
              tree.root in tree.V().s && Leaves(tree) == InOrder(tree.V().s, tree.root)
  {
    hide InOrder;
  }

  lemma WalkedIs(v: View)
    ensures Walked(v.s, v.chain) == Contents(v)
  {
    hide FlatTo;
  }

  class ConstIterator {
    var leaf: Node?
    var slot: nat

    constructor (leaf: Node?, slot: nat)
      ensures this.leaf == leaf && this.slot == slot
    {
      this.leaf, this.slot := leaf, slot;
    }

    // the iterator stands before item pos of the tree
    ghost predicate At(tree: BTree, pos: nat)
      reads this, tree, tree.nodes, if leaf == null then {} else {leaf}
    {
      tree.Valid() && if leaf == null then pos == |tree.Items()| else tree.root != null && tree.Stands(leaf, slot, pos)
    }

    predicate AtEnd()
      reads this
    {
      leaf == null
    }

    method Current(ghost tree: BTree, ghost pos: nat) returns (x: Item)
      requires At(tree, pos) && !AtEnd()
      ensures pos < |tree.Items()| && x == tree.Items()[pos]
    {
      hide BTree.Valid, BTree.Items;
      tree.StandsHere(leaf, slot, pos);
      x := leaf.items[slot];
    }

    // one item further; the end is never left
    method Advance(ghost tree: BTree, ghost pos: nat)
      requires At(tree, pos)
      modifies this
      ensures At(tree, if old(AtEnd()) then pos else pos + 1) && (old(AtEnd()) ==> AtEnd())
    {
      hide BTree.Valid, BTree.Items;
      if leaf == null {
        return;
      }
      tree.StandsHere(leaf, slot, pos);
      slot := slot + 1;
      if slot >= leaf.size {
        tree.StandsNext(leaf, pos);
        slot := 0;
        leaf := leaf.next;
      }
    }
  }

  lemma Ended(it: ConstIterator, tree: BTree, pos: nat)
    requires it.At(tree, pos)
    ensures it.AtEnd() ==> pos == |tree.Items()|
  {
  }

  method Begin(tree: BTree) returns (it: ConstIterator)
    requires tree.Valid()
    ensures fresh(it) && it.At(tree, 0)
  {
    if tree.root != null {
      tree.FirstStands();
    }
    it := new ConstIterator(tree.firstLeaf, 0);
  }

  lemma OneMoreKey(q: seq<Item>, r: seq<Item>, value: int, inserted: bool, pos: nat)
    requires inserted ==> pos <= |q| && r == Inserted(q, pos, Item(value, 0))
    requires !inserted ==> r == q && pos < |q| && q[pos].key == value
    ensures HasKey(r, value) && forall key :: key != value ==> (HasKey(r, key) <==> HasKey(q, key))
  {
    if inserted {
      assert r[pos].key == value;
      assert forall i :: 0 <= i < |q| ==> q[i] == r[if i < pos then i else i + 1];
      assert forall i :: 0 <= i < |r| && i != pos ==> r[i] == q[if i < pos then i else i - 1];
    }
  }

  class BTreeSet {
    var tree: BTree

    constructor (capacity: Capacity, asWritten: bool)
      requires capacity.leaf >= 2 && capacity.branch >= 2
      ensures fresh(tree) && tree.Valid() && tree.unique && tree.Items() == []
    {
      tree := new BTree(capacity, true, asWritten);
    }

    method Insert(value: int) returns (inserted: bool)
      requires tree.Valid() && tree.unique
      modifies tree, tree.nodes
      ensures tree.Valid() && tree == old(tree) && fresh(tree.nodes - old(tree.nodes))
      ensures inserted <==> !HasKey(old(tree.Items()), value)
      ensures HasKey(tree.Items(), value) && forall key ::
        key != value ==> (HasKey(tree.Items(), key) <==> HasKey(old(tree.Items()), key))
    {
      hide *;
      ghost var before := tree.Items();
      var at, atSlot, isNew, pos := tree.Insert(value);
      inserted := isNew;
      OneMoreKey(before, tree.Items(), value, isNew, pos);
    }

    // the functor is modelled by the items it is called with, in order
    method ForEach() returns (visited: seq<Item>)
      requires tree.Valid()
      ensures visited == tree.Items() && (tree.root != null ==> visited == Walked(tree.V().s, Leaves(tree)))
    {
      hide *;
      TraversalIs(tree);
      visited := [];
      var itr := Begin(tree);
      ghost var all := tree.Items();
      while !itr.AtEnd()
        invariant fresh(itr) && tree.Items() == all && itr.At(tree, |visited|) && |visited| <= |all|
          && visited == all[..|visited|]
        decreases |all| - |visited|
      {
        var x := itr.Current(tree, |visited|);
        itr.Advance(tree, |visited|);
        visited := visited + [x];
      }
      Ended(itr, tree, |visited|);
    }
  }
}
