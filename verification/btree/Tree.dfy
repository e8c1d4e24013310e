// The tree itself: insertion, search and deletion on the heap, each tied to the step lemmas on snapshots.
module BTreeTree {
  import opened BTreeArrays
  import opened BTreeNodes
  import opened BTreeStructure
  import opened BTreeRoots
  import opened BTreeOwners
  import opened BTreeLeaves
  import opened BTreeLeafInserts
  import opened BTreeSearch
  import opened BTreeGrowth
  import opened BTreeInsertSteps
  import opened BTreeNodeSteps
  import opened BTreeBranchSteps
  import opened BTreeTreeSteps
  import opened BTreeBranchBorrow
  import opened BTreeDeleteSteps
  import opened BTreeDeleteWrites
  import opened BTreeShrinking
  import opened BTreeTreeDeletes
  import opened BTreeLeafDeletes

  // the tree below a root, with its counters
  ghost predicate Sound(v: View, c: Capacity, h: Hole, under: Node?, leaves: nat, branches: nat, first: Node?)
  {
    Good(v, c, h, under) && leaves == |v.chain| && branches == |Branches(v.s)| && |v.chain| > 0 && first == v.chain[0]
  }

  // key stands at position pos now, or (in a set) stood there before
  ghost predicate Took(v: View, w: View, unique: bool, key: int, inserted: bool, pos: nat)
  {
    && (inserted <==> !(unique && HasKey(Contents(v), key)))
    && (inserted ==>
      pos <= |Contents(v)| && Contents(w) == Inserted(Contents(v), pos, Item(key, 0)) && Ordered(Contents(w), unique))
    && (!inserted ==> w == v && pos < |Contents(v)| && Contents(v)[pos].key == key)
  }

  lemma TookOne(v: View, w: View, unique: bool, leaf: Node, slot: nat, key: int, found: bool)
    requires Gained(v, w, leaf, slot, Item(key, 0)) && Ordered(Contents(v), unique) && !(found && unique)
    requires Spot(Contents(v), |FlatTo(v.s, v.chain, v.s[leaf].lo)| + slot, key, found)
    ensures Took(v, w, unique, key, true, |FlatTo(v.s, v.chain, v.s[leaf].lo)| + slot)
  {
    hide Contents, FlatTo, Inserted, HasKey, Ordered;
    SpotHas(Contents(v), |FlatTo(v.s, v.chain, v.s[leaf].lo)| + slot, key, found);
    SpotOrdered(Contents(v), |FlatTo(v.s, v.chain, v.s[leaf].lo)| + slot, key, found, unique, Item(key, 0));
  }

  lemma TookNone(v: View, key: int, pos: nat)
    requires Spot(Contents(v), pos, key, true)
    ensures Took(v, v, true, key, false, pos) && pos < |Contents(v)| && Contents(v)[pos].key == key
  {
    hide Contents, FlatTo;
  }

  lemma TookParts(v: View, w: View, unique: bool, key: int, inserted: bool, pos: nat)
    requires Took(v, w, unique, key, inserted, pos)
    ensures inserted <==> !(unique && HasKey(Contents(v), key))
    ensures inserted ==>
      pos <= |Contents(v)| && Contents(w) == Inserted(Contents(v), pos, Item(key, 0)) && Ordered(Contents(w), unique)
    ensures !inserted ==> w == v && pos < |Contents(v)| && Contents(v)[pos].key == key
  {
    hide Contents, Inserted, Ordered, HasKey;
  }

  lemma SpotKey(c: seq<Item>, pos: nat, key: int, found: bool)
    requires Spot(c, pos, key, found)
    ensures found ==> pos < |c| && c[pos].key == key
  {
  }

  lemma NoKey(key: int)
    ensures !HasKey([], key)
  {
  }

  lemma OrderedNone(unique: bool)
    ensures Ordered([], unique)
  {
  }

  lemma TookMore(v: View, u: View, w: View, unique: bool, key: int, pos: nat)
    requires Took(v, u, unique, key, true, pos) && Contents(w) == Contents(u)
    ensures Took(v, w, unique, key, true, pos)
  {
    hide Contents;
  }

  lemma RestIs(l: Rec, r: Rec, buf: seq<Item>, m: nat, asWritten: bool)
    requires m <= |l.items + r.items| && |l.items| <= |buf| + m
    ensures Rest(l, r, buf, m, asWritten) == if asWritten
      && m < |l.items| then buf[..|l.items| - m] + r.items else (l.items + r.items)[m..]
  {
  }

  // what the move of line 609 as written leaves in place of q[m..] is something else
  ghost predicate Differs(q: seq<Item>, buf: seq<Item>, m: nat, asWritten: bool)
  {
    asWritten && m < |q| <= |buf| + m && q[m..] != buf[..|q| - m]
  }

  lemma SameRest(l: seq<Item>, r: seq<Item>, m: nat, buf: seq<Item>, asWritten: bool, rest: seq<Item>)
    requires m <= |l + r| && |l| <= |buf| + m
    requires rest == if asWritten && m < |l| then buf[..|l| - m] + r else (l + r)[m..]
    ensures |rest| == |l + r| - m
    ensures (l + r)[..m] + rest == l + r <==> !Differs(l, buf, m, asWritten)
  {
    var all := l + r;
    assert all[..m] + all[m..] == all;
    if asWritten && m < |l| {
      assert (all[..m] + rest)[m..|l|] == buf[..|l| - m] && all[m..|l|] == l[m..];
      assert all[m..] == l[m..] + r;
    }
  }

  // the pair keeps its items when the rest is what it should be
  lemma RestKeeps(l: Rec, r: Rec, m: nat, buf: seq<Item>, asWritten: bool)
    requires m <= |l.items + r.items| && |l.items| <= |buf| + m
    ensures |Rest(l, r, buf, m, asWritten)| == |l.items + r.items| - m
    ensures (l.items + r.items)[..m] + Rest(l, r, buf, m, asWritten) == l.items + r.items <==>
            !Differs(l.items, buf, m, asWritten)
  {
    hide *;
    RestIs(l, r, buf, m, asWritten);
    SameRest(l.items, r.items, m, buf, asWritten, Rest(l, r, buf, m, asWritten));
  }

  class BTree {
    const capacity: Capacity
    const unique: bool
    const asWritten: bool
    var root: Node?
    var firstLeaf: Node?
    var size: nat
    var leavesCount: nat
    var branchesCount: nat
    ghost var nodes: set<Node>
    ghost var chain: seq<Node>

    ghost function V(): View
      requires root != null
      reads `root, `nodes, `chain, nodes
    {
      View(Snap(nodes), root, chain)
    }

    constructor (capacity: Capacity, unique: bool, asWritten: bool)
      requires capacity.leaf >= 2 && capacity.branch >= 2
      ensures this.capacity == capacity && this.unique == unique && this.asWritten == asWritten
      ensures Valid() && nodes == {} && Items() == []
    {
      this.capacity, this.unique, this.asWritten := capacity, unique, asWritten;
      root, firstLeaf, size, leavesCount, branchesCount := null, null, 0, 0, 0;
      nodes, chain := {}, [];
    }

    method Clear()
      modifies this`root, this`firstLeaf, this`size, this`leavesCount, this`branchesCount, this`nodes, this`chain
      requires Valid()
      ensures Valid() && nodes == {} && Items() == []
    {
      hide *;
      ValidParts();
      root, firstLeaf, size, leavesCount, branchesCount := null, null, 0, 0, 0;
      nodes, chain := {}, [];
      ValidParts();
      ItemsParts();
    }

    // everything but the order of the contents
    ghost predicate Inv(h: Hole, under: Node?)
      reads `root, `nodes, `chain, `firstLeaf, `leavesCount, `branchesCount, nodes
    {
      && capacity.leaf >= 2 && capacity.branch >= 2 && root != null && Sized(nodes, capacity)
      && Sound(V(), capacity, h, under, leavesCount, branchesCount, firstLeaf)
    }

    lemma ViewIs()
      requires root != null
      ensures V() == View(Snap(nodes), root, chain) && Snap(nodes).Keys == nodes
    {
    }

    lemma Opened(h: Hole, under: Node?)
      requires Inv(h, under)
      ensures capacity.leaf >= 2 && capacity.branch >= 2 && root != null && Sized(nodes, capacity)
      ensures V() == View(Snap(nodes), root, chain) && Snap(nodes).Keys == nodes && Good(V(), capacity, h, under)
        && Tree(V(), h)
      ensures Chained(V().s, chain) && Fill(V(), capacity, h, under) && Keys(V(), h, NoSkip)
      ensures leavesCount == |chain| && branchesCount == |Branches(V().s)| && |chain| > 0 && firstLeaf == chain[0]
    {
      hide Tree, Fill, Chained, Keys;
    }

    lemma Closed(h: Hole, under: Node?)
      requires capacity.leaf >= 2 && capacity.branch >= 2 && root != null && Sized(nodes, capacity)
        && Good(V(), capacity, h, under)
      requires leavesCount == |chain| && branchesCount == |Branches(V().s)| && |chain| > 0 && firstLeaf == chain[0]
      ensures Inv(h, under)
    {
      hide Good;
    }

    lemma LeafFacts(h: Hole, under: Node?, leaf: Node)
      requires Inv(h, under) && leaf in nodes && leaf.level == 0
      ensures leaf.Buffers(capacity) && V().s[leaf] == leaf.Record() && leaf.Record().items == leaf.items[..leaf.size]
        && Tree(V(), h)
      ensures h == Whole ==>
        IsLeafOf(V(), leaf) && leaf.lo < |chain| && chain[leaf.lo] == leaf && leaf.hi == leaf.lo + 1
      ensures var r := V().s[leaf];
        r.lo == leaf.lo && r.hi == leaf.hi && r.parent == leaf.parent && r.slot == leaf.slot
        && r.level == 0
      ensures leaf.size <= capacity.leaf == |leaf.items| && V().s[leaf].next == leaf.next
        && V().s[leaf].prev == leaf.prev && |V().s[leaf].items| == leaf.size
    {
      hide Tree;
      assert leaf.Buffers(capacity);
      if h == Whole { LeafPlace(V(), leaf); }
    }

    method EnterAt(leaf: Node, slot: nat, key: int, ghost under: Node?)
      requires Inv(Whole, under) && leaf in nodes && leaf.level == 0 && slot <= leaf.size < capacity.leaf
      requires slot == leaf.size ==> leaf.lo + 1 == |chain|
      requires under == null || (under == leaf && leaf == root)
      modifies leaf`items, leaf`size
      ensures Inv(Whole, null) && Gained(old(V()), V(), leaf, slot, Item(key, 0))
      ensures leaf in nodes && leaf.level == 0 && slot < leaf.size <= |leaf.items| && leaf.items[slot] == Item(key, 0)
    {
      hide *;
      Opened(Whole, under);
      LeafFacts(Whole, under, leaf);
      ghost var v := V();
      EnterLeaf(nodes, capacity, leaf, slot, key);
      ViewIs();
      EnterAll(v, V(), leaf, slot, Item(key, 0), capacity, under);
      Closed(Whole, null);
    }

    lemma NextFacts(leaf: Node)
      requires Inv(Whole, null) && leaf in nodes && leaf.level == 0
      ensures leaf.next == null <==> leaf.lo + 1 == |chain|
      ensures leaf.next != null ==> leaf.next in nodes && leaf.next.level == 0 && leaf.next.lo == leaf.lo + 1
      ensures leaf.prev == null <==> leaf.lo == 0
      ensures leaf.prev != null ==> leaf.prev in nodes && leaf.prev.level == 0 && leaf.prev.lo + 1 == leaf.lo
    {
      hide *;
      Opened(Whole, null);
      LeafFacts(Whole, null, leaf);
      NextPlace(V(), leaf);
      if leaf.next != null { SnapAt(nodes, leaf.next); }
      if leaf.prev != null { SnapAt(nodes, leaf.prev); }
    }

    lemma Siblings(leaf: Node, n: Node)
      requires Inv(Whole, null) && leaf in nodes && leaf.level == 0 && leaf.parent != null && n in nodes && n.level == 0
      ensures n != root && n.parent != null && capacity.leaf / 2 <= n.size <= capacity.leaf && |chain| >= 2
    {
      hide *;
      Opened(Whole, null);
      LeafFacts(Whole, null, leaf);
      LeafFacts(Whole, null, n);
      OtherLeaf(V(), capacity, leaf, n);
    }

    lemma BranchFacts(b: Node)
      requires root != null && Sized(nodes, capacity) && b in nodes && b.level > 0
      ensures b.Buffers(capacity) && V().s[b] == b.Record()
      ensures b.size <= capacity.branch == |b.keys| && |b.childs| == capacity.branch + 1
      ensures V().s[b].keys == b.keys[..b.size] && V().s[b].childs == b.childs[..b.size + 1]
      ensures |V().s[b].keys| == b.size && |V().s[b].childs| == b.size + 1
      ensures var r := V().s[b];
        r.level == b.level && r.parent == b.parent && r.slot == b.slot && r.lo == b.lo
        && r.hi == b.hi
    {
      assert b.Buffers(capacity);
      BranchRecord(b, capacity);
    }

    // the separator behind leaf is set to key
    method RepairAbove(leaf: Node, key: int)
      requires root != null && Sized(nodes, capacity) && leaf in nodes && Tree(V(), Whole) && leaf.level == 0
        && leaf != root
      modifies nodes`keys
      ensures Sized(nodes, capacity) && Repaired(old(V()), V(), leaf.lo, key)
    {
      ghost var v := V();
      ClimbableTree(v, Whole);
      LeafParent(v, leaf);
      LeafPlace(v, leaf);
      hide Tree, Climbable, Owner, SetKey, Sized;
      SnapAt(nodes, leaf);
      SnapAt(nodes, leaf.parent);
      leaf.parent.UpdateKey(nodes, Top(v), capacity, leaf.slot, key);
    }

    lemma FoldCut(v: View, w: View, a: Node, b: Node, q: seq<Item>, m: nat)
      requires IsLeafOf(v, a) && b !in v.s && m <= |q| && w.root == v.root
      requires w.chain == v.chain[..v.s[a].lo + 1] + [b] + v.chain[v.s[a].lo + 1..]
      requires w.s == CutStore(v.s, a, b, v.s[a].lo, q, m)
      ensures CutTo(v, w, a, b, q, m)
    {
    }

    lemma FoldShared(v: View, u: View, l: Node, r: Node, slot: nat, x: Item, all: seq<Item>, m: nat)
      requires IsLeafOf(v, l) && IsLeafOf(v, r) && v.s[r].lo == v.s[l].lo + 1 && u.root == v.root && u.chain == v.chain
      requires slot <= |v.s[l].items + v.s[r].items| && 0 < m <= |v.s[l].items + v.s[r].items|
      requires all == Inserted(v.s[l].items + v.s[r].items, slot, x) && DealtTo(v.s, u.s, l, r, all, m)
      ensures SharedTo(v, u, l, r, slot, x, all, m)
    {
    }

    // Leaf::InsertAndRearrangeWithRight
    method ShareRight(leaf: Node, slot: nat, key: int, rightLeaf: Node) returns (at: Node, atSlot: nat)
      requires Inv(Whole, null) && leaf in nodes && rightLeaf in nodes && leaf.level == 0 && rightLeaf.level == 0
      requires leaf != root && rightLeaf.lo == leaf.lo + 1 && slot <= leaf.size == capacity.leaf
      requires capacity.leaf / 2 <= rightLeaf.size < capacity.leaf
      modifies leaf`items, leaf`size, rightLeaf`items, rightLeaf`size
      modifies nodes`keys
      ensures Inv(Whole, null) && Gained(old(V()), V(), leaf, slot, Item(key, 0))
      ensures leaf.size + rightLeaf.size == old(leaf.size + rightLeaf.size) + 1
      ensures leaf.size == rightLeaf.size || leaf.size + 1 == rightLeaf.size
      ensures at in nodes && at.level == 0 && atSlot < at.size <= |at.items| && at.items[atSlot] == Item(key, 0)
    {
      hide *;
      Opened(Whole, null);
      LeafFacts(Whole, null, leaf);
      LeafFacts(Whole, null, rightLeaf);
      ghost var v := V();
      ghost var all;
      at, atSlot, all := ShareWithRight(nodes, capacity, leaf, slot, key, rightLeaf);
      ghost var u := V();
      ViewIs();
      FoldShared(v, u, leaf, rightLeaf, slot, Item(key, 0), all, leaf.size);
      ShareOk(v, u, leaf, rightLeaf, slot, Item(key, 0), all, leaf.size);
      RepairAbove(leaf, leaf.items[leaf.size - 1].key);
      ViewIs();
      ShareAll(v, u, V(), leaf, rightLeaf, slot, Item(key, 0), all, leaf.size, capacity);
      Closed(Whole, null);
    }

    // Leaf::InsertAndRearrangeWithLeft
    method ShareLeft(leaf: Node, slot: nat, key: int, leftLeaf: Node) returns (at: Node, atSlot: nat)
      requires Inv(Whole, null) && leaf in nodes && leftLeaf in nodes && leaf.level == 0 && leftLeaf.level == 0
      requires leftLeaf != root && leaf.lo == leftLeaf.lo + 1 && slot <= leaf.size == capacity.leaf
      requires capacity.leaf / 2 <= leftLeaf.size < capacity.leaf
      requires slot == leaf.size ==> leaf.lo + 1 == |chain|
      modifies leaf`items, leaf`size, leftLeaf`items, leftLeaf`size
      modifies nodes`keys
      ensures Inv(Whole, null) && Gained(old(V()), V(), leaf, slot, Item(key, 0))
      ensures leaf.size + leftLeaf.size == old(leaf.size + leftLeaf.size) + 1
      ensures leftLeaf.size == leaf.size || leftLeaf.size == leaf.size + 1
      ensures at in nodes && at.level == 0 && atSlot < at.size <= |at.items| && at.items[atSlot] == Item(key, 0)
    {
      hide *;
      Opened(Whole, null);
      LeafFacts(Whole, null, leaf);
      LeafFacts(Whole, null, leftLeaf);
      ghost var v := V();
      ghost var all;
      at, atSlot, all := ShareWithLeft(nodes, capacity, leaf, slot, key, leftLeaf);
      ghost var u := V();
      ghost var place := |v.s[leftLeaf].items| + slot;
      ViewIs();
      FoldShared(v, u, leftLeaf, leaf, place, Item(key, 0), all, leftLeaf.size);
      ShareOk(v, u, leftLeaf, leaf, place, Item(key, 0), all, leftLeaf.size);
      RepairAbove(leftLeaf, leftLeaf.items[leftLeaf.size - 1].key);
      ViewIs();
      ShareAll(v, u, V(), leftLeaf, leaf, place, Item(key, 0), all, leftLeaf.size, capacity);
      GainedFromLeft(v, V(), leftLeaf, leaf, slot, Item(key, 0));
      Closed(Whole, null);
    }

    // Leaf::InsertAndSplit
    method CutAt(leaf: Node, slot: nat, key: int) returns (newKey: int, newLeaf: Node, at: Node, atSlot: nat)
      requires Inv(Whole, null) && leaf in nodes && leaf.level == 0 && slot <= leaf.size == capacity.leaf
      requires slot == leaf.size ==> leaf.lo + 1 == |chain|
      modifies this`nodes, this`chain, this`leavesCount
      modifies nodes`items, nodes`size
      modifies nodes`next, nodes`prev
      modifies nodes`lo, nodes`hi
      ensures fresh(newLeaf) && nodes == old(nodes) + {newLeaf}
      ensures Inv(Split(leaf, newLeaf.lo, newKey, newLeaf), null) && Gained(old(V()), V(), leaf, slot, Item(key, 0))
      ensures at in nodes && at.level == 0 && atSlot < at.size <= |at.items| && at.items[atSlot] == Item(key, 0)
      ensures leaf.size == (capacity.leaf + 1) / 2 && leavesCount == old(leavesCount) + 1
      ensures forall n :: n in old(nodes) && n.level > 0 ==> n.size == old(n.size)
    {
      hide *;
      Opened(Whole, null);
      LeafFacts(Whole, null, leaf);
      ghost var v := V();
      NextFacts(leaf);
      leavesCount := leavesCount + 1;
      newKey, newLeaf, at, atSlot := CutOff(nodes, capacity, leaf, slot, key);
      nodes := nodes + {newLeaf};
      chain := chain[..old(leaf.lo) + 1] + [newLeaf] + chain[old(leaf.lo) + 1..];
      ViewIs();
      FoldCut(v, V(), leaf, newLeaf, Inserted(v.s[leaf].items, slot, Item(key, 0)), (capacity.leaf + 1) / 2);
      CutToAt(v, V(), leaf, newLeaf, Inserted(v.s[leaf].items, slot, Item(key, 0)), (capacity.leaf + 1) / 2, leaf);
      CutAll(v, V(), leaf, newLeaf, slot, Item(key, 0), capacity);
      SnapAt(nodes, newLeaf);
      Closed(Split(leaf, newLeaf.lo, newKey, newLeaf), null);
      LeafFacts(Split(leaf, newLeaf.lo, newKey, newLeaf), null, leaf);
    }

    ghost function HoleAt(node: Node, newKey: int, newNode: Node?): Hole
      reads newNode
    {
      if newNode == null then Whole else Split(node, newNode.lo, newKey, newNode)
    }

    lemma HoleAtNone(node: Node, newKey: int)
      ensures HoleAt(node, newKey, null) == Whole
    {
    }

    lemma HoleAtSome(node: Node, newKey: int, newNode: Node)
      ensures HoleAt(node, newKey, newNode) == Split(node, newNode.lo, newKey, newNode)
    {
    }

    method LeafSlot(leaf: Node, key: int, ghost under: Node?) returns (slot: nat, found: bool)
      requires Inv(Whole, under) && leaf in nodes && leaf.level == 0 && Range(V(), leaf, key)
        && Ordered(Contents(V()), unique)
      requires under != null ==> under == leaf && leaf == root && leaf.size == 0
      ensures Spot(Contents(V()), |FlatTo(V().s, chain, leaf.lo)| + slot, key, found)
        && slot <= leaf.size <= |leaf.items|
      ensures found ==> slot < leaf.size && Contents(V())[|FlatTo(V().s, chain, leaf.lo)| + slot] == leaf.items[slot]
      ensures slot == leaf.size ==> leaf.lo + 1 == |chain|
      ensures V().s.Keys == nodes && Reached(V().s, leaf, key) == (if found then leaf else null, slot)
    {
      hide *;
      Opened(Whole, under);
      LeafFacts(Whole, under, leaf);
      ItemsSorted(V(), capacity, under, leaf, unique);
      assert forall i :: 0 <= i < leaf.size ==> leaf.items[i] == V().s[leaf].items[i];
      slot, found := leaf.LeafFindSlot(key);
      ReachedLeaf(V().s, leaf, key, slot, found);
      Spotted(V(), capacity, under, leaf, slot, key, found, unique);
    }

    method InsertIntoLeaf(leaf: Node, key: int, ghost under: Node?)
      returns (at: Node, atSlot: nat, inserted: bool, newKey: int, newNode: Node?, ghost pos: nat)
      requires Inv(Whole, under) && leaf in nodes && leaf.level == 0 && Range(V(), leaf, key)
        && Ordered(Contents(V()), unique)
      requires under != null ==> under == leaf && leaf == root && leaf.size == 0
      modifies this`nodes, this`chain, this`leavesCount
      modifies nodes`items, nodes`size
      modifies nodes`keys
      modifies nodes`next, nodes`prev
      modifies nodes`lo, nodes`hi
      ensures old(nodes) <= nodes && fresh(nodes - old(nodes)) && leaf in nodes
        && (newNode != null ==> newNode in nodes)
      ensures Inv(HoleAt(leaf, newKey, newNode), null) && Took(old(V()), V(), unique, key, inserted, pos)
      ensures at in nodes && at.level == 0 && atSlot < at.size <= |at.items| && at.items[atSlot].key == key
      ensures inserted ==> at.items[atSlot] == Item(key, 0)
      ensures !inserted ==> newNode == null && at.items[atSlot] == Contents(old(V()))[pos]
      ensures newNode != null ==> capacity.leaf / 2 <= leaf.size
      ensures newNode != null <==> inserted && Packed(old(V()).s, capacity, leaf)
      ensures leavesCount == old(leavesCount) + if newNode != null then 1 else 0
      ensures forall n :: n in old(nodes) && n.level > 0 ==> n.size == old(n.size)
    {
      hide *;
      Opened(Whole, under);
      LeafFacts(Whole, under, leaf);
      newKey, newNode, at, atSlot := 0, null, leaf, 0;
      ghost var v := V();
      var slot, found := LeafSlot(leaf, key, under);
      pos := |FlatTo(v.s, chain, leaf.lo)| + slot;
      if found && unique {
        at, atSlot, inserted := leaf, slot, false;
        TookNone(v, key, pos);
        HoleAtNone(leaf, newKey);
      } else {
        inserted := true;
        at, atSlot, newKey, newNode := InsertAtSlot(leaf, slot, key, under);
        TookOne(v, V(), unique, leaf, slot, key, found);
      }
    }

    method InsertAtSlot(leaf: Node, slot: nat, key: int, ghost under: Node?)
      returns (at: Node, atSlot: nat, newKey: int, newNode: Node?)
      requires Inv(Whole, under) && leaf in nodes && leaf.level == 0 && slot <= leaf.size <= |leaf.items|
      requires slot == leaf.size ==> leaf.lo + 1 == |chain|
      requires under != null ==> under == leaf && leaf == root && leaf.size == 0
      modifies this`nodes, this`chain, this`leavesCount
      modifies nodes`items, nodes`size
      modifies nodes`keys
      modifies nodes`next, nodes`prev
      modifies nodes`lo, nodes`hi
      ensures old(nodes) <= nodes && fresh(nodes - old(nodes)) && (newNode != null ==> newNode in nodes)
      ensures Inv(HoleAt(leaf, newKey, newNode), null) && Gained(old(V()), V(), leaf, slot, Item(key, 0))
      ensures at in nodes && at.level == 0 && atSlot < at.size <= |at.items| && at.items[atSlot] == Item(key, 0)
      ensures newNode != null ==> capacity.leaf / 2 <= leaf.size
      ensures newNode != null <==> Packed(old(V()).s, capacity, leaf)
      ensures leavesCount == old(leavesCount) + if newNode != null then 1 else 0
      ensures forall n :: n in old(nodes) && n.level > 0 ==> n.size == old(n.size)
    {
      hide *;
      Opened(Whole, under);
      LeafFacts(Whole, under, leaf);
      HoleAtNone(leaf, 0);
      PackedParts(V().s, capacity, leaf);
      newKey, newNode := 0, null;
      if leaf.size < capacity.leaf {
        EnterAt(leaf, slot, key, under);
        at, atSlot := leaf, slot;
        return;
      }
      var done;
      done, at, atSlot := Rearrange(leaf, slot, key);
      if done {
        return;
      }
      newKey, newNode, at, atSlot := CutAt(leaf, slot, key);
      HoleAtSome(leaf, newKey, newNode);
    }

    // the neighbour a full leaf shares with: the emptier one, and the right one of two that hold as many items
    ghost function Taker(leaf: Node): Node?
      reads leaf, if leaf.prev == null then {} else {leaf.prev}, if leaf.next == null then {} else {leaf.next}
    {
      if leaf.prev == null then leaf.next
      else if leaf.next == null || leaf.prev.size < leaf.next.size then leaf.prev
      else leaf.next
    }

    // a full leaf shares with a neighbour when one of them has room
    method Rearrange(leaf: Node, slot: nat, key: int) returns (done: bool, at: Node, atSlot: nat)
      requires Inv(Whole, null) && leaf in nodes && leaf.level == 0 && slot <= leaf.size == capacity.leaf
      requires slot == leaf.size ==> leaf.lo + 1 == |chain|
      modifies nodes`items, nodes`size
      modifies nodes`keys
      ensures done <==> !Packed(old(V()).s, capacity, leaf)
      ensures done ==> Inv(Whole, null) && Gained(old(V()), V(), leaf, slot, Item(key, 0))
      ensures done ==>
        at in nodes && at.level == 0 && atSlot < at.size <= |at.items| && at.items[atSlot] == Item(key, 0)
      ensures var t := old(Taker(leaf));
        done ==>
          && t != null && t in nodes && leaf.size + t.size == old(leaf.size) + old(t.size) + 1
          && leaf.size <= t.size + 1 && t.size <= leaf.size + 1
          && forall n :: n in nodes && n != leaf && n != t ==> n.size == old(n.size) && n.items == old(n.items)
      ensures !done ==> Inv(Whole, null) && V() == old(V()) && leaf.size == old(leaf.size)
      ensures forall n :: n in nodes && n.level > 0 ==> n.size == old(n.size)
    {
      hide *;
      Opened(Whole, null);
      LeafFacts(Whole, null, leaf);
      PackedParts(V().s, capacity, leaf);
      TakerIs(leaf);
      done, at, atSlot := false, leaf, 0;
      if leaf.parent != null {
        NextFacts(leaf);
        var leftLeaf, rightLeaf := leaf.prev, leaf.next;
        Siblings(leaf, leaf);
        RoomyParts(V().s, capacity, leftLeaf);
        RoomyParts(V().s, capacity, rightLeaf);
        if leftLeaf != null {
          Siblings(leaf, leftLeaf);
          LeafFacts(Whole, null, leftLeaf);
        }
        if rightLeaf != null {
          Siblings(leaf, rightLeaf);
          LeafFacts(Whole, null, rightLeaf);
        }
        if leftLeaf == null {
          if rightLeaf.size < capacity.leaf {
            at, atSlot := ShareRight(leaf, slot, key, rightLeaf);
            done := true;
          }
        } else if rightLeaf == null {
          if leftLeaf.size < capacity.leaf {
            at, atSlot := ShareLeft(leaf, slot, key, leftLeaf);
            done := true;
          }
        } else if leftLeaf.size < rightLeaf.size {
          at, atSlot := ShareLeft(leaf, slot, key, leftLeaf);
          done := true;
        } else if rightLeaf.size < capacity.leaf {
          at, atSlot := ShareRight(leaf, slot, key, rightLeaf);
          done := true;
        }
      }
    }

    lemma TakerIs(leaf: Node)
      ensures leaf.prev == null ==> Taker(leaf) == leaf.next
      ensures leaf.prev != null && (leaf.next == null || leaf.prev.size < leaf.next.size) ==> Taker(leaf) == leaf.prev
      ensures leaf.prev != null && leaf.next != null && leaf.prev.size >= leaf.next.size ==> Taker(leaf) == leaf.next
    {
    }

    // the child to descend to
    method BranchSlot(branch: Node, key: int) returns (slot: nat)
      requires Inv(Whole, null) && branch in nodes && branch.level > 0 && Range(V(), branch, key)
        && Ordered(Contents(V()), unique)
      ensures slot <= branch.size && branch.size < |branch.childs| && branch.childs[slot] in nodes
        && Range(V(), branch.childs[slot], key)
      ensures var child := branch.childs[slot];
        child.parent == branch && child.slot == slot && child.level + 1 == branch.level
      ensures V().s.Keys == nodes && Reached(V().s, branch, key) == Reached(V().s, branch.childs[slot], key)
      ensures Down(V().s, branch, key) == branch.childs[slot]
    {
      hide *;
      Opened(Whole, null);
      BranchFacts(branch);
      BranchSorted(V(), capacity, branch, unique);
      assert forall i :: 0 <= i < branch.size ==> branch.keys[i] == V().s[branch].keys[i];
      var found;
      slot, found := branch.BranchFindSlot(key);
      Descended(V(), capacity, branch, slot, key, found, unique);
      assert branch.childs[slot] == V().s[branch].childs[slot];
      SnapAt(nodes, branch.childs[slot]);
      ReachedBelow(V().s, branch, key, slot, found);
      DownTo(V().s, branch, key, slot, found);
    }

    // Branch::Insert
    method AttachAt(branch: Node, slot: nat, key: int, child: Node, newChild: Node)
      requires Inv(Split(child, newChild.lo, key, newChild), null) && child in nodes && newChild in nodes
        && branch in nodes
      requires child.parent == branch && child.slot == slot && branch.size < capacity.branch && branch.level > 0
      modifies branch`keys, branch`childs, branch`size, child`hi
      modifies nodes`parent
      modifies nodes`slot
      ensures Inv(Whole, null) && Contents(V()) == old(Contents(V())) && Steady(old(V()).s, V().s, branch.level)
    {
      hide *;
      ghost var h := Split(child, newChild.lo, key, newChild);
      Opened(h, null);
      BranchFacts(branch);
      ghost var v := V();
      SnapAt(nodes, child);
      SnapAt(nodes, branch);
      SiteOk(v, h, branch, slot);
      ghost var cs := Inserted(v.s[branch].childs, slot + 1, newChild);
      AttachChild(nodes, capacity, branch, slot, key, child, newChild, cs);
      ViewIs();
      AttachAll(v, h, V(), branch, slot, newChild, capacity);
      SnapAt(nodes, branch);
      Closed(Whole, null);
    }

    // Branch::InsertAndSplit
    method SplitAt(branch: Node, slot: nat, key: int, child: Node, newChild: Node)
        returns (newKey: int, newBranch: Node)
      requires Inv(Split(child, newChild.lo, key, newChild), null) && child in nodes && newChild in nodes
        && branch in nodes
      requires child.parent == branch && child.slot == slot && branch.size == capacity.branch && branch.level > 0
      modifies this`nodes, this`branchesCount, branch`keys, branch`childs, branch`size, child`hi
      modifies nodes`parent
      modifies nodes`slot
      ensures fresh(newBranch) && nodes == old(nodes) + {newBranch}
      ensures Inv(Split(branch, newBranch.lo, newKey, newBranch), null) && Contents(V()) == old(Contents(V()))
      ensures Steady(old(V()).s, V().s, branch.level) && branch.size == (capacity.branch + 1) / 2
      ensures branchesCount == old(branchesCount) + 1
    {
      hide *;
      ghost var h := Split(child, newChild.lo, key, newChild);
      Opened(h, null);
      BranchFacts(branch);
      ghost var v := V();
      SnapAt(nodes, child);
      SnapAt(nodes, branch);
      SiteOk(v, h, branch, slot);
      FullHere(v.s, capacity, branch, slot);
      ghost var cs := Inserted(v.s[branch].childs, slot + 1, newChild);
      branchesCount := branchesCount + 1;
      ghost var base, mid;
      newKey, newBranch, base, mid := SplitBranch(nodes, capacity, branch, slot, key, child, newChild, cs);
      nodes := nodes + {newBranch};
      ViewIs();
      FoldBases(v, h, branch, slot, newChild, newBranch, capacity, cs, base);
      SplitAll(v, h, V(), branch, slot, newChild, newBranch, capacity, base, mid);
      SnapAt(nodes, branch);
      SnapAt(nodes, newBranch);
      Closed(Split(branch, newBranch.lo, newKey, newBranch), null);
      BranchFacts(branch);
    }

    lemma FullHere(s: Store, c: Capacity, b: Node, slot: nat)
      requires b in s && |s[b].keys| == c.branch && |s[b].childs| == c.branch + 1 && slot <= c.branch && c.branch >= 2
      ensures FullAt(s, c, b, slot)
    {
    }

    // at least half full
    ghost predicate Half(n: Node)
      reads n
    {
      if n.level == 0 then capacity.leaf / 2 <= n.size else capacity.branch / 2 <= n.size
    }

    // inserting key below n ends at a leaf that must be split
    ghost predicate Cuts(s: Store, n: Node, key: int)
    {
      n in s && var a := Landing(s, n, key); a != null && Packed(s, capacity, a)
    }

    lemma CutsHere(s: Store, n: Node, key: int)
      requires n in s && s[n].level == 0
      ensures Cuts(s, n, key) <==> Packed(s, capacity, n)
    {
      hide Packed;
    }

    lemma CutsBelow(s: Store, n: Node, d: Node, key: int)
      requires n in s && s[n].level > 0 && d in s && Landing(s, n, key) == Landing(s, d, key)
      ensures Cuts(s, n, key) <==> Cuts(s, d, key)
    {
      hide Packed, Landing;
    }

    lemma HalfIs(n: Node)
      ensures Half(n) <==> if n.level == 0 then capacity.leaf / 2 <= n.size else capacity.branch / 2 <= n.size
    {
    }

    method InsertIntoNode(node: Node, key: int, ghost under: Node?)
      returns (at: Node, atSlot: nat, inserted: bool, newKey: int, newNode: Node?, ghost pos: nat)
      requires Inv(Whole, under) && node in nodes && Range(V(), node, key) && Ordered(Contents(V()), unique)
      requires under != null ==> under == node && node == root && node.level == 0 && node.size == 0
      modifies this`nodes, this`chain, this`leavesCount, this`branchesCount, nodes
      ensures old(nodes) <= nodes && fresh(nodes - old(nodes)) && node in nodes
        && (newNode != null ==> newNode in nodes)
      ensures Inv(HoleAt(node, newKey, newNode), null) && Took(old(V()), V(), unique, key, inserted, pos)
      ensures at in nodes && at.level == 0 && atSlot < at.size <= |at.items| && at.items[atSlot].key == key
      ensures inserted ==> at.items[atSlot] == Item(key, 0)
      ensures !inserted ==> newNode == null && at.items[atSlot] == Contents(old(V()))[pos]
      ensures Steady(old(V()).s, V().s, node.level)
      ensures newNode != null ==> Half(node)
      ensures V().s.Keys == nodes
      ensures var s := old(V()).s;
        && node in s && (newNode != null <==> inserted && Breaks(s, capacity, node, key))
        && leavesCount == old(leavesCount) + (if inserted && Cuts(s, node, key) then 1 else 0)
        && branchesCount == old(branchesCount) + (if inserted then Splits(s, capacity, node, key) else 0)
      ensures forall n :: n in old(nodes) && n.level > node.level ==> n.size == old(n.size)
      decreases node.level, 2
    {
      hide *;
      if node.level == 0 {
        Opened(Whole, under);
        SnapFields(nodes);
        ghost var before := V();
        ViewIs();
        SnapAt(nodes, node);
        AtLeaf(before.s, capacity, node, key);
        CutsHere(before.s, node, key);
        at, atSlot, inserted, newKey, newNode, pos := InsertIntoLeaf(node, key, under);
        ViewIs();
        SnapFields(nodes);
        SteadyFold(before.s, V().s, node.level);
        HalfIs(node);
      } else {
        at, atSlot, inserted, newKey, newNode, pos := InsertIntoBranch(node, key);
      }
    }

    // the part of InsertIntoBranch up to the return from the child
    method InsertBelow(branch: Node, key: int)
      returns (slot: nat, child: Node, at: Node, atSlot: nat, inserted: bool, newKey: int, newNode: Node?,
          ghost pos: nat)
      requires Inv(Whole, null) && branch in nodes && branch.level > 0 && Range(V(), branch, key)
        && Ordered(Contents(V()), unique)
      modifies this`nodes, this`chain, this`leavesCount, this`branchesCount, nodes
      ensures old(nodes) <= nodes && fresh(nodes - old(nodes)) && branch in nodes && child in nodes
        && (newNode != null ==> newNode in nodes)
      ensures child.parent == branch && child.slot == slot && child.level + 1 == branch.level
      ensures root != null && Inv(HoleAt(child, newKey, newNode), null)
      ensures Took(old(V()), V(), unique, key, inserted, pos)
      ensures at in nodes && at.level == 0 && atSlot < at.size <= |at.items| && at.items[atSlot].key == key
      ensures inserted ==> at.items[atSlot] == Item(key, 0)
      ensures !inserted ==> newNode == null && at.items[atSlot] == Contents(old(V()))[pos]
      ensures Steady(old(V()).s, V().s, branch.level) && SameLevels(old(V()).s, V().s)
      ensures branch.size == old(branch.size) && (newNode != null ==> inserted)
      ensures var s := old(V()).s;
        && child in s && Down(s, branch, key) == child
        && (newNode != null <==> inserted && Breaks(s, capacity, child, key))
        && leavesCount == old(leavesCount) + (if inserted && Cuts(s, child, key) then 1 else 0)
        && branchesCount == old(branchesCount) + (if inserted then Splits(s, capacity, child, key) else 0)
      ensures forall n :: n in old(nodes) && n.level > child.level ==> n.size == old(n.size)
      decreases branch.level, 0
    {
      hide *;
      Opened(Whole, null);
      ghost var v := V();
      SnapFields(nodes);
      slot := BranchSlot(branch, key);
      child := branch.childs[slot];
      at, atSlot, inserted, newKey, newNode, pos := InsertIntoNode(child, key, null);
      SteadyAt(v.s, V().s, child.level, child);
      SteadyAt(v.s, V().s, child.level, branch);
      ViewIs();
      SnapFields(nodes);
      LevelsFold(v.s, V().s);
      SteadyUp(v.s, V().s, child.level, branch.level);
    }

    method InsertIntoBranch(branch: Node, key: int)
      returns (at: Node, atSlot: nat, inserted: bool, newKey: int, newNode: Node?, ghost pos: nat)
      requires Inv(Whole, null) && branch in nodes && branch.level > 0 && Range(V(), branch, key)
        && Ordered(Contents(V()), unique)
      modifies this`nodes, this`chain, this`leavesCount, this`branchesCount, nodes
      ensures old(nodes) <= nodes && fresh(nodes - old(nodes)) && branch in nodes
        && (newNode != null ==> newNode in nodes)
      ensures Inv(HoleAt(branch, newKey, newNode), null) && Took(old(V()), V(), unique, key, inserted, pos)
      ensures at in nodes && at.level == 0 && atSlot < at.size <= |at.items| && at.items[atSlot].key == key
      ensures inserted ==> at.items[atSlot] == Item(key, 0)
      ensures !inserted ==> newNode == null && at.items[atSlot] == Contents(old(V()))[pos]
      ensures Steady(old(V()).s, V().s, branch.level)
      ensures newNode != null ==> Half(branch)
      ensures V().s.Keys == nodes
      ensures var s := old(V()).s;
        && branch in s && (newNode != null <==> inserted && Breaks(s, capacity, branch, key))
        && leavesCount == old(leavesCount) + (if inserted && Cuts(s, branch, key) then 1 else 0)
        && branchesCount == old(branchesCount) + (if inserted then Splits(s, capacity, branch, key) else 0)
      ensures forall n :: n in old(nodes) && n.level > branch.level ==> n.size == old(n.size)
      decreases branch.level, 1
    {
      hide *;
      Opened(Whole, null);
      ghost var v := V();
      BranchFacts(branch);
      ViewIs();
      newKey, newNode := 0, null;
      var slot, child, newChildKey, newChildNode;
      slot, child, at, atSlot, inserted, newChildKey, newChildNode, pos := InsertBelow(branch, key);
      ghost var u := V();
      AtBranch(v.s, capacity, branch, child, key);
      CutsBelow(v.s, branch, child, key);
      HoleAtNone(branch, newKey);
      if newChildNode == null {
        HoleAtNone(child, newChildKey);
        ViewIs();
        return;
      }
      newKey, newNode := TakeChild(branch, slot, newChildKey, child, newChildNode);
      TookMore(v, u, V(), unique, key, pos);
      SteadyBoth(v.s, u.s, V().s, branch.level);
      ViewIs();
    }

    // the end of InsertIntoBranch: the child was split
    method TakeChild(branch: Node, slot: nat, key: int, child: Node, newChild: Node)
        returns (newKey: int, newNode: Node?)
      requires Inv(HoleAt(child, key, newChild), null) && child in nodes && newChild in nodes && branch in nodes
      requires child.parent == branch && child.slot == slot && branch.level > 0
      modifies this`nodes, this`branchesCount, branch`keys, branch`childs, branch`size, child`hi
      modifies nodes`parent
      modifies nodes`slot
      ensures old(nodes) <= nodes && fresh(nodes - old(nodes)) && (newNode != null ==> newNode in nodes)
      ensures Inv(HoleAt(branch, newKey, newNode), null) && Contents(V()) == old(Contents(V()))
      ensures Steady(old(V()).s, V().s, branch.level) && (newNode != null ==> Half(branch))
      ensures newNode != null <==> old(branch.size) == capacity.branch
      ensures branchesCount == old(branchesCount) + if newNode != null then 1 else 0
    {
      hide *;
      HoleAtSome(child, key, newChild);
      Opened(HoleAt(child, key, newChild), null);
      BranchFacts(branch);
      newKey, newNode := 0, null;
      if branch.size < capacity.branch {
        AttachAt(branch, slot, key, child, newChild);
        HoleAtNone(branch, newKey);
      } else {
        newKey, newNode := SplitAt(branch, slot, key, child, newChild);
        HoleAtSome(branch, newKey, newNode);
        HalfBranch(branch);
      }
    }

    lemma HalfBranch(n: Node)
      requires n.level > 0 && capacity.branch / 2 <= n.size
      ensures Half(n)
    {
    }

    ghost predicate Valid()
      reads this, nodes
    {
      && capacity.leaf >= 2 && capacity.branch >= 2
      && (root == null ==>
        nodes == {} && chain == [] && firstLeaf == null && size == 0 && leavesCount == 0 && branchesCount == 0)
      && (root != null ==> Inv(Whole, null) && Ordered(Contents(V()), unique) && size == |Contents(V())|)
    }

    lemma RootIn(h: Hole, under: Node?)
      requires Inv(h, under)
      ensures root != null && root in nodes && (h.Split? ==> h.extra != root)
    {
      hide Nodes, Links, Slots, Keys, Fill, Chained, Branches;
    }

    // all items, in the order of the leaves
    ghost function Items(): seq<Item>
      reads this, nodes
    {
      if root == null then [] else Contents(V())
    }

    // the first leaf of an empty tree
    method Plant()
      requires Valid() && root == null
      modifies this`root, this`firstLeaf, this`leavesCount, this`nodes, this`chain
      ensures root != null && fresh(root) && nodes == {root} && root.level == 0 && root.size == 0 && size == 0
      ensures Inv(Whole, root) && Contents(V()) == [] && leavesCount == old(leavesCount) + 1
    {
      hide *;
      ValidParts();
      var leaf := new Node.Leaf(capacity.leaf);
      firstLeaf := leaf;
      leavesCount := leavesCount + 1;
      root := leaf;
      leaf.lo, leaf.hi := 0, 1;
      nodes, chain := {leaf}, [leaf];
      PlantRecord(leaf);
      PlantSnap(leaf);
      SoleLeaf(V(), leaf, capacity);
      Closed(Whole, root);
    }

    // spans are ghost: a new leaf is otherwise blank
    lemma PlantRecord(leaf: Node)
      requires leaf.level == 0 && leaf.parent == null && leaf.slot == 0 && leaf.next == null && leaf.prev == null
      requires leaf.size == 0 && leaf.keys == [] && leaf.childs == [] && leaf.lo == 0 && leaf.hi == 1
      ensures leaf.Record() == Rec(0, null, 0, null, null, [], [], [], 0, 1)
    {
    }

    lemma PlantSnap(leaf: Node)
      requires root == leaf && nodes == {leaf} && chain == [leaf]
        && leaf.Record() == Rec(0, null, 0, null, null, [], [], [], 0, 1)
      requires |leaf.items| == capacity.leaf && leaf.level == 0 && leaf.size == 0 && leaf.keys == []
        && leaf.childs == []
      ensures V() == View(map[leaf := Rec(0, null, 0, null, null, [], [], [], 0, 1)], leaf, [leaf])
        && Sized(nodes, capacity)
    {
      hide Node.Record;
      assert Snap(nodes) == map[leaf := Rec(0, null, 0, null, null, [], [], [], 0, 1)];
    }

    lemma HalfRecord(h: Hole, n: Node)
      requires Inv(h, null) && n in nodes && Half(n) && h.Split?
      ensures var r := V().s[n];
        (r.level == 0 ==> capacity.leaf / 2 <= |r.items|) && (r.level > 0 ==> capacity.branch / 2 <= |r.keys|)
    {
      hide *;
      Opened(h, null);
      SnapAt(nodes, n);
      HalfSize(n);
      if n.level == 0 { LeafFacts(h, null, n); } else { BranchFacts(n); }
    }

    lemma HalfSize(n: Node)
      ensures Half(n) <==> if n.level == 0 then capacity.leaf / 2 <= n.size else capacity.branch / 2 <= n.size
    {
    }

    // a root above the two halves of the old one
    method GrowTop(newKey: int, newNode: Node)
      requires root != null && root in nodes && newNode in nodes && newNode != root
      requires Inv(Split(root, newNode.lo, newKey, newNode), null) && Half(root)
      modifies this`root, this`branchesCount, this`nodes, root`parent, root`slot, root`hi, newNode`parent, newNode`slot
      ensures root != null && fresh(root) && nodes == old(nodes) + {root}
      ensures Inv(Whole, null) && Contents(V()) == old(Contents(V())) && branchesCount == old(branchesCount) + 1
    {
      hide *;
      ghost var v := V();
      ghost var h := Split(root, newNode.lo, newKey, newNode);
      Opened(h, null);
      HalfRecord(h, root);
      var top := NewRoot(nodes, capacity, root, newNode, newKey, |chain|);
      root := top;
      branchesCount := branchesCount + 1;
      nodes := nodes + {top};
      ViewIs();
      GrowAll(v, V(), h, top, capacity);
      Closed(Whole, null);
    }

    lemma ValidParts()
      ensures Valid() <==>
        && capacity.leaf >= 2 && capacity.branch >= 2
        && (root == null ==>
          nodes == {} && chain == [] && firstLeaf == null && size == 0 && leavesCount == 0 && branchesCount == 0)
        && (root != null ==> Inv(Whole, null) && Ordered(Contents(V()), unique) && size == |Contents(V())|)
    {
      hide Inv, V, Contents, Ordered;
    }

    lemma ItemsParts()
      ensures root == null ==> Items() == []
      ensures root != null ==> Items() == Contents(V())
    {
    }

    // inserting key needs a new leaf: the leaf a search ends at is full, and is the root or has full neighbours only
    ghost predicate CutsLeaf(key: int)
      reads this, nodes
    {
      root != null && root in nodes && Cuts(V().s, root, key)
    }

    // the new branches it needs: one for each full branch above a node that is split, and one above a split root
    ghost function SplitsBranches(key: int): nat
      reads this, nodes
    {
      if root == null || root !in nodes then 0
      else Splits(V().s, capacity, root, key) + if Breaks(V().s, capacity, root, key) then 1 else 0
    }

    lemma GrowthIs(key: int)
      requires root != null && root in nodes
      ensures root in V().s && (CutsLeaf(key) <==> Cuts(V().s, root, key))
      ensures SplitsBranches(key)
        == Splits(V().s, capacity, root, key) + if Breaks(V().s, capacity, root, key) then 1 else 0
    {
      hide Cuts, Splits, Breaks;
    }

    lemma NoGrowth(key: int)
      requires root == null
      ensures !CutsLeaf(key) && SplitsBranches(key) == 0
    {
    }

    // an empty leaf at the root is not split
    lemma PlantRoom(key: int)
      requires root != null && root in nodes && root.level == 0 && root.size == 0 && Inv(Whole, root)
      ensures root in V().s && !Cuts(V().s, root, key) && Splits(V().s, capacity, root, key) == 0
      ensures !Breaks(V().s, capacity, root, key)
    {
      hide *;
      Opened(Whole, root);
      LeafFacts(Whole, root, root);
      AtLeaf(V().s, capacity, root, key);
      CutsHere(V().s, root, key);
      PackedParts(V().s, capacity, root);
    }

    // The reference the original returns is slot atSlot of leaf `at`.
    method Insert(key: int) returns (at: Node, atSlot: nat, inserted: bool, ghost pos: nat)
      requires Valid()
      modifies this`root, this`firstLeaf, this`size, this`leavesCount, this`branchesCount, this`nodes, this`chain, nodes
      ensures Valid() && old(nodes) <= nodes && fresh(nodes - old(nodes))
      ensures inserted <==> !(unique && HasKey(old(Items()), key))
      ensures inserted ==> pos <= |old(Items())| && Items() == Inserted(old(Items()), pos, Item(key, 0))
      ensures !inserted ==> Items() == old(Items()) && pos < |Items()| && Items()[pos].key == key
      ensures at in nodes && at.level == 0 && atSlot < at.size <= |at.items| && at.items[atSlot].key == key
      ensures inserted ==> at.items[atSlot] == Item(key, 0)
      ensures !inserted ==> at.items[atSlot] == Items()[pos]
      ensures size == if inserted then old(size) + 1 else old(size)
      ensures leavesCount == old(leavesCount) + if inserted && (old(root) == null || old(CutsLeaf(key))) then 1 else 0
      ensures branchesCount == old(branchesCount) + if inserted then old(SplitsBranches(key)) else 0
    {
      hide *;
      ValidParts();
      ItemsParts();
      ghost var before := Items();
      ghost var under: Node? := null;
      if root == null {
        NoGrowth(key);
        Plant();
        under := root;
        OrderedNone(unique);
        PlantRoom(key);
      } else {
        Opened(Whole, null);
        RootIn(Whole, null);
        GrowthIs(key);
      }
      ghost var v := V();
      Opened(Whole, under);
      RootIn(Whole, under);
      RangeRoot(v, key);
      var newKey, newNode;
      at, atSlot, inserted, newKey, newNode, pos := InsertIntoNode(root, key, under);
      ghost var u := V();
      TookParts(v, u, unique, key, inserted, pos);
      if inserted {
        size := size + 1;
        if newNode != null {
          HoleAtSome(root, newKey, newNode);
          RootIn(HoleAt(root, newKey, newNode), null);
          GrowTop(newKey, newNode);
        }
      }
      HoleAtNone(root, newKey);
      ValidParts();
      ItemsParts();
    }

    // ---------- search

    method FindInNode(node: Node, key: int) returns (leaf: Node?, slot: nat)
      requires Inv(Whole, null) && node in nodes && Range(V(), node, key) && Ordered(Contents(V()), unique)
      ensures leaf != null <==> HasKey(Contents(V()), key)
      ensures leaf != null ==>
        leaf in nodes && leaf.level == 0 && slot < leaf.size <= |leaf.items| && leaf.items[slot].key == key
      ensures V().s.Keys == nodes && (leaf, slot) == Reached(V().s, node, key)
      decreases node.level
    {
      hide *;
      Opened(Whole, null);
      if node.level == 0 {
        var found;
        slot, found := LeafSlot(node, key, null);
        leaf := if found then node else null;
        SpotHas(Contents(V()), |FlatTo(V().s, chain, node.lo)| + slot, key, found);
        SpotKey(Contents(V()), |FlatTo(V().s, chain, node.lo)| + slot, key, found);
      } else {
        var branchSlot := BranchSlot(node, key);
        leaf, slot := FindInNode(node.childs[branchSlot], key);
      }
    }

    // the slot a search for key ends at, when it holds key
    ghost function Place(key: int): (Node?, nat)
      reads this, nodes
    {
      if root == null || root !in nodes then (null, 0) else Reached(V().s, root, key)
    }

    lemma PlaceIs(key: int)
      ensures root == null ==> Place(key) == (null, 0)
      ensures root != null && root in nodes ==> V().s.Keys == nodes && Place(key) == Reached(V().s, root, key)
    {
      hide Reached;
    }

    method Find(key: int) returns (leaf: Node?, slot: nat)
      requires Valid()
      ensures (leaf, slot) == Place(key) && (leaf != null <==> HasKey(Items(), key))
      ensures leaf != null ==>
        leaf in nodes && leaf.level == 0 && slot < leaf.size <= |leaf.items| && leaf.items[slot].key == key
    {
      hide *;
      ValidParts();
      ItemsParts();
      PlaceIs(key);
      if root == null {
        leaf, slot := null, 0;
        NoKey(key);
      } else {
        Opened(Whole, null);
        RootIn(Whole, null);
        RangeRoot(V(), key);
        leaf, slot := FindInNode(root, key);
      }
    }

    // ---------- deletion in branches

    // while branches are repaired: the leaf links wait, and branchesCount still counts `extra` branches that are gone
    ghost predicate Between(h: Hole, under: Node?, extra: nat)
      reads `root, `nodes, `chain, `branchesCount, nodes
    {
      && capacity.leaf >= 2 && capacity.branch >= 2 && root != null && Sized(nodes, capacity)
      && Sturdy(V(), capacity, h, under) && branchesCount == |Branches(V().s)| + extra
    }

    lemma OpenedB(h: Hole, under: Node?, extra: nat)
      requires Between(h, under, extra)
      ensures capacity.leaf >= 2 && capacity.branch >= 2 && root != null && Sized(nodes, capacity)
      ensures V() == View(Snap(nodes), root, chain) && Snap(nodes).Keys == nodes && Sturdy(V(), capacity, h, under)
      ensures Tree(V(), h) && Fill(V(), capacity, h, under) && branchesCount == |Branches(V().s)| + extra
    {
      hide Tree, Keys, Fill;
    }

    lemma ClosedB(h: Hole, under: Node?, extra: nat)
      requires capacity.leaf >= 2 && capacity.branch >= 2 && root != null && Sized(nodes, capacity)
      requires Sturdy(V(), capacity, h, under) && branchesCount == |Branches(V().s)| + extra
      ensures Between(h, under, extra)
    {
      hide Sturdy;
    }

    lemma BranchesLess(s: Store, t: Store, x: Node)
      requires x in s && Branches(t) == Branches(s) - {x}
      ensures |Branches(s)| == |Branches(t)| + if s[x].level > 0 then 1 else 0
    {
    }

    // Branch::Delete, for the dead child x
    method DetachAt(branch: Node, slot: nat, ghost x: Node, ghost extra: nat)
      requires Between(Dead(x), null, extra) && branch in nodes && x in nodes && x.parent == branch && x.slot == slot
      modifies this`nodes, branch`keys, branch`childs, branch`size
      modifies nodes`parent
      modifies nodes`slot
      ensures nodes == old(nodes) - {x} && branch in nodes && Contents(V()) == old(Contents(V()))
      ensures root != null && Between(Whole, branch, extra + if x.level > 0 then 1 else 0)
        && branch.level == x.level + 1
      ensures SameBut(old(Snap(nodes)), Snap(nodes), branch) && branch.size + 1 == old(branch.size)
    {
      hide *;
      OpenedB(Dead(x), null, extra);
      ghost var v := V();
      SnapAt(nodes, x);
      DetachSite(v, x);
      SnapAt(nodes, branch);
      BranchFacts(branch);
      ghost var cs := Removed(v.s[branch].childs, slot);
      ghost var s1 := DetachChild(nodes, capacity, branch, slot, x, cs);
      nodes := nodes - {x};
      ViewIs();
      DetachAll(v, V(), x, branch, slot, s1, capacity);
      BranchFacts(branch);
      BranchesLess(v.s, V().s, x);
      ClosedB(Whole, branch, extra + if x.level > 0 then 1 else 0);
    }

    // RearrangeKeys with all keys in the left branch
    method MergeAt(p: Node, i: nat, leftBranch: Node, rightBranch: Node, ghost under: Node, ghost extra: nat)
      requires Between(Whole, under, extra) && p in nodes && leftBranch in nodes && rightBranch in nodes
        && Pair(V(), p, i)
      requires i < p.size && p.size < |p.childs| && p.childs[i] == leftBranch && p.childs[i + 1] == rightBranch
      requires (under == leftBranch || under == rightBranch) && leftBranch.level > 0 && p.level > 1
      requires leftBranch.size + rightBranch.size < capacity.branch
      modifies leftBranch`keys, leftBranch`childs, leftBranch`size, leftBranch`hi, rightBranch`size, rightBranch`lo,
        p`keys
      modifies nodes`parent
      modifies nodes`slot
      ensures root != null && Between(Dead(rightBranch), null, extra) && Contents(V()) == old(Contents(V()))
      ensures rightBranch.size == 0 && rightBranch.parent == p
      ensures SameAbove(old(Snap(nodes)), Snap(nodes), p.level)
    {
      hide *;
      OpenedB(Whole, under, extra);
      ghost var v := V();
      PairLevels(v, p, i);
      SnapAt(nodes, p);
      SnapAt(nodes, leftBranch);
      SnapAt(nodes, rightBranch);
      BranchFacts(p);
      BranchFacts(leftBranch);
      BranchFacts(rightBranch);
      RowDistinct(v, p, i);
      ghost var lost, s1;
      lost, s1 := MergeBranches(nodes, capacity, p, i, leftBranch, rightBranch, BothChilds(v.s, p, i));
      ViewIs();
      MergeAll(v, V(), p, i, lost, s1, capacity, under);
      SnapAt(nodes, rightBranch);
      ClosedB(Dead(rightBranch), null, extra);
    }

    // RearrangeKeys with the keys shared out anew
    method BorrowAt(p: Node, i: nat, leftBranch: Node, rightBranch: Node, ghost under: Node, ghost extra: nat)
      requires Between(Whole, under, extra) && p in nodes && leftBranch in nodes && rightBranch in nodes
        && Pair(V(), p, i)
      requires i < p.size && p.size < |p.childs| && p.childs[i] == leftBranch && p.childs[i + 1] == rightBranch
      requires (under == leftBranch || under == rightBranch) && under.size < capacity.branch / 2 && leftBranch.level > 0
        && p.level > 1
      requires capacity.branch <= leftBranch.size + rightBranch.size
      modifies leftBranch`keys, leftBranch`childs, leftBranch`size, leftBranch`hi
      modifies rightBranch`keys, rightBranch`childs, rightBranch`size, rightBranch`lo, p`keys
      modifies nodes`parent
      modifies nodes`slot
      ensures root != null && Between(Whole, null, extra) && Contents(V()) == old(Contents(V())) && rightBranch.size > 0
      ensures leftBranch.size == old(leftBranch.size + rightBranch.size) / 2
        && leftBranch.size + rightBranch.size == old(leftBranch.size + rightBranch.size)
    {
      hide *;
      OpenedB(Whole, under, extra);
      ghost var v := V();
      PairLevels(v, p, i);
      SnapAt(nodes, p);
      SnapAt(nodes, leftBranch);
      SnapAt(nodes, rightBranch);
      BranchFacts(p);
      BranchFacts(leftBranch);
      BranchFacts(rightBranch);
      RowDistinct(v, p, i);
      ghost var m := (leftBranch.size + rightBranch.size) / 2;
      ghost var s1, s2;
      s1, s2 := BorrowBranches(nodes, capacity, p, i, leftBranch, rightBranch, m, BothChilds(v.s, p, i));
      ViewIs();
      PairParts(v.s, p, i, leftBranch, rightBranch);
      BorrowAll(v, V(), p, i, m, s1, s2, capacity, under);
      ClosedB(Whole, null, extra);
    }

    // Branch::RearrangeKeys; when the right branch is emptied it is left for its parent to drop
    method RearrangeKeys(branch: Node, ghost extra: nat) returns (rightBranch: Node)
      requires Between(Whole, branch, extra) && branch in nodes && branch.level > 0 && branch.parent != null
      requires branch.size < capacity.branch / 2
      modifies nodes`keys, nodes`childs, nodes`size
      modifies nodes`lo, nodes`hi
      modifies nodes`parent
      modifies nodes`slot
      ensures root != null && rightBranch in nodes && rightBranch.level == branch.level
        && Contents(V()) == old(Contents(V()))
      ensures rightBranch.size == 0 ==>
                && Between(Dead(rightBranch), null, extra) && rightBranch.parent != null && rightBranch.parent in nodes
                && rightBranch.parent.level == branch.level + 1
      ensures rightBranch.size > 0 ==> Between(Whole, null, extra)
      ensures rightBranch.size == 0 <==> old(Joins(Snap(nodes), capacity, branch, branch.size))
      ensures rightBranch.size == 0 ==>
        rightBranch.parent == old(branch.parent) && SameAbove(old(Snap(nodes)), Snap(nodes), branch.level + 1)
    {
      hide *;
      OpenedB(Whole, branch, extra);
      ghost var v := V();
      RootParts(v, Whole);
      SnapAt(nodes, branch);
      var i := if branch.slot == 0 then 0 else branch.slot - 1;
      PairSite(v, capacity, branch, i);
      var p := branch.parent;
      SnapAt(nodes, p);
      BranchFacts(p);
      PairLevels(v, p, i);
      assert p.childs[i] == v.s[p].childs[i] && p.childs[i + 1] == v.s[p].childs[i + 1];
      var leftBranch := p.childs[i];
      rightBranch := p.childs[i + 1];
      SnapAt(nodes, leftBranch);
      SnapAt(nodes, rightBranch);
      BranchFacts(leftBranch);
      BranchFacts(rightBranch);
      JoinsPair(v.s, branch, p, i, leftBranch, rightBranch);
      if leftBranch.size + rightBranch.size < capacity.branch {
        MergeAt(p, i, leftBranch, rightBranch, branch, extra);
      } else {
        BorrowAt(p, i, leftBranch, rightBranch, branch, extra);
      }
    }

    lemma JoinsPair(s: Store, b: Node, p: Node, i: nat, l: Node, r: Node)
      requires b in s && s[b].parent == p && p in s && s[b].level < s[p].level && l in s && r in s && l != r
      requires i == (if s[b].slot == 0 then 0 else s[b].slot - 1) && i + 1 < |s[p].childs|
      requires s[p].childs[i] == l && s[p].childs[i + 1] == r && s[l].level == s[b].level && s[r].level == s[b].level
      requires if s[b].slot == 0 then l == b else r == b
      ensures Joins(s, capacity, b, |s[b].keys|) <==> |s[l].keys| + |s[r].keys| < capacity.branch
    {
    }

    // the root has lost a child: it goes when only one child is left
    method ShrinkRoot(ghost extra: nat)
      requires root != null && Between(Whole, root, extra) && root in nodes && root.level > 0
      modifies this`root, this`branchesCount, this`nodes
      modifies nodes`parent
      modifies nodes`slot
      ensures root != null && Between(Whole, null, extra) && Contents(V()) == old(Contents(V())) && nodes <= old(nodes)
      ensures branchesCount == old(branchesCount) - old(if root.size == 0 then 1 else 0)
    {
      hide *;
      OpenedB(Whole, root, extra);
      ghost var v := V();
      BranchFacts(root);
      if root.size == 0 {
        OnlyChild(v);
        var oldRoot := root;
        assert oldRoot.childs[0] == v.s[root].childs[0];
        var child := oldRoot.childs[0];
        FreeRoot(nodes, capacity, oldRoot, child);
        root := child;
        nodes := nodes - {oldRoot};
        ViewIs();
        DropAll(v, V(), child, capacity);
        branchesCount := branchesCount - 1;
        ClosedB(Whole, null, extra);
      } else {
        FillBackAt(v, capacity, root);
        Resturdied(v, capacity, root);
        ClosedB(Whole, null, extra);
      }
    }

    lemma Resturdied(v: View, c: Capacity, under: Node)
      requires Sturdy(v, c, Whole, under) && Fill(v, c, Whole, null)
      ensures Sturdy(v, c, Whole, null)
    {
      hide Tree, Keys, Fill;
    }

    method DeleteFromBranch(branch: Node, slot: nat, ghost x: Node, ghost extra: nat, ghost top: nat)
      requires Between(Dead(x), null, extra) && branch in nodes && x in nodes && x.parent == branch && x.slot == slot
      requires root != null && root.level <= top && branch.level <= top
      modifies this`root, this`branchesCount, this`nodes
      modifies nodes`keys, nodes`childs, nodes`size
      modifies nodes`lo, nodes`hi
      modifies nodes`parent
      modifies nodes`slot
      ensures root != null && nodes <= old(nodes) - {x} && Contents(V()) == old(Contents(V()))
      ensures Between(Whole, null, extra + if x.level > 0 then 1 else 0)
      ensures branchesCount
        == old(branchesCount) - old(Drops(Snap(nodes), capacity, branch, branch.size - 1, top))
      decreases top - branch.level, 1
    {
      hide *;
      ghost var more := extra + if x.level > 0 then 1 else 0;
      ghost var s := Snap(nodes);
      DetachAt(branch, slot, x, extra);
      OpenedB(Whole, branch, more);
      BranchFacts(branch);
      RootParts(V(), Whole);
      DropsShrunk(s, V().s, capacity, branch, branch.size, top);
      DropsParts(V().s, capacity, branch, branch.size, top);
      if branch.size >= capacity.branch / 2 {
        FillBackAt(V(), capacity, branch);
        Resturdied(V(), capacity, branch);
        ClosedB(Whole, null, more);
      } else if branch.parent == null {
        ShrinkRoot(more);
      } else {
        Rebalance(branch, more, top);
      }
    }

    method Rebalance(branch: Node, ghost extra: nat, ghost top: nat)
      requires Between(Whole, branch, extra) && branch in nodes && branch.level > 0 && branch.parent != null
      requires branch.size < capacity.branch / 2 && root != null && root.level <= top && branch.level <= top
      modifies this`root, this`branchesCount, this`nodes
      modifies nodes`keys, nodes`childs, nodes`size
      modifies nodes`lo, nodes`hi
      modifies nodes`parent
      modifies nodes`slot
      ensures root != null && nodes <= old(nodes) && Contents(V()) == old(Contents(V())) && Between(Whole, null, extra)
      ensures branchesCount == old(branchesCount) - old(Drops(Snap(nodes), capacity, branch, branch.size, top))
      decreases top - branch.level, 0
    {
      hide *;
      ghost var s := Snap(nodes);
      OpenedB(Whole, branch, extra);
      SnapAt(nodes, branch);
      DropsParts(s, capacity, branch, branch.size, top);
      var rightBranch := RearrangeKeys(branch, extra);
      if rightBranch.size == 0 {
        OpenedB(Dead(rightBranch), null, extra);
        LevelBound(V(), Dead(rightBranch), rightBranch.parent);
        SnapAt(nodes, rightBranch.parent);
        SnapAt(nodes, root);
        BranchFacts(rightBranch.parent);
        SameAboveAt(s, V().s, branch.level + 1, rightBranch.parent);
        DropsSame(s, V().s, capacity, rightBranch.parent, rightBranch.parent.size - 1, top, branch.level + 1);
        DeleteFromBranch(rightBranch.parent, rightBranch.slot, rightBranch, extra, top);
        OpenedB(Whole, null, extra + 1);
        branchesCount := branchesCount - 1;
        ClosedB(Whole, null, extra);
      }
    }

    // ---------- deletion in leaves

    // the end of Leaf::Delete, when the greatest item of a leaf that is not the root has gone; v is the tree before
    method RepairMax(leaf: Node, slot: nat, ghost v: View)
      requires capacity.leaf >= 2 && root != null && Sized(nodes, capacity) && leaf in nodes && leaf.level == 0
        && leaf.parent != null
      requires Good(v, capacity, Whole, null) && Taken(v, V(), leaf, slot) && Tree(V(), Whole)
      requires slot == leaf.size <= |leaf.items| && slot + 1 == |v.s[leaf].items|
        && leaf.items[..leaf.size] == Removed(v.s[leaf].items, slot)
      requires v.s[leaf].prev == leaf.prev && v.s[leaf].lo == leaf.lo
      requires leaf.prev != null ==>
                 && leaf.prev in v.s && 0 < leaf.prev.size <= |leaf.prev.items|
                 && v.s[leaf.prev].items == leaf.prev.items[..leaf.prev.size]
      modifies nodes`keys
      ensures Sized(nodes, capacity) && Good(V(), capacity, Whole, leaf)
      ensures Branches(V().s) == Branches(v.s) && Contents(V()) == old(Contents(V()))
    {
      hide *;
      ViewIs();
      ghost var u := V();
      RootParts(u, Whole);
      TakeStep(v, u, leaf, slot, capacity);
      SnapAt(nodes, leaf);
      if leaf.size != 0 {
        RepairAbove(leaf, leaf.items[leaf.size - 1].key);
        ViewIs();
        TakeRepaired(v, u, V(), leaf, slot, leaf.items[leaf.size - 1].key, capacity);
      } else if leaf.prev != null {
        var leftLeaf := leaf.prev;
        RepairAbove(leaf, leftLeaf.items[leftLeaf.size - 1].key);
        ViewIs();
        TakeRepaired(v, u, V(), leaf, slot, leftLeaf.items[leftLeaf.size - 1].key, capacity);
      } else {
        TakeDone(v, u, leaf, slot, capacity);
      }
    }

    // Leaf::Delete
    method RemoveAt(leaf: Node, slot: nat) returns (ghost pos: nat)
      requires Inv(Whole, null) && leaf in nodes && leaf.level == 0 && slot < leaf.size
      modifies leaf`items, leaf`size
      modifies nodes`keys
      ensures Inv(Whole, leaf) && leaf.size == old(leaf.size) - 1 && slot < old(leaf.size) <= old(|leaf.items|)
      ensures leaf.items == ArrayDelete(old(leaf.items)[slot := Item(0, 0)], slot, old(leaf.size), 1)
      ensures pos < |old(Contents(V()))| && slot < old(|leaf.items|) && old(Contents(V()))[pos] == old(leaf.items[slot])
      ensures Contents(V()) == Removed(old(Contents(V())), pos)
    {
      hide *;
      Opened(Whole, null);
      LeafFacts(Whole, null, leaf);
      NextFacts(leaf);
      if leaf.prev != null && leaf.parent != null {
        LeafFacts(Whole, null, leaf.prev);
        Siblings(leaf, leaf.prev);
      }
      ghost var v := V();
      pos := |FlatTo(v.s, v.chain, v.s[leaf].lo)| + slot;
      DropItem(nodes, capacity, leaf, slot);
      ViewIs();
      FoldTaken(v, V(), leaf, slot);
      TakeStep(v, V(), leaf, slot, capacity);
      if slot == leaf.size && leaf.parent != null {
        RepairMax(leaf, slot, v);
      } else {
        TakeDone(v, V(), leaf, slot, capacity);
      }
      ViewIs();
      Closed(Whole, leaf);
    }

    lemma FoldJoined(v: View, w: View, l: Node, r: Node)
      requires l in v.s && r in v.s && v.s[l].lo + 1 < |v.chain| && w.root == v.root
      requires w.chain == v.chain[..v.s[l].lo + 1] + v.chain[v.s[l].lo + 2..] && w.s == GoneStore(v.s, l, r)
      ensures JoinedTo(v, w, l, r)
    {
    }

    // RearrangeItems with all items in the left leaf
    method JoinAt(p: Node, i: nat, leftLeaf: Node, rightLeaf: Node, ghost under: Node) returns (ghost j: nat)
      requires Inv(Whole, under) && p in nodes && leftLeaf in nodes && rightLeaf in nodes && Pair(V(), p, i)
        && p.level == 1
      requires leftLeaf.level == 0 && rightLeaf.level == 0 && (under == leftLeaf || under == rightLeaf)
      requires i < p.size && p.size < |p.childs| && p.childs[i] == leftLeaf && p.childs[i + 1] == rightLeaf
      requires capacity.leaf / 2 <= leftLeaf.size + rightLeaf.size <= capacity.leaf
      modifies this`chain, leftLeaf`items, leftLeaf`size, rightLeaf`size
      modifies nodes`lo, nodes`hi
      ensures root != null && Between(Dead(rightLeaf), null, 0) && Contents(V()) == old(Contents(V()))
      ensures rightLeaf.size == 0 && rightLeaf.parent == p && rightLeaf.prev == leftLeaf
      ensures leavesCount == |chain| + 1 && |chain| > 0 && firstLeaf == chain[0]
      ensures j < |chain| && chain[j] == leftLeaf && Gap(V().s, chain, j, rightLeaf)
      ensures rightLeaf.next == if j + 1 < |chain| then chain[j + 1] else null
    {
      hide *;
      Opened(Whole, under);
      ghost var v := V();
      SnapAt(nodes, p);
      BranchFacts(p);
      LeafFacts(Whole, under, leftLeaf);
      LeafFacts(Whole, under, rightLeaf);
      assert v.s[p].childs[i] == leftLeaf && v.s[p].childs[i + 1] == rightLeaf;
      PairLeaves(v, p, i);
      j := leftLeaf.lo;
      JoinLeaves(nodes, capacity, leftLeaf, rightLeaf);
      chain := chain[..j + 1] + chain[j + 2..];
      ViewIs();
      FoldJoined(v, V(), leftLeaf, rightLeaf);
      JoinAll(v, V(), p, i, capacity, under);
      SnapAt(nodes, rightLeaf);
      ClosedB(Dead(rightLeaf), null, 0);
    }

    lemma DropSite(rightLeaf: Node)
      requires root != null && rightLeaf in nodes && Between(Dead(rightLeaf), null, 0)
      ensures root in nodes && rightLeaf.parent != null && rightLeaf.parent in nodes
        && rightLeaf.parent.level <= root.level
    {
      hide *;
      OpenedB(Dead(rightLeaf), null, 0);
      SnapAt(nodes, rightLeaf);
      RootParts(V(), Dead(rightLeaf));
      DetachSite(V(), rightLeaf);
      SnapAt(nodes, rightLeaf.parent);
      SnapAt(nodes, root);
      LevelBound(V(), Dead(rightLeaf), rightLeaf.parent);
    }

    // no link between leaves has changed
    twostate lemma GapKept()
      requires old(root != null) && root != null && nodes <= old(nodes)
      requires forall n :: n in nodes ==> n.next == old(n.next) && n.prev == old(n.prev)
      ensures forall n :: n in V().s ==>
        n in old(V()).s && V().s[n].next == old(V()).s[n].next && V().s[n].prev == old(V()).s[n].prev
    {
    }

    // the emptied right leaf leaves its parent and the chain
    method DropLeaf(rightLeaf: Node, ghost j: nat)
      requires root != null && rightLeaf in nodes && Between(Dead(rightLeaf), null, 0) && rightLeaf.level == 0
      requires rightLeaf.parent != null && rightLeaf.prev != null
      requires leavesCount == |chain| + 1 && |chain| > 0 && firstLeaf == chain[0]
      requires j < |chain| && chain[j] == rightLeaf.prev && Gap(V().s, chain, j, rightLeaf)
      requires rightLeaf.next == if j + 1 < |chain| then chain[j + 1] else null
      modifies this`root, this`branchesCount, this`nodes, this`leavesCount
      modifies nodes`keys, nodes`childs, nodes`size
      modifies nodes`lo, nodes`hi
      modifies nodes`parent
      modifies nodes`slot
      modifies nodes`next, nodes`prev
      ensures root != null && nodes <= old(nodes) && Inv(Whole, null) && Contents(V()) == old(Contents(V()))
      ensures leavesCount == old(leavesCount) - 1 && branchesCount
        == old(branchesCount)
           - old(Drops(Snap(nodes), capacity, rightLeaf.parent, rightLeaf.parent.size - 1, root.level))
    {
      hide *;
      OpenedB(Dead(rightLeaf), null, 0);
      ghost var v := V();
      DropSite(rightLeaf);
      var leftLeaf := rightLeaf.prev;
      label before:
      DeleteFromBranch(rightLeaf.parent, rightLeaf.slot, rightLeaf, 0, root.level);
      OpenedB(Whole, null, 0);
      GapKept@before();
      GapCarry(v, V(), j, rightLeaf);
      ChainPlaces(V(), j);
      CloseGap(leftLeaf, rightLeaf.next, j, rightLeaf);
    }

    // next and prev are set past the leaf r that has gone
    method CloseGap(leftLeaf: Node, next: Node?, ghost j: nat, ghost r: Node)
      requires root != null && Between(Whole, null, 0) && leavesCount == |chain| + 1 && |chain| > 0
        && firstLeaf == chain[0]
      requires j < |chain| && chain[j] == leftLeaf && Gap(V().s, chain, j, r)
        && next == if j + 1 < |chain| then chain[j + 1] else null
      modifies this`leavesCount, leftLeaf`next, (if next == null then {} else {next})`prev
      ensures root != null && Inv(Whole, null) && Contents(V()) == old(Contents(V()))
      ensures leavesCount == old(leavesCount) - 1
    {
      hide *;
      OpenedB(Whole, null, 0);
      ghost var u := V();
      ChainPlaces(u, j);
      Unlink(nodes, capacity, leftLeaf, next);
      ViewIs();
      UnlinkStep(u, V(), j, r, leftLeaf, next, capacity);
      leavesCount := leavesCount - 1;
      Closed(Whole, null);
    }

    // What line 609 spoils: the items past leftSize of the left leaf are to move, and the right buffer holds others.
    ghost predicate SpoilsPair(l: Node, rightBuffer: seq<Item>, rightSize: nat)
      requires l.size <= |l.items|
      reads l
    {
      var leftSize := (l.size + rightSize) / 2;
      asWritten && leftSize < l.size && l.items[leftSize..l.size] != Prefix(rightBuffer, l.size - leftSize)
    }

    // RearrangeItems with the items shared out anew
    method EvenAt(leftLeaf: Node, rightLeaf: Node, ghost under: Node) returns (ghost spoiled: bool)
      requires Inv(Whole, under) && leftLeaf in nodes && rightLeaf in nodes && (under == leftLeaf || under == rightLeaf)
      requires leftLeaf.level == 0 && rightLeaf.level == 0 && rightLeaf.lo == leftLeaf.lo + 1 && leftLeaf != root
      requires capacity.leaf < leftLeaf.size + rightLeaf.size && rightLeaf.size > 0 && leftLeaf.size <= |leftLeaf.items|
      modifies leftLeaf`items, leftLeaf`size, rightLeaf`items, rightLeaf`size
      modifies nodes`keys
      ensures root != null && spoiled == old(SpoilsPair(leftLeaf, rightLeaf.items, rightLeaf.size))
      ensures leftLeaf.size == old(leftLeaf.size + rightLeaf.size) / 2
        && leftLeaf.size + rightLeaf.size == old(leftLeaf.size + rightLeaf.size)
      ensures !spoiled ==> Inv(Whole, null) && Contents(V()) == old(Contents(V()))
      ensures spoiled ==> Contents(V()) != old(Contents(V()))
    {
      hide *;
      Opened(Whole, under);
      ghost var v := V();
      LeafFacts(Whole, under, leftLeaf);
      LeafFacts(Whole, under, rightLeaf);
      ghost var all := v.s[leftLeaf].items + v.s[rightLeaf].items;
      ghost var m := (leftLeaf.size + rightLeaf.size) / 2;
      ghost var rest := Rest(v.s[leftLeaf], v.s[rightLeaf], rightLeaf.items, m, asWritten);
      spoiled := SpoilsPair(leftLeaf, rightLeaf.items, rightLeaf.size);
      SpoilsIs(leftLeaf, rightLeaf, v.s[leftLeaf], v.s[rightLeaf], m);
      EvenLeaves(nodes, capacity, leftLeaf, rightLeaf, asWritten);
      ViewIs();
      ghost var u := V();
      FoldDealt(v, u, leftLeaf, rightLeaf, all[..m], rest);
      DealtSame(v, u, leftLeaf, rightLeaf, all[..m], rest);
      RepairAbove(leftLeaf, leftLeaf.items[leftLeaf.size - 1].key);
      ViewIs();
      RepairedContents(u, V(), leftLeaf.lo, all[m - 1].key);
      if !spoiled {
        EvenStep(v, u, V(), leftLeaf, rightLeaf, all[..m], rest, capacity, under);
        Closed(Whole, null);
      }
    }

    // the items of the pair are kept exactly when nothing is spoiled
    lemma SpoilsIs(l: Node, r: Node, lr: Rec, rr: Rec, m: nat)
      requires l.size <= |l.items| && r.size <= |r.items| && lr.items == l.items[..l.size]
        && rr.items == r.items[..r.size]
      requires m == (l.size + r.size) / 2 && l.size + r.size <= |r.items| + m
      ensures var all := lr.items + rr.items; var rest := Rest(lr, rr, r.items, m, asWritten);
        && |all[..m] + rest| == |all| && |rest| == |all| - m
        && (all[..m] + rest == all <==> !SpoilsPair(l, r.items, r.size))
    {
      hide *;
      PairItems(l, lr.items, r.items, r.size, m);
      RestKeeps(lr, rr, m, r.items, asWritten);
    }

    lemma PairItems(l: Node, q: seq<Item>, rightBuffer: seq<Item>, rightSize: nat, m: nat)
      requires l.size <= |l.items| && q == l.items[..l.size] && m == (l.size + rightSize) / 2
        && l.size <= |rightBuffer| + m
      ensures SpoilsPair(l, rightBuffer, rightSize) <==> Differs(q, rightBuffer, m, asWritten)
    {
      hide SpoilsPair;
      PairIs(l, rightBuffer, rightSize);
      if m < l.size {
        assert l.items[m..l.size] == q[m..];
      }
    }

    lemma PairIs(l: Node, rightBuffer: seq<Item>, rightSize: nat)
      requires l.size <= |l.items| && l.size <= |rightBuffer| + (l.size + rightSize) / 2
      ensures var m := (l.size + rightSize) / 2;
        SpoilsPair(l, rightBuffer, rightSize) <==>
            asWritten && m < l.size && l.items[m..l.size] != rightBuffer[..l.size - m]
    {
    }

    lemma FoldDealt(v: View, u: View, l: Node, r: Node, p: seq<Item>, q: seq<Item>)
      requires Tree(v, Whole) && IsLeafOf(v, l) && IsLeafOf(v, r) && v.s[r].lo == v.s[l].lo + 1 && u.root == v.root
        && u.chain == v.chain
      requires u.s == Put(Put(v.s, l, p), r, q)
      ensures Dealt(v, u, l, r, p, q) && Tree(u, Whole)
    {
      hide Tree, Put;
      DealtShape(v, u, l, r, p, q);
    }

    lemma RepairedContents(v: View, w: View, j: nat, key: int)
      requires Repaired(v, w, j, key)
      ensures Contents(w) == Contents(v)
    {
      hide Repaired;
      RepairShape(v, w, j, key);
    }

    // the same for a leaf that gives up its left sibling's items, seen from the leaf with its buffer and size
    ghost predicate SpoilsWith(leaf: Node, buffer: seq<Item>, leafSize: nat)
      reads `nodes, nodes
    {
      && leaf in nodes && leafSize < capacity.leaf / 2 && leaf.parent != null && leaf.parent in nodes
        && 0 < leaf.slot < |leaf.parent.childs|
      && leaf.parent.childs[leaf.slot - 1] in nodes
      && LeftSpoils(leaf.parent.childs[leaf.slot - 1], buffer, leafSize)
    }

    ghost predicate LeftSpoils(l: Node, buffer: seq<Item>, leafSize: nat)
      reads l
    {
      l.size <= |l.items| && capacity.leaf < l.size + leafSize && SpoilsPair(l, buffer, leafSize)
    }

    // taking out the item at slot ends in the move of line 609, with other items in the way
    ghost predicate Spoils(leaf: Node, slot: nat)
      requires slot < leaf.size <= |leaf.items|
      reads `nodes, nodes, leaf
    {
      SpoilsWith(leaf, ArrayDelete(leaf.items[slot := Item(0, 0)], slot, leaf.size, 1), leaf.size - 1)
    }

    // all items of the pair go to its left leaf, and the right one goes
    method JoinAndDrop(p: Node, i: nat, leftLeaf: Node, rightLeaf: Node, ghost under: Node)
      requires Inv(Whole, under) && p in nodes && leftLeaf in nodes && rightLeaf in nodes && Pair(V(), p, i)
        && p.level == 1
      requires leftLeaf.level == 0 && rightLeaf.level == 0 && (under == leftLeaf || under == rightLeaf)
      requires i < p.size && p.size < |p.childs| && p.childs[i] == leftLeaf && p.childs[i + 1] == rightLeaf
      requires capacity.leaf / 2 <= leftLeaf.size + rightLeaf.size <= capacity.leaf
      modifies this`root, this`branchesCount, this`nodes, this`chain, this`leavesCount, nodes
      ensures root != null && nodes <= old(nodes) && Inv(Whole, null) && Contents(V()) == old(Contents(V()))
      ensures leavesCount == old(leavesCount) - 1
      ensures branchesCount
        == old(branchesCount) - old(Drops(Snap(nodes), capacity, p, p.size - 1, root.level))
    {
      hide *;
      OutlineInv(Whole, under);
      ghost var s := V().s;
      SnapAt(nodes, p);
      label before:
      ghost var j := JoinAt(p, i, leftLeaf, rightLeaf, under);
      OutlineKept@before(s);
      OpenedB(Dead(rightLeaf), null, 0);
      OutlineHere();
      OutlinesSame(s, V().s);
      DropsSame(s, V().s, capacity, p, p.size - 1, root.level, 1);
      DropLeaf(rightLeaf, j);
    }

    // an underfull leaf takes from or joins its sibling
    method FixLeaf(leaf: Node) returns (ghost spoiled: bool)
      requires Inv(Whole, leaf) && leaf in nodes && leaf.level == 0 && leaf.parent != null
        && leaf.size < capacity.leaf / 2
      modifies this`root, this`branchesCount, this`nodes, this`chain, this`leavesCount, nodes
      ensures root != null && nodes <= old(nodes) && spoiled == old(SpoilsWith(leaf, leaf.items, leaf.size))
      ensures !spoiled ==> Inv(Whole, null) && Contents(V()) == old(Contents(V()))
      ensures spoiled ==> Contents(V()) != old(Contents(V()))
      ensures leavesCount == old(leavesCount) - (if old(JoinsWith(leaf, leaf.size)) then 1 else 0)
      ensures branchesCount == old(branchesCount) - (if old(JoinsWith(leaf,
        leaf.size)) then old(DropsAbove(leaf)) else 0)
    {
      hide *;
      Opened(Whole, leaf);
      ghost var v := V();
      RootParts(v, Whole);
      LeafFacts(Whole, leaf, leaf);
      var i := if leaf.slot == 0 then 0 else leaf.slot - 1;
      LeafPair(v, capacity, leaf, i);
      var p := leaf.parent;
      SnapAt(nodes, p);
      BranchFacts(p);
      assert p.childs[i] == v.s[p].childs[i] && p.childs[i + 1] == v.s[p].childs[i + 1];
      var leftLeaf, rightLeaf := p.childs[i], p.childs[i + 1];
      SnapAt(nodes, leftLeaf);
      SnapAt(nodes, rightLeaf);
      LeafFacts(Whole, leaf, leftLeaf);
      LeafFacts(Whole, leaf, rightLeaf);
      spoiled := SpoilsWith(leaf, leaf.items, leaf.size);
      SpoilsHere(leaf, p, leftLeaf, rightLeaf);
      JoinsHere(leaf, p, leftLeaf, rightLeaf);
      DropsAboveIs(leaf);
      if leftLeaf.size + rightLeaf.size <= capacity.leaf {
        JoinAndDrop(p, i, leftLeaf, rightLeaf, leaf);
      } else {
        ghost var lost := EvenAt(leftLeaf, rightLeaf, leaf);
      }
    }

    // A leaf left with so many items joins the sibling before it, or the one behind when it is the first, if one leaf
    // holds them all.
    ghost predicate JoinsWith(leaf: Node, leafSize: int)
      reads `nodes, nodes
    {
      && leaf in nodes && leaf.parent != null && leaf.parent in nodes
      && var k := if leaf.slot == 0 then 1 else leaf.slot - 1;
      && k <= leaf.parent.size < |leaf.parent.childs| && leaf.parent.childs[k] in nodes
      && leafSize + leaf.parent.childs[k].size <= capacity.leaf
    }

    lemma JoinsHere(leaf: Node, p: Node, l: Node, r: Node)
      requires leaf in nodes && leaf.parent == p && p in nodes && l in nodes && r in nodes
        && leaf.slot <= p.size < |p.childs|
      requires if leaf.slot == 0 then l == leaf && 1 <= p.size && p.childs[1] == r
               else r == leaf && p.childs[leaf.slot - 1] == l
      ensures JoinsWith(leaf, leaf.size) <==> l.size + r.size <= capacity.leaf
    {
    }

    // how many branches go with a leaf
    ghost function DropsAbove(leaf: Node): nat
      reads `root, `nodes, nodes, leaf, leaf.parent, root
    {
      if root == null
          || leaf.parent == null then 0 else Drops(Snap(nodes), capacity, leaf.parent, leaf.parent.size - 1, root.level)
    }

    lemma DropsAboveIs(leaf: Node)
      requires root != null && leaf.parent != null
      ensures DropsAbove(leaf) == Drops(Snap(nodes), capacity, leaf.parent, leaf.parent.size - 1, root.level)
    {
    }

    ghost predicate OutlineAt(s: Store, n: Node)
      reads n`size, n`parent, n`slot, n`childs
    {
      && n in s && s[n].level == n.level
      && (n.level > 0 ==>
            && n.size < |n.childs| && |s[n].keys| == n.size && s[n].parent == n.parent && s[n].slot == n.slot
            && s[n].childs == n.childs[..n.size + 1])
    }

    // s tells which branches there are, how many keys and which children they have
    ghost predicate Outline(s: Store)
      reads `nodes, nodes`size, nodes`parent, nodes`slot, nodes`childs
    {
      s.Keys == nodes && forall n :: n in nodes ==> OutlineAt(s, n)
    }

    lemma OutlineHere()
      requires root != null && Sized(nodes, capacity)
      ensures Outline(V().s)
    {
      hide *;
      ViewIs();
      forall n | n in nodes ensures OutlineAt(V().s, n) {
        SnapAt(nodes, n);
        if n.level > 0 { BranchFacts(n); }
        OutlineOf(V().s, n);
      }
      OutlineFold(V().s);
    }

    lemma OutlineOf(s: Store, n: Node)
      requires n in s && s[n].level == n.level
      requires n.level > 0 ==> n.size < |n.childs| && |s[n].keys| == n.size && s[n].parent == n.parent
                                 && s[n].slot == n.slot && s[n].childs == n.childs[..n.size + 1]
      ensures OutlineAt(s, n)
    {
    }

    lemma OutlineLevel(s: Store, n: Node)
      requires Outline(s) && n in nodes
      ensures n in s && s[n].level == n.level
    {
      assert OutlineAt(s, n);
    }

    lemma OutlineFold(s: Store)
      requires s.Keys == nodes && forall n :: n in nodes ==> OutlineAt(s, n)
      ensures Outline(s)
    {
    }

    twostate lemma OutlineKept(s: Store)
      requires old(Outline(s)) && nodes == old(nodes)
      requires forall n :: n in nodes && n.level > 0 ==>
                 n.size == old(n.size) && n.parent == old(n.parent) && n.slot == old(n.slot)
                     && n.childs == old(n.childs)
      ensures Outline(s)
    {
      forall n | n in nodes ensures OutlineAt(s, n) { assert old(OutlineAt(s, n)); }
    }

    lemma OutlinesSame(s: Store, t: Store)
      requires Outline(s) && Outline(t)
      ensures SameAbove(s, t, 1)
    {
      forall n | n in nodes && n.level > 0 ensures Alike(s, t, n) { assert OutlineAt(s, n) && OutlineAt(t, n); }
      forall n | n in nodes ensures s[n].level == t[n].level == n.level { assert OutlineAt(s, n) && OutlineAt(t, n); }
    }

    lemma SpoilsHere(leaf: Node, p: Node, l: Node, r: Node)
      requires leaf in nodes && leaf.parent == p && p in nodes && l in nodes && leaf.size < capacity.leaf / 2
        && l.size <= |l.items|
      requires leaf.slot < |p.childs|
        && (if leaf.slot == 0 then l == leaf else r == leaf && p.childs[leaf.slot - 1] == l)
      ensures l.size + r.size <= capacity.leaf ==> !SpoilsWith(leaf, leaf.items, leaf.size)
      ensures l.size + r.size > capacity.leaf ==>
        SpoilsWith(leaf, leaf.items, leaf.size) == SpoilsPair(l, r.items, r.size)
    {
    }

    // the last leaf goes when it is emptied
    method DropLast()
      requires root != null && root in nodes && root.level == 0 && root.size == 0 && Inv(Whole, root) && size == 0
      modifies this`root, this`firstLeaf, this`leavesCount, this`nodes, this`chain
      ensures root == null && Valid() && old(Contents(V())) == [] && leavesCount == old(leavesCount) - 1
    {
      hide *;
      Opened(Whole, root);
      LeafFacts(Whole, root, root);
      SoleRoot(V());
      leavesCount := leavesCount - 1;
      root := null;
      firstLeaf := null;
      nodes, chain := {}, [];
      ValidParts();
    }

    lemma NoSpoils(leaf: Node, buffer: seq<Item>)
      requires leaf.size >= capacity.leaf / 2 || leaf.parent == null
      ensures !SpoilsWith(leaf, buffer, leaf.size)
    {
    }

    lemma OtherSlot(leaf: Node, k: nat)
      requires Inv(Whole, null) && leaf in nodes && leaf.level == 0 && leaf.parent != null && leaf.parent in nodes
      requires k <= leaf.parent.size < |leaf.parent.childs| && k != leaf.slot
      ensures leaf.parent.childs[k] != leaf
    {
      hide *;
      Opened(Whole, null);
      LeafFacts(Whole, null, leaf);
      RootParts(V(), Whole);
      LeafParent(V(), leaf);
      SnapAt(nodes, leaf.parent);
      BranchFacts(leaf.parent);
      LinkBefore(V(), leaf.parent, k);
      assert leaf.parent.childs[k] == V().s[leaf.parent].childs[k];
    }

    // a leaf is not its own sibling
    lemma SiblingOther(leaf: Node)
      requires Inv(Whole, null) && leaf in nodes && leaf.level == 0
      ensures root != null && leaf.parent != null ==>
        && leaf.parent in nodes && leaf.parent.level > 0 && leaf.slot <= leaf.parent.size < |leaf.parent.childs|
        && forall k :: 0 <= k <= leaf.parent.size && k != leaf.slot ==> leaf.parent.childs[k] != leaf
    {
      hide *;
      Opened(Whole, null);
      LeafFacts(Whole, null, leaf);
      RootParts(V(), Whole);
      LeafParent(V(), leaf);
      if leaf.parent != null {
        SnapAt(nodes, leaf.parent);
        BranchFacts(leaf.parent);
        forall k | 0 <= k <= leaf.parent.size && k != leaf.slot ensures leaf.parent.childs[k] != leaf {
          OtherSlot(leaf, k);
        }
      }
    }

    lemma OutlineInv(h: Hole, under: Node?)
      requires Inv(h, under)
      ensures root != null && V() == View(Snap(nodes), root, chain) && Outline(V().s)
    {
      hide *;
      Opened(h, under);
      OutlineHere();
    }

    twostate lemma DropsAboveSame(leaf: Node)
      requires old(root != null && Outline(Snap(nodes))) && root != null && Outline(Snap(nodes))
      requires root == old(root) && nodes == old(nodes) && old(allocated(leaf)) && leaf in nodes
      requires forall n :: n in nodes && n.level > 0 ==>
                 n.size == old(n.size) && n.parent == old(n.parent) && n.slot == old(n.slot)
                     && n.childs == old(n.childs)
      requires leaf.parent == old(leaf.parent)
        && (leaf.parent != null ==> leaf.parent in nodes && leaf.parent.level > 0)
      ensures DropsAbove(leaf) == old(DropsAbove(leaf))
    {
      hide Outline, OutlineAt, SameAbove, Drops, Snap;
      ghost var s := old(Snap(nodes));
      OutlineKept(s);
      OutlinesSame(s, Snap(nodes));
      if leaf.parent != null {
        OutlineLevel(s, leaf.parent);
        DropsSame(s, Snap(nodes), capacity, leaf.parent, leaf.parent.size - 1, root.level, 1);
        DropsAboveIs(leaf);
      }
    }

    lemma LinkBefore(v: View, b: Node, i: nat)
      requires Tree(v, Whole) && b in v.s && i < |v.s[b].childs|
      ensures v.s[b].childs[i] in v.s && v.s[v.s[b].childs[i]].slot == i
    {
      LinkAt(v, Whole, b, i);
    }

    // what the tree looks like from the leaf: its sibling, and the branches above
    ghost predicate SiblingApart(leaf: Node)
      reads `nodes, leaf, leaf.parent
    {
      leaf.parent != null ==>
        && leaf.parent in nodes && leaf.parent.level > 0 && leaf.slot <= leaf.parent.size < |leaf.parent.childs|
        && forall k :: 0 <= k <= leaf.parent.size && k != leaf.slot ==> leaf.parent.childs[k] != leaf
    }

    lemma SiblingApartFold(leaf: Node)
      requires leaf.parent != null ==>
        && leaf.parent in nodes && leaf.parent.level > 0 && leaf.slot <= leaf.parent.size < |leaf.parent.childs|
        && forall k :: 0 <= k <= leaf.parent.size && k != leaf.slot ==> leaf.parent.childs[k] != leaf
      ensures SiblingApart(leaf)
    {
    }

    // taking an item out of the leaf changes nothing else about what decides how it is repaired
    twostate lemma RemovalSeen(leaf: Node)
      requires leaf in old(nodes) && leaf.level == 0 && nodes == old(nodes) && root == old(root) && root != null
      requires old(SiblingApart(leaf)) && old(Outline(Snap(nodes))) && Outline(Snap(nodes))
      requires forall n :: n in nodes ==>
                 n.parent == old(n.parent) && n.slot == old(n.slot) && n.childs == old(n.childs)
                 && (n != leaf ==> n.size == old(n.size) && n.items == old(n.items))
      ensures forall buffer: seq<Item>, n: nat :: SpoilsWith(leaf, buffer, n) == old(SpoilsWith(leaf, buffer, n))
      ensures forall n: nat :: JoinsWith(leaf, n) == old(JoinsWith(leaf, n))
      ensures DropsAbove(leaf) == old(DropsAbove(leaf))
    {
      hide Outline, Snap, Prefix, DropsAbove;
      DropsAboveSame(leaf);
    }

    lemma SpoilsIsWith(leaf: Node, slot: nat)
      requires slot < leaf.size <= |leaf.items|
      ensures Spoils(leaf, slot)
        == SpoilsWith(leaf, ArrayDelete(leaf.items[slot := Item(0, 0)], slot, leaf.size, 1), leaf.size - 1)
    {
      hide SpoilsWith, ArrayDelete;
    }

    // Leaf::Delete, and what it means for a move that may follow
    method RemoveNoting(leaf: Node, slot: nat) returns (ghost pos: nat)
      requires Inv(Whole, null) && leaf in nodes && leaf.level == 0 && slot < leaf.size <= |leaf.items|
      modifies leaf`items, leaf`size
      modifies nodes`keys
      ensures Inv(Whole, leaf) && leaf.size == old(leaf.size) - 1
      ensures pos < |old(Contents(V()))| && old(Contents(V()))[pos] == old(leaf.items[slot])
      ensures Contents(V()) == Removed(old(Contents(V())), pos)
      ensures SpoilsWith(leaf, leaf.items, leaf.size) == old(Spoils(leaf, slot))
      ensures JoinsWith(leaf, leaf.size) == old(JoinsWith(leaf, leaf.size - 1))
      ensures DropsAbove(leaf) == old(DropsAbove(leaf))
    {
      hide *;
      OutlineInv(Whole, null);
      SiblingOther(leaf);
      SiblingApartFold(leaf);
      SpoilsIsWith(leaf, slot);
      label before:
      pos := RemoveAt(leaf, slot);
      OutlineInv(Whole, leaf);
      RemovalSeen@before(leaf);
    }

    lemma SpoilsOnlyAsWritten(leaf: Node, slot: nat)
      requires slot < leaf.size <= |leaf.items|
      ensures Spoils(leaf, slot) ==> asWritten
    {
      hide ArrayDelete, Prefix;
    }

    method DeleteFromLeaf(leaf: Node, slot: nat) returns (ghost pos: nat, ghost spoiled: bool)
      requires Valid() && leaf in nodes && leaf.level == 0 && slot < leaf.size <= |leaf.items|
      modifies this`root, this`firstLeaf, this`size, this`branchesCount, this`nodes, this`chain, this`leavesCount, nodes
      ensures nodes <= old(nodes) && size == old(size) - 1
      ensures pos < |old(Items())| && old(Items())[pos] == old(leaf.items[slot]) && spoiled == old(Spoils(leaf, slot))
      ensures spoiled ==> asWritten
      ensures !spoiled ==> Valid() && Items() == Removed(old(Items()), pos)
      ensures spoiled ==> Items() != Removed(old(Items()), pos)
      ensures leavesCount == old(leavesCount) - (if old(LeafGoes(leaf)) then 1 else 0)
      ensures branchesCount == old(branchesCount) - (if old(LeafGoes(leaf)) then old(DropsAbove(leaf)) else 0)
    {
      hide *;
      ValidParts();
      ItemsParts();
      LeafGoesIs(leaf);
      SpoilsOnlyAsWritten(leaf, slot);
      pos := RemoveNoting(leaf, slot);
      RemovedOrdered(old(Items()), pos, unique);
      size := size - 1;
      ghost var w := V();
      Opened(Whole, leaf);
      LeafFacts(Whole, leaf, leaf);
      RootParts(w, Whole);
      if leaf.size >= capacity.leaf / 2 {
        LeafFillBack(w, capacity, leaf);
        Closed(Whole, null);
        NoSpoils(leaf, leaf.items);
        spoiled := false;
      } else if leaf.parent == null {
        NoSpoils(leaf, leaf.items);
        if leaf.size == 0 {
          SoleRoot(w);
          DropLast();
        } else {
          LeafFillBack(w, capacity, leaf);
          Closed(Whole, null);
        }
        spoiled := false;
      } else {
        spoiled := FixLeaf(leaf);
      }
      ValidParts();
      ItemsParts();
    }

    // taking an item out makes the leaf go: it joins its sibling, or was the last one
    ghost predicate LeafGoes(leaf: Node)
      reads `nodes, nodes, leaf
    {
      && leaf.size - 1 < capacity.leaf / 2
      && if leaf.parent == null then leaf.size == 1 else JoinsWith(leaf, leaf.size - 1)
    }

    lemma LeafGoesIs(leaf: Node)
      ensures LeafGoes(leaf) <==>
        && leaf.size - 1 < capacity.leaf / 2
        && if leaf.parent == null then leaf.size == 1 else JoinsWith(leaf, leaf.size - 1)
      ensures leaf.parent == null ==> DropsAbove(leaf) == 0
    {
    }

    // how many leaves and branches go when key is deleted: both told from the tree before the call
    ghost function LeavesLost(key: int): nat
      reads this, nodes
    {
      var (leaf, _) := Place(key);
      if leaf != null && leaf in nodes && LeafGoes(leaf) then 1 else 0
    }

    ghost function BranchesLost(key: int): nat
      requires Valid()
      reads this, nodes
    {
      var (leaf, _) := Place(key);
      if leaf != null && leaf in nodes && LeafGoes(leaf) then DropsAbove(leaf) else 0
    }

    lemma LostIs(key: int, leaf: Node, slot: nat)
      requires Valid() && Place(key) == (leaf, slot) && leaf in nodes
      ensures LeavesLost(key) == if LeafGoes(leaf) then 1 else 0
      ensures BranchesLost(key) == if LeafGoes(leaf) then DropsAbove(leaf) else 0
    {
      hide Place, LeafGoes, DropsAbove;
    }

    lemma LostNone(key: int)
      requires Valid() && Place(key).0 == null
      ensures LeavesLost(key) == BranchesLost(key) == 0
    {
      hide Place;
    }

    // Deleting key ends in the move of line 609 with other items in the way: a condition on the tree before the call.
    ghost predicate SpoilsKey(key: int)
      reads this, nodes
    {
      var (leaf, slot) := Place(key);
      leaf != null && leaf in nodes && slot < leaf.size <= |leaf.items| && Spoils(leaf, slot)
    }

    lemma SpoilsKeyIs(key: int, leaf: Node, slot: nat)
      requires Place(key) == (leaf, slot) && leaf in nodes && slot < leaf.size <= |leaf.items|
      ensures SpoilsKey(key) <==> Spoils(leaf, slot)
    {
      hide Place, Spoils;
    }

    lemma SpoilsNothing(key: int)
      requires Place(key).0 == null
      ensures !SpoilsKey(key)
    {
      hide Place;
    }

    // the left sibling of a leaf that holds key is about to lend
    ghost predicate LendsFor(key: int)
      reads this, nodes
    {
      exists leaf, slot :: leaf in nodes && Holds(leaf, slot, key) && Lends(leaf)
    }

    ghost predicate Holds(leaf: Node, slot: int, key: int)
      reads `nodes, nodes
    {
      leaf in nodes && leaf.level == 0 && 0 <= slot < leaf.size <= |leaf.items| && leaf.items[slot].key == key
    }

    lemma LendsForSome(key: int, leaf: Node, slot: nat)
      requires Holds(leaf, slot, key) && Lends(leaf)
      ensures LendsFor(key)
    {
      hide Lends;
    }

    // with unique keys there is only one such leaf
    lemma LendsForIs(key: int, leaf: Node, slot: nat)
      requires Valid() && unique && Holds(leaf, slot, key)
      ensures LendsFor(key) <==> Lends(leaf)
    {
      hide Lends, Inv, V, Contents, Ordered, Valid;
      forall other, at | Holds(other, at, key) ensures other == leaf {
        HoldsOnce(leaf, slot, other, at, key);
      }
    }

    lemma HoldsOnce(leaf: Node, slot: nat, other: Node, at: nat, key: int)
      requires Valid() && unique && Holds(leaf, slot, key) && Holds(other, at, key)
      ensures other == leaf && at == slot
    {
      hide Inv, V, Contents, Ordered;
      Opened(Whole, null);
      LeafFacts(Whole, null, leaf);
      LeafFacts(Whole, null, other);
      OneSlot(V(), leaf, slot, other, at);
    }

    // Takes one occurrence of key out, the one a search ends at. Only the move of line 609 as written can keep it
    // from doing exactly that; with unique keys this happens exactly when the leaf of the key lends.
    method Delete(key: int) returns (deleted: bool, ghost pos: nat)
      requires Valid()
      modifies this`root, this`firstLeaf, this`size, this`branchesCount, this`nodes, this`chain, this`leavesCount, nodes
      ensures nodes <= old(nodes) && (deleted <==> HasKey(old(Items()), key))
      ensures !deleted ==> Valid() && Items() == old(Items()) && size == old(size)
      ensures deleted ==>
                && size == old(size) - 1 && pos < |old(Items())| && old(Items())[pos].key == key
                && old(Place(key).0 != null && Holds(Place(key).0, Place(key).1, key))
                && old(Items())[pos] == old(Place(key).0.items[Place(key).1])
      ensures deleted ==> (Valid() && Items() == Removed(old(Items()), pos) <==> !old(SpoilsKey(key)))
      ensures deleted && old(SpoilsKey(key)) ==> asWritten
      ensures deleted && unique ==> (old(SpoilsKey(key)) <==> asWritten && old(LendsFor(key)))
      ensures leavesCount == old(leavesCount) - old(LeavesLost(key))
      ensures branchesCount == old(branchesCount) - old(BranchesLost(key))
    {
      hide *;
      var leaf, slot := Find(key);
      pos := 0;
      if leaf == null {
        LostNone(key);
        return false, pos;
      }
      SpoilsKeyIs(key, leaf, slot);
      LostIs(key, leaf, slot);
      HoldsIs(leaf, slot, key);
      if unique {
        SpoilsWhenLending(leaf, slot);
        LendsForIs(key, leaf, slot);
      }
      SpoilsOnlyAsWritten(leaf, slot);
      ghost var spoiled;
      pos, spoiled := DeleteFromLeaf(leaf, slot);
      deleted := true;
    }

    lemma HoldsIs(leaf: Node, slot: nat, key: int)
      ensures Holds(leaf, slot, key) <==>
                leaf in nodes && leaf.level == 0 && slot < leaf.size <= |leaf.items| && leaf.items[slot].key == key
    {
    }

    // the left sibling of the leaf is about to lend items to it: the guard of the move of line 609
    ghost predicate Lends(leaf: Node)
      reads `nodes, nodes
    {
      && leaf in nodes && leaf.size - 1 < capacity.leaf / 2 && leaf.parent != null && leaf.parent in nodes
      && 0 < leaf.slot < |leaf.parent.childs| && leaf.parent.childs[leaf.slot - 1] in nodes
      && capacity.leaf < leaf.parent.childs[leaf.slot - 1].size + leaf.size - 1
    }

    // the same on the fields alone
    lemma LendsIs(leaf: Node)
      requires Valid() && leaf in nodes && leaf.level == 0
      ensures leaf.parent != null ==> leaf.parent in nodes && leaf.slot < |leaf.parent.childs|
      ensures leaf.parent != null && leaf.slot > 0 ==> leaf.parent.childs[leaf.slot - 1] in nodes
      ensures Lends(leaf) <==>
                && leaf.size - 1 < capacity.leaf / 2 && leaf.parent != null && leaf.slot > 0
                && capacity.leaf < leaf.parent.childs[leaf.slot - 1].size + leaf.size - 1
    {
      hide Inv, V, Valid;
      LeafAbove(leaf);
      if leaf.parent != null && leaf.slot > 0 {
        SiblingBefore(leaf);
      }
    }

    lemma LeafAbove(leaf: Node)
      requires Valid() && leaf in nodes && leaf.level == 0
      ensures leaf.parent != null ==> leaf.parent in nodes && leaf.slot < |leaf.parent.childs|
    {
      hide *;
      ValidParts();
      RootNot(leaf);
      Opened(Whole, null);
      LeafFacts(Whole, null, leaf);
      RootParts(V(), Whole);
      if leaf.parent != null {
        LeafParent(V(), leaf);
        SnapAt(nodes, leaf.parent);
        BranchFacts(leaf.parent);
      }
    }

    lemma SpoilsLends(leaf: Node, slot: nat)
      requires slot < leaf.size <= |leaf.items|
      ensures Spoils(leaf, slot) ==> asWritten && Lends(leaf)
    {
      hide ArrayDelete, Prefix;
    }

    // the items that should move are smaller than all that stand in the right buffer
    lemma MovedDiffer(l: Node, leaf: Node, slot: nat, k: nat)
      requires Valid() && unique && leaf in nodes && l in nodes && leaf.level == 0 && l.level == 0
        && leaf.lo == l.lo + 1
      requires slot < leaf.size <= |leaf.items| && leaf.size > 1 && k < l.size <= |l.items|
      ensures l.items[k..l.size] != Prefix(ArrayDelete(leaf.items[slot := Item(0, 0)], slot, leaf.size, 1), l.size - k)
    {
      hide *;
      ValidParts();
      Opened(Whole, null);
      LeafFacts(Whole, null, l);
      LeafFacts(Whole, null, leaf);
      LeavesApart(V(), l, leaf);
      BuffersDiffer(l.items, l.size, leaf.items, leaf.size, slot, k);
    }

    lemma BuffersDiffer(left: seq<Item>, ls: nat, right: seq<Item>, rs: nat, slot: nat, k: nat)
      requires k < ls <= |left| && slot < rs <= |right| && rs > 1
      requires forall a, b :: 0 <= a < ls && 0 <= b < rs ==> left[..ls][a].key < right[..rs][b].key
      ensures left[k..ls] != Prefix(ArrayDelete(right[slot := Item(0, 0)], slot, rs, 1), ls - k)
    {
      var buffer := ArrayDelete(right[slot := Item(0, 0)], slot, rs, 1);
      var b := if slot == 0 then 1 else 0;
      assert buffer[0] == right[..rs][b];
      assert left[k..ls][0] == left[..ls][k] && left[..ls][k].key < right[..rs][b].key;
      assert Prefix(buffer, ls - k)[0] == buffer[0];
    }

    // With unique keys the code as written goes wrong exactly when the left sibling lends.
    lemma SpoilsWhenLending(leaf: Node, slot: nat)
      requires Valid() && unique && leaf in nodes && leaf.level == 0 && slot < leaf.size <= |leaf.items|
      ensures Spoils(leaf, slot) <==> asWritten && Lends(leaf)
    {
      hide Inv, V, Contents, Ordered, ArrayDelete, Prefix, Valid;
      if asWritten && Lends(leaf) {
        var l := leaf.parent.childs[leaf.slot - 1];
        SiblingBefore(leaf);
        var k := (l.size + leaf.size - 1) / 2;
        assert k < l.size;
        MovedDiffer(l, leaf, slot, k);
      }
    }

    // the child before a leaf in its parent is the leaf before it
    lemma SiblingBefore(leaf: Node)
      requires Valid() && leaf in nodes && leaf.level == 0 && leaf.parent != null && leaf.parent in nodes
        && 0 < leaf.slot < |leaf.parent.childs|
      ensures var l := leaf.parent.childs[leaf.slot - 1];
        l in nodes && l.level == 0 && leaf.lo == l.lo + 1 && l.size <= capacity.leaf == |l.items|
    {
      hide *;
      ValidParts();
      RootNot(leaf);
      Opened(Whole, null);
      LeafFacts(Whole, null, leaf);
      LeafParent(V(), leaf);
      RootParts(V(), Whole);
      SnapAt(nodes, leaf.parent);
      BranchFacts(leaf.parent);
      var l := leaf.parent.childs[leaf.slot - 1];
      assert l == V().s[leaf.parent].childs[leaf.slot - 1];
      LeafBefore(V(), leaf.parent, leaf.slot);
      SnapAt(nodes, l);
      LeafFacts(Whole, null, l);
    }

    lemma RootNot(leaf: Node)
      requires Valid() && leaf in nodes
      ensures root != null
    {
      hide Inv, V;
    }

    // ---------- the items along the chain

    // slot i of leaf holds item pos of the contents
    ghost predicate Stands(leaf: Node, i: nat, pos: nat)
      requires root != null
      reads `root, `nodes, `chain, nodes, leaf
    {
      leaf in nodes && leaf.level == 0 && i < leaf.size <= |leaf.items| && leaf.lo < |chain|
          && pos == |FlatTo(V().s, chain, leaf.lo)| + i
    }

    lemma FirstStands()
      requires Valid() && root != null
      ensures firstLeaf != null && Stands(firstLeaf, 0, 0)
    {
      hide Inv, V, Contents, FlatTo, Ordered;
      Opened(Whole, null);
      ChainPlaces(V(), 0);
      FirstFull(V(), capacity);
      SnapAt(nodes, firstLeaf);
      LeafFacts(Whole, null, firstLeaf);
      FlatNone(V().s, chain);
    }

    lemma FlatNone(s: Store, q: seq<Node>)
      ensures FlatTo(s, q, 0) == []
    {
    }

    lemma StandsHere(leaf: Node, i: nat, pos: nat)
      requires Valid() && root != null && Stands(leaf, i, pos)
      ensures pos < |Items()| && Items()[pos] == leaf.items[i]
    {
      hide Inv, V, Contents, FlatTo, Ordered;
      Opened(Whole, null);
      LeafFacts(Whole, null, leaf);
      AroundLeaf(V(), leaf);
      var p := |FlatTo(V().s, chain, leaf.lo)|;
      assert Contents(V())[p..p + leaf.size][i] == Contents(V())[p + i];
    }

    lemma StandsNext(leaf: Node, pos: nat)
      requires Valid() && root != null && leaf.size > 0 && Stands(leaf, leaf.size - 1, pos)
      ensures leaf.next == null ==> pos + 1 == |Items()|
      ensures leaf.next != null ==> Stands(leaf.next, 0, pos + 1)
    {
      hide Inv, V, Contents, FlatTo, Ordered;
      Opened(Whole, null);
      LeafFacts(Whole, null, leaf);
      NextFacts(leaf);
      AroundLeaf(V(), leaf);
      if leaf.next != null {
        LeafFacts(Whole, null, leaf.next);
        LeafFull(V(), capacity, leaf.next);
      } else {
        ContentsIs(V());
      }
    }

    lemma ContentsIs(v: View)
      ensures Contents(v) == FlatTo(v.s, v.chain, |v.chain|)
    {
    }
  }
}
