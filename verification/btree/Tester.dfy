// The tree's own self-test. On nodes that form a tree by their children it finds every fault but two.
module BTreeTester {
  import opened BTreeNodes
  import opened BTreeStructure
  import opened BTreeShape
  import opened BTreeLeafInserts
  import opened BTreeSearch
  import opened BTreeInsertSteps
  import opened BTreeNodeSteps
  import opened BTreeTree
  import opened BTreeTesterFacts

  // how far the test has come: all leaves before position h
  ghost predicate Seen(v: View, h: nat, isFirst: bool, prevLeaf: Node?, nextLeaf: Node?, key: int, items: nat,
      leaves: nat)
  {
    && h <= |v.chain| && leaves == h && items == |FlatTo(v.s, v.chain, h)| && (isFirst <==> h == 0)
    && (h > 0 ==>
      v.chain[h - 1] in v.s && prevLeaf == v.chain[h - 1] && nextLeaf == v.s[v.chain[h - 1]].next
      && key == LastKey(v, h))
  }

  lemma SeenAfter(v: View, a: Node, h: nat, isFirst: bool, prevLeaf: Node?, nextLeaf: Node?, key: int, items: nat,
      leaves: nat, last: int)
    requires a in v.s && h < |v.chain| && v.chain[h] == a && Seen(v, h, isFirst, prevLeaf, nextLeaf, key, items, leaves)
    requires |FlatTo(v.s, v.chain, h + 1)| == |FlatTo(v.s, v.chain, h)| + |v.s[a].items| && LastKey(v, h + 1) == last
    ensures Seen(v, h + 1, false, a, v.s[a].next, last, items + |v.s[a].items|, leaves + 1)
  {
    hide FlatTo, LastKey;
  }

  lemma SeenParts(v: View, h: nat, isFirst: bool, prevLeaf: Node?, nextLeaf: Node?, key: int, items: nat, leaves: nat)
    requires Seen(v, h, isFirst, prevLeaf, nextLeaf, key, items, leaves)
    ensures h <= |v.chain| && leaves == h && items == |FlatTo(v.s, v.chain, h)| && (isFirst <==> h == 0)
    ensures h > 0 ==>
      v.chain[h - 1] in v.s && prevLeaf == v.chain[h - 1] && nextLeaf == v.s[v.chain[h - 1]].next
      && key == LastKey(v, h)
  {
    hide FlatTo, LastKey;
  }

  lemma SeenNothing(v: View)
    ensures forall prevLeaf: Node?, nextLeaf: Node?, key: int :: Seen(v, 0, true, prevLeaf, nextLeaf, key, 0, 0)
  {
  }

  // ---------- fine parts and wholes

  lemma LeafFineParts(v: View, c: Capacity, unique: bool, j: nat)
    requires j < |v.chain| && v.chain[j] in v.s && (j > 0 ==> v.chain[j - 1] in v.s)
    ensures LeafFine(v, c, unique, j) <==>
      var r := v.s[v.chain[j]];
      && r.items != [] && (r.parent != null ==> |r.items| >= c.leaf / 2)
      && r.prev == (if j == 0 then null else v.chain[j - 1])
      && (j > 0 ==> v.s[v.chain[j - 1]].next == v.chain[j] && Follows(LastKey(v, j), r.items[0].key, unique))
      && forall i :: 0 < i < |r.items| ==> Follows(r.items[i - 1].key, r.items[i].key, unique)
  {
    hide LastKey, Follows;
  }

  lemma LeavesMore(v: View, c: Capacity, unique: bool, j: nat)
    requires LeavesFine(v, c, unique, j)
    ensures LeavesFine(v, c, unique, j + 1) <==> LeafFine(v, c, unique, j)
  {
    hide LeafFine;
  }

  lemma LeavesLess(v: View, c: Capacity, unique: bool, a: nat, b: nat)
    requires a <= b && LeavesFine(v, c, unique, b)
    ensures LeavesFine(v, c, unique, a)
  {
    hide LeafFine;
  }

  lemma BranchesLess(v: View, c: Capacity, a: set<Node>, b: set<Node>)
    requires a <= b && BranchesFine(v, c, b)
    ensures BranchesFine(v, c, a)
  {
    hide BranchFine;
  }

  lemma BranchesJoin(v: View, c: Capacity, a: set<Node>, b: set<Node>)
    ensures BranchesFine(v, c, a + b) <==> BranchesFine(v, c, a) && BranchesFine(v, c, b)
  {
    hide BranchFine;
    if BranchesFine(v, c, a + b) {
      BranchesLess(v, c, a, a + b);
      BranchesLess(v, c, b, a + b);
    }
  }

  lemma BranchesOne(v: View, c: Capacity, b: Node)
    ensures BranchesFine(v, c, {b}) <==> BranchFine(v, c, b)
    ensures BranchesFine(v, c, {})
  {
    hide BranchFine;
  }

  lemma BranchFineParts(v: View, c: Capacity, b: Node)
    requires b in v.s && |v.s[b].childs| == |v.s[b].keys| + 1
    requires forall i {:trigger v.s[b].childs[i]} :: 0 <= i < |v.s[b].childs| ==> v.s[b].childs[i] in v.s
    ensures BranchFine(v, c, b) <==>
      && (v.s[b].parent != null ==> |v.s[b].keys| >= c.branch / 2)
      && forall i {:trigger v.s[b].keys[i]} ::
        0 <= i < |v.s[b].keys| ==> LastKey(v, v.s[v.s[b].childs[i]].hi) == v.s[b].keys[i]
  {
    hide LastKey;
    forall i | 0 <= i < |v.s[b].keys|
        ensures SeparatorFine(v, b, i) <==> LastKey(v, v.s[v.s[b].childs[i]].hi) == v.s[b].keys[i] {
    }
  }

  lemma AllFineParts(v: View, c: Capacity, unique: bool)
    requires |v.chain| > 0 && v.chain[|v.chain| - 1] in v.s && v.root in v.s
    ensures AllFine(v, c, unique) <==>
      && LeavesFine(v, c, unique, |v.chain|) && BranchesFine(v, c, Branches(v.s))
      && v.s[v.chain[|v.chain| - 1]].next == null && (v.s[v.root].level > 0 ==> v.s[v.root].keys != [])
  {
    hide LeavesFine, BranchesFine, Branches;
  }

  class Tester {
    const tree: BTree
    var isFirstLeaf: bool
    var prevLeaf: Node?
    var nextLeaf: Node?
    var currentKey: int
    var itemsCount: nat
    var leavesCount: nat
    var branchesCount: nat

    constructor (tree: BTree)
      ensures this.tree == tree && isFirstLeaf && itemsCount == 0 && leavesCount == 0 && branchesCount == 0
        && nextLeaf == null
    {
      this.tree := tree;
      isFirstLeaf, prevLeaf, nextLeaf, currentKey := true, null, null, 0;
      itemsCount, leavesCount, branchesCount := 0, 0, 0;
    }

    ghost predicate At(v: View, h: nat)
      reads `isFirstLeaf, `prevLeaf, `nextLeaf, `currentKey, `itemsCount, `leavesCount
    {
      Seen(v, h, isFirstLeaf, prevLeaf, nextLeaf, currentKey, itemsCount, leavesCount)
    }

    // the nodes of the tree hang together
    ghost predicate Linked()
      reads tree, tree.nodes
    {
      && tree.capacity.leaf >= 2 && tree.capacity.branch >= 2
      && (tree.root == null ==> tree.nodes == {} && tree.chain == [])
      && (tree.root != null ==> Sized(tree.nodes, tree.capacity) && Tree(tree.V(), Whole))
    }

    ghost predicate Ready(v: View)
      reads tree, tree.nodes
    {
      Linked() && tree.root != null && v == tree.V()
    }

    // the nodes form a tree by their children
    ghost predicate Formed()
      reads tree, tree.nodes
    {
      && tree.capacity.leaf >= 2 && tree.capacity.branch >= 2
      && (tree.root == null ==> tree.nodes == {} && tree.chain == [])
      && (tree.root != null ==> Sized(tree.nodes, tree.capacity) && Shaped(tree.V()))
    }

    ghost predicate Standing(v: View)
      reads tree, tree.nodes
    {
      Formed() && tree.root != null && v == tree.V()
    }

    lemma StandingParts(v: View)
      requires Standing(v)
      ensures tree.capacity.leaf >= 2 && tree.capacity.branch >= 2 && tree.root != null
        && Sized(tree.nodes, tree.capacity)
      ensures v == tree.V() && v == View(Snap(tree.nodes), tree.root, tree.chain) && Snap(tree.nodes).Keys == tree.nodes
        && Shaped(v)
      ensures Ready(v) <==> Tree(v, Whole)
    {
      hide Sized, Tree, Shaped;
    }

    lemma LeafSafe(v: View, leaf: Node)
      requires Standing(v) && leaf in tree.nodes && leaf.level == 0
      ensures leaf.size <= |leaf.items|
    {
      hide *;
      StandingParts(v);
      LeafRecord(leaf);
    }

    // a branch and its children, and that links below it are those of the children
    lemma BranchSafe(v: View, b: Node)
      requires Standing(v) && b in tree.nodes && b.level > 0
      ensures b.size < |b.childs| && b.size <= |b.keys| && b in v.s && |v.s[b].childs| == b.size + 1
      ensures forall i {:trigger b.childs[i]} ::
        0 <= i <= b.size ==> b.childs[i] in tree.nodes && b.childs[i] in v.s && v.s[b].childs[i] == b.childs[i]
    {
      hide *;
      StandingParts(v);
      tree.BranchFacts(b);
      ChildrenMet(v, b);
      assert forall i {:trigger b.childs[i]} :: 0 <= i <= b.size ==> b.childs[i] == v.s[b].childs[i];
    }

    lemma ChildrenMet(v: View, b: Node)
      requires Shaped(v) && b in v.s && v.s[b].level > 0
      ensures forall i {:trigger v.s[b].childs[i]} :: 0 <= i < |v.s[b].childs| ==> v.s[b].childs[i] in v.s
    {
      hide Met;
      assert ShapeAt(v, b);
    }

    lemma LinkedChild(v: View, b: Node, i: nat)
      requires Standing(v) && b in tree.nodes && b.level > 0 && i <= b.size < |b.childs| && b.childs[i] in tree.nodes
      requires b.childs[i].parent == b && b.childs[i].slot == i && b.childs[i].level + 1 == b.level
      ensures b in v.s && i < |v.s[b].childs| && LinkedAt(v.s, b, i)
    {
      hide *;
      BranchSafe(v, b);
      StandingParts(v);
      SnapFields(tree.nodes);
      LinkIs(v.s, b, i);
    }

    lemma LinkIs(s: Store, b: Node, i: nat)
      requires b in s && i < |s[b].childs|
      ensures var c := s[b].childs[i];
        LinkedAt(s, b, i) <==> c in s && s[c].parent == b && s[c].slot == i && s[c].level + 1 == s[b].level
    {
    }

    lemma LinkedAll(v: View, b: Node)
      requires Standing(v) && b in tree.nodes && b.level > 0 && b.size < |b.childs| && b in v.s
        && |v.s[b].childs| == b.size + 1
      requires forall i :: 0 <= i <= b.size ==> LinkedAt(v.s, b, i)
      requires forall i :: 0 <= i <= b.size ==> b.childs[i] in v.s && LinkedBelow(v.s, b.childs[i])
      ensures LinkedBelow(v.s, b)
    {
      hide *;
      BranchSafe(v, b);
      forall i | 0 <= i < |v.s[b].childs|
        ensures v.s[b].childs[i] in v.s && LinkedAt(v.s, b, i) && LinkedBelow(v.s, v.s[b].childs[i])
      {
        assert b.childs[i] == v.s[b].childs[i];
      }
      LinkedFold(v.s, b);
    }

    lemma LinkedFold(s: Store, b: Node)
      requires b in s
      requires forall i {:trigger s[b].childs[i]} :: 0 <= i < |s[b].childs| ==>
                 s[b].childs[i] in s && LinkedAt(s, b, i) && LinkedBelow(s, s[b].childs[i])
      ensures LinkedBelow(s, b)
    {
      forall i | 0 <= i < |s[b].childs| ensures LinkedAt(s, b, i) && s[s[b].childs[i]].level < s[b].level {
      }
      hide LinkedAt;
    }

    lemma LinkedLeaf(v: View, leaf: Node)
      requires Standing(v) && leaf in tree.nodes && leaf.level == 0
      ensures leaf in v.s && LinkedBelow(v.s, leaf)
    {
      hide Shaped, Sized;
      SnapFields(tree.nodes);
    }

    lemma ReadyParts(v: View)
      requires Ready(v)
      ensures tree.capacity.leaf >= 2 && tree.capacity.branch >= 2 && tree.root != null
        && Sized(tree.nodes, tree.capacity)
      ensures v == tree.V() && v == View(Snap(tree.nodes), tree.root, tree.chain) && Snap(tree.nodes).Keys == tree.nodes
        && Tree(v, Whole)
    {
      hide Sized, Tree;
    }

    lemma AtParts(v: View, h: nat)
      ensures At(v, h) <==> Seen(v, h, isFirstLeaf, prevLeaf, nextLeaf, currentKey, itemsCount, leavesCount)
    {
      hide Seen;
    }

    lemma AtKey(v: View, h: nat)
      requires At(v, h)
      ensures h > 0 ==> !isFirstLeaf && currentKey == LastKey(v, h)
    {
      hide *;
      AtParts(v, h);
      SeenParts(v, h, isFirstLeaf, prevLeaf, nextLeaf, currentKey, itemsCount, leavesCount);
    }

    ghost predicate LeavesOk(v: View, h: nat) { LeavesFine(v, tree.capacity, tree.unique, h) }

    ghost predicate BranchesOk(v: View, bs: set<Node>) { BranchesFine(v, tree.capacity, bs) }

    // the items of a leaf from slot `from` on, after currentKey
    method TestOrder(leaf: Node, from: nat, ghost q: seq<Item>) returns (r: bool)
      requires leaf.size == |q| <= |leaf.items| && q == leaf.items[..leaf.size] && from <= 1 && q != []
      requires from == 1 ==> currentKey == q[0].key
      modifies `currentKey
      ensures r <==>
        (from == 0 ==> Follows(old(currentKey), q[0].key, tree.unique)) && forall i ::
        0 < i < |q| ==> Follows(q[i - 1].key, q[i].key, tree.unique)
      ensures r ==> currentKey == q[|q| - 1].key
    {
      hide *;
      var i := from;
      while i < leaf.size
        invariant from <= i <= leaf.size
        invariant if i == 0 then currentKey == old(currentKey) else currentKey == q[i - 1].key
        invariant from == 0 && i > 0 ==> Follows(old(currentKey), q[0].key, tree.unique)
        invariant forall k :: 0 < k < i ==> Follows(q[k - 1].key, q[k].key, tree.unique)
      {
        var leafKey := leaf.items[i].key;
        FollowsIs(currentKey, leafKey, tree.unique);
        var isOrdered := currentKey < leafKey;
        if !tree.unique {
          isOrdered := isOrdered || !(leafKey < currentKey);
        }
        if !isOrdered {
          assert q[i].key == leafKey;
          return false;
        }
        currentKey := leafKey;
        i := i + 1;
      }
      r := true;
    }

    // a leaf as the test meets it
    lemma LeafHere(v: View, leaf: Node)
      requires Ready(v) && leaf in tree.nodes && leaf.level == 0 && At(v, leaf.lo) && LeavesOk(v, leaf.lo)
      ensures leaf.size <= |leaf.items| && leaf in v.s && leaf.hi == leaf.lo + 1
      ensures isFirstLeaf <==> leaf.lo == 0
      ensures var q := leaf.items[..leaf.size];
        && (LeavesOk(v, leaf.hi) <==>
              && q != [] && (leaf.parent != null ==> |q| >= tree.capacity.leaf / 2)
              && (if leaf.lo == 0 then leaf.prev == null
                  else leaf.prev == prevLeaf && leaf == nextLeaf && Follows(currentKey, q[0].key, tree.unique))
              && forall i :: 0 < i < |q| ==> Follows(q[i - 1].key, q[i].key, tree.unique))
        && (q != [] ==> Seen(v, leaf.hi, false, leaf, leaf.next, q[|q| - 1].key, itemsCount + |q|, leavesCount + 1))
    {
      hide *;
      ReadyParts(v);
      LeafRecord(leaf);
      var j, q := leaf.lo, leaf.items[..leaf.size];
      SnapAt(tree.nodes, leaf);
      LeafPlace(v, leaf);
      LeafOnChain(v, leaf);
      if j > 0 {
        ChainThere(v, j - 1);
      }
      AtParts(v, j);
      SeenParts(v, j, isFirstLeaf, prevLeaf, nextLeaf, currentKey, itemsCount, leavesCount);
      LeafFineParts(v, tree.capacity, tree.unique, j);
      OkParts(v, j, {});
      OkParts(v, j + 1, {});
      LeavesMore(v, tree.capacity, tree.unique, j);
      AroundLeaf(v, leaf);
      if q != [] {
        LastOfLeaf(v, leaf);
        SeenAfter(v, leaf, j, isFirstLeaf, prevLeaf, nextLeaf, currentKey, itemsCount, leavesCount, q[|q| - 1].key);
      }
    }

    lemma OkParts(v: View, h: nat, bs: set<Node>)
      ensures LeavesOk(v, h) <==> LeavesFine(v, tree.capacity, tree.unique, h)
      ensures BranchesOk(v, bs) <==> BranchesFine(v, tree.capacity, bs)
    {
      hide LeavesFine, BranchesFine;
    }

    lemma LeafRecord(leaf: Node)
      requires Sized(tree.nodes, tree.capacity) && leaf in tree.nodes && leaf.level == 0
      ensures leaf.size <= |leaf.items| && leaf.Record().items == leaf.items[..leaf.size]
    {
      assert leaf.Buffers(tree.capacity);
    }

    // `linked` tells that all parent links, slots and levels of the tree are right
    method TestLeaf(leaf: Node, ghost v: View, ghost linked: bool) returns (r: bool)
      requires Standing(v) && leaf in tree.nodes && leaf.level == 0
      requires linked ==> Ready(v) && At(v, leaf.lo) && LeavesOk(v, leaf.lo)
      modifies this
      ensures Standing(v)
      ensures linked ==>
        Ready(v) && (r <==> LeavesOk(v, leaf.hi)) && (r ==> At(v, leaf.hi) && branchesCount == old(branchesCount))
    {
      hide *;
      LeafSafe(v, leaf);
      if linked { LeafHere(v, leaf); }
      leavesCount := leavesCount + 1;
      if leaf.parent != null && leaf.size < tree.capacity.leaf / 2 {
        return false;
      }
      if leaf.size == 0 {
        return false;
      }
      if leaf.level != 0 {
        return false;
      }
      itemsCount := itemsCount + leaf.size;
      var from := 0;
      if isFirstLeaf {
        from := 1;
        currentKey := leaf.items[0].key;
        isFirstLeaf := false;
        if leaf.prev != null {
          return false;
        }
      } else {
        if leaf.prev != prevLeaf {
          return false;
        }
        if leaf != nextLeaf {
          return false;
        }
      }
      prevLeaf := leaf;
      nextLeaf := leaf.next;
      r := TestOrder(leaf, from, leaf.items[..leaf.size]);
      AtParts(v, leaf.hi);
    }

    // a branch as the test meets it
    lemma BranchHere(v: View, b: Node)
      requires Ready(v) && b in tree.nodes && b.level > 0
      ensures b.size < |b.childs| && b.size <= |b.keys| && b in v.s && v.s[b].level == b.level
      ensures BranchFine(v, tree.capacity, b) <==>
        && (b.parent != null ==> b.size >= tree.capacity.branch / 2)
        && forall i {:trigger b.keys[i]} :: 0 <= i < b.size ==> LastKey(v, b.childs[i].hi) == b.keys[i]
    {
      hide *;
      ReadyParts(v);
      tree.BranchFacts(b);
      BranchShape(v, b);
      SnapSpans(tree.nodes);
      BranchFineParts(v, tree.capacity, b);
      assert forall i {:trigger b.keys[i]} ::
          0 <= i < b.size ==> b.keys[i] == v.s[b].keys[i] && b.childs[i] == v.s[b].childs[i];
      assert forall i {:trigger v.s[b].keys[i]} ::
          0 <= i < b.size ==> b.keys[i] == v.s[b].keys[i] && b.childs[i] == v.s[b].childs[i];
    }

    // one of its children
    lemma ChildHere(v: View, b: Node, i: nat)
      requires Ready(v) && b in tree.nodes && b.level > 0 && i <= b.size
      ensures b.size < |b.childs| && b.size <= |b.keys| && b in v.s
      ensures var c := b.childs[i];
        c in tree.nodes && c in v.s && c.parent == b && c.slot == i && c.level + 1 == b.level && 0 < c.hi <= b.hi
        && (i == 0 ==> c.lo == b.lo) && (i == b.size ==> c.hi == b.hi) && (i < b.size ==> b.childs[i + 1].lo == c.hi)
        && Sub(v.s, c) <= Sub(v.s, b)
    {
      hide *;
      ReadyParts(v);
      tree.BranchFacts(b);
      BranchShape(v, b);
      SnapFields(tree.nodes);
      SnapSpans(tree.nodes);
      var c := v.s[b].childs[i];
      assert c == b.childs[i];
      ChildParts(v.s, b, i);
      WholeDead(c);
      WholeDead(b);
      NodeSpan(v, Whole, c);
      ChildWithin(v, b, i);
      if i < b.size {
        assert v.s[b].childs[i + 1] == b.childs[i + 1];
      }
    }

    method TestNode(node: Node, parent: Node?, slot: nat, parentLevel: nat, ghost v: View, ghost linked: bool)
        returns (r: bool)
      requires Standing(v) && node in tree.nodes
      requires linked ==> Ready(v) && At(v, node.lo) && LeavesOk(v, node.lo)
      requires linked ==>
        node.parent == parent && node.slot == slot && (parent == null ==> slot == 0) && parentLevel == node.level + 1
      modifies this
      ensures Standing(v) && node in v.s
      ensures linked ==> Ready(v) && (r <==> LeavesOk(v, node.hi) && BranchesOk(v, Sub(v.s, node)))
      ensures linked && r ==> At(v, node.hi) && branchesCount == old(branchesCount) + |Sub(v.s, node)|
      ensures r ==>
        node.parent == parent && node.slot == (if parent == null then 0 else slot) && node.level + 1 == parentLevel
      ensures r ==> LinkedBelow(v.s, node)
      decreases parentLevel, 1
    {
      hide *;
      StandingParts(v);
      NodeHere(v, node);
      if node.parent != parent {
        return false;
      }
      if node.parent == null && node.slot != 0 {
        return false;
      }
      if node.parent != null && node.slot != slot {
        return false;
      }
      if node.level + 1 != parentLevel {
        return false;
      }
      if node.level == 0 {
        SubLeaf(v.s, node);
        OkParts(v, 0, {});
        BranchesOne(v, tree.capacity, node);
        LinkedLeaf(v, node);
        r := TestLeaf(node, v, linked);
      } else {
        r := TestBranch(node, v, linked);
      }
    }

    lemma NodeHere(v: View, n: Node)
      requires tree.root != null && v == tree.V() && n in tree.nodes
      ensures n in v.s && v.s[n].level == n.level
    {
      hide *;
      tree.ViewIs();
      SnapFields(tree.nodes);
    }

    // a child at fault puts its branch at fault
    lemma ChildFault(v: View, b: Node, i: nat)
      requires Ready(v) && b in tree.nodes && b.level > 0 && i <= b.size < |b.childs| && b in v.s && b.childs[i] in v.s
      requires !(LeavesOk(v, b.childs[i].hi) && BranchesOk(v, Sub(v.s, b.childs[i])))
      ensures !(LeavesOk(v, b.hi) && BranchesOk(v, Sub(v.s, b)))
    {
      hide *;
      ChildHere(v, b, i);
      var c := b.childs[i];
      OkParts(v, b.hi, Sub(v.s, b));
      OkParts(v, c.hi, Sub(v.s, c));
      if LeavesFine(v, tree.capacity, tree.unique, b.hi) && BranchesFine(v, tree.capacity, Sub(v.s, b)) {
        LeavesLess(v, tree.capacity, tree.unique, c.hi, b.hi);
        BranchesLess(v, tree.capacity, Sub(v.s, c), Sub(v.s, b));
      }
    }

    lemma OwnFault(v: View, b: Node)
      requires Ready(v) && b in tree.nodes && b.level > 0 && b in v.s && !BranchFine(v, tree.capacity, b)
      ensures !BranchesOk(v, Sub(v.s, b))
    {
      hide *;
      ReadyParts(v);
      NodeHere(v, b);
      SubAll(v, b);
      OkParts(v, 0, Sub(v.s, b));
      if BranchesFine(v, tree.capacity, Sub(v.s, b)) {
        BranchesLess(v, tree.capacity, {b}, Sub(v.s, b));
        BranchesOne(v, tree.capacity, b);
      }
    }

    // the branches below the first children, one child further
    lemma OneMore(v: View, b: Node, i: nat)
      requires Ready(v) && b in tree.nodes && b.level > 0 && i <= b.size
      ensures b.size < |b.childs| && b in v.s && v.s[b].level > 0 && |v.s[b].childs| == b.size + 1 && b.childs[i] in v.s
      ensures |SubTo(v.s, b, i + 1)| == |SubTo(v.s, b, i)| + |Sub(v.s, b.childs[i])|
      ensures BranchesOk(v, SubTo(v.s, b, i + 1)) <==>
        BranchesOk(v, SubTo(v.s, b, i)) && BranchesOk(v, Sub(v.s, b.childs[i]))
      ensures |SubTo(v.s, b, 0)| == 0 && BranchesOk(v, SubTo(v.s, b, 0))
    {
      hide *;
      ReadyParts(v);
      tree.BranchFacts(b);
      NodeHere(v, b);
      assert v.s[b].childs[i] == b.childs[i];
      SubNext(v, b, i);
      SubNone(v.s, b);
      BranchesOne(v, tree.capacity, b);
      BranchesJoin(v, tree.capacity, SubTo(v.s, b, i), Sub(v.s, b.childs[i]));
      OkParts(v, 0, SubTo(v.s, b, i + 1));
      OkParts(v, 0, SubTo(v.s, b, i));
      OkParts(v, 0, SubTo(v.s, b, 0));
      OkParts(v, 0, Sub(v.s, b.childs[i]));
    }

    lemma AllMore(v: View, b: Node)
      requires Ready(v) && b in tree.nodes && b.level > 0
      ensures b in v.s && v.s[b].level > 0 && |v.s[b].childs| == b.size + 1
      ensures |Sub(v.s, b)| == 1 + |SubTo(v.s, b, b.size + 1)|
      ensures BranchesOk(v, Sub(v.s, b)) <==>
        BranchesOk(v, SubTo(v.s, b, b.size + 1)) && BranchFine(v, tree.capacity, b)
    {
      hide *;
      ReadyParts(v);
      tree.BranchFacts(b);
      NodeHere(v, b);
      SubAll(v, b);
      BranchesOne(v, tree.capacity, b);
      BranchesJoin(v, tree.capacity, SubTo(v.s, b, b.size + 1), {b});
      OkParts(v, 0, Sub(v.s, b));
      OkParts(v, 0, SubTo(v.s, b, b.size + 1));
    }

    method TestBranch(branch: Node, ghost v: View, ghost linked: bool) returns (r: bool)
      requires Standing(v) && branch in tree.nodes && branch.level > 0
      requires linked ==> Ready(v) && At(v, branch.lo) && LeavesOk(v, branch.lo)
      modifies this
      ensures Standing(v) && branch in v.s
      ensures linked ==> Ready(v) && (r <==> LeavesOk(v, branch.hi) && BranchesOk(v, Sub(v.s, branch)))
      ensures linked && r ==> At(v, branch.hi) && branchesCount == old(branchesCount) + |Sub(v.s, branch)|
      ensures r ==> LinkedBelow(v.s, branch)
      decreases branch.level + 1, 0
    {
      hide *;
      BranchSafe(v, branch);
      if linked { BranchHere(v, branch); }
      branchesCount := branchesCount + 1;
      if branch.parent != null && branch.size < tree.capacity.branch / 2 {
        if linked { OwnFault(v, branch); }
        return false;
      }
      if branch.level == 0 {
        return false;
      }
      if linked {
        ChildHere(v, branch, 0);
        OneMore(v, branch, 0);
      }
      assert branch.childs[0] in tree.nodes;
      r := TestNode(branch.childs[0], branch, 0, branch.level, v, linked);
      if !r {
        if linked { ChildFault(v, branch, 0); }
        return false;
      }
      LinkedChild(v, branch, 0);
      if linked { AtKey(v, branch.childs[0].hi); }
      if isFirstLeaf {
        return false;
      }
      var i := 0;
      while i < branch.size
        invariant i <= branch.size && Standing(v)
        invariant linked ==> Ready(v) && At(v, branch.childs[i].hi) && LeavesOk(v, branch.childs[i].hi)
        invariant linked ==>
          BranchesOk(v, SubTo(v.s, branch, i + 1))
          && branchesCount == old(branchesCount) + 1 + |SubTo(v.s, branch, i + 1)|
        invariant linked ==>
          forall k {:trigger branch.keys[k]} :: 0 <= k < i ==> LastKey(v, branch.childs[k].hi) == branch.keys[k]
        invariant forall k :: 0 <= k <= i ==> LinkedAt(v.s, branch, k)
        invariant forall k :: 0 <= k <= i ==> LinkedBelow(v.s, branch.childs[k])
      {
        if linked {
          AtKey(v, branch.childs[i].hi);
          ChildHere(v, branch, i);
          ChildHere(v, branch, i + 1);
          OneMore(v, branch, i + 1);
        }
        if currentKey < branch.keys[i] || branch.keys[i] < currentKey {
          if linked { OwnFault(v, branch); }
          return false;
        }
        assert linked ==> LastKey(v, branch.childs[i].hi) == branch.keys[i];
        assert branch.childs[i + 1] in tree.nodes;
        r := TestNode(branch.childs[i + 1], branch, i + 1, branch.level, v, linked);
        if !r {
          if linked { ChildFault(v, branch, i + 1); }
          return false;
        }
        LinkedChild(v, branch, i + 1);
        i := i + 1;
      }
      if linked {
        ChildHere(v, branch, i);
        AllMore(v, branch);
      }
      LinkedAll(v, branch);
      r := true;
    }

    // The first leaf, and whether a branch at the root has a separator, are not looked at.
    ghost predicate Unseen()
      reads tree, tree.nodes
    {
      tree.root != null ==>
        |tree.chain| > 0 && tree.firstLeaf == tree.chain[0]
            && (tree.root.level > 0 && tree.root in tree.nodes ==> tree.root.size > 0)
    }

    // The test passes, and what it does not look at is right, exactly when the tree is valid.
    method Run() returns (r: bool)
      requires Formed() && isFirstLeaf && itemsCount == 0 && leavesCount == 0 && branchesCount == 0 && nextLeaf == null
      modifies this
      ensures r && Unseen() <==> tree.Valid()
    {
      hide *;
      tree.ValidParts();
      UnseenParts();
      FormedParts();
      if tree.root == null {
        return tree.firstLeaf == null && tree.size == 0 && tree.leavesCount == 0 && tree.branchesCount == 0;
      }
      ghost var v := tree.V();
      ghost var linked := Tree(v, Whole);
      StandingParts(v);
      RootThere(v);
      if linked {
        RootHere(v);
        ValidIs(v);
      } else {
        UnlinkedFaulty(v);
      }
      r := TestNode(tree.root, null, 0, tree.root.level + 1, v, linked);
      if !r {
        return false;
      }
      WouldBeLinked(v);
      AllSeen(v);
      if nextLeaf != null {
        return false;
      }
      if itemsCount != tree.size {
        return false;
      }
      if leavesCount != tree.leavesCount {
        return false;
      }
      if branchesCount != tree.branchesCount {
        return false;
      }
      r := true;
    }

    lemma FormedParts()
      requires Formed()
      ensures tree.capacity.leaf >= 2 && tree.capacity.branch >= 2
        && (tree.root == null ==> tree.nodes == {} && tree.chain == [])
      ensures tree.root != null ==> Standing(tree.V())
    {
      hide Sized, Shaped, BTree.V;
    }

    lemma RootThere(v: View)
      requires Standing(v)
      ensures tree.root in tree.nodes && tree.root in v.s
    {
      hide Sized, Met, ShapeAt, SlotOk;
    }

    lemma UnlinkedFaulty(v: View)
      requires Standing(v) && !Tree(v, Whole)
      ensures !tree.Valid()
    {
      hide *;
      StandingParts(v);
      tree.ValidParts();
      if tree.Valid() {
        tree.Opened(Whole, null);
      }
    }

    // a test that came back from the root has seen that all links are right
    lemma WouldBeLinked(v: View)
      requires Standing(v) && tree.root in v.s && LinkedBelow(v.s, tree.root) && tree.root.parent == null
        && tree.root.slot == 0
      ensures Tree(v, Whole) && Ready(v)
    {
      hide *;
      StandingParts(v);
      SnapFields(tree.nodes);
      TreeFormed(v);
    }

    lemma UnseenParts()
      ensures tree.root == null ==> Unseen()
      ensures tree.root != null && tree.root in tree.nodes ==>
                (Unseen() <==>
                    |tree.chain| > 0 && tree.firstLeaf == tree.chain[0] && (tree.root.level > 0 ==> tree.root.size > 0))
    {
    }

    lemma RootHere(v: View)
      requires Ready(v) && isFirstLeaf && itemsCount == 0 && leavesCount == 0
      ensures tree.root in tree.nodes && tree.root in v.s && tree.root.parent == null && tree.root.slot == 0
        && |tree.chain| > 0
      ensures At(v, tree.root.lo) && LeavesOk(v, tree.root.lo)
    {
      hide *;
      ReadyParts(v);
      RootSpan(v);
      WholeDead(v.root);
      NodeSpan(v, Whole, v.root);
      SnapFields(tree.nodes);
      SnapSpans(tree.nodes);
      SeenNothing(v);
      AtParts(v, 0);
      OkParts(v, 0, {});
      NoLeaves(v, tree.capacity, tree.unique);
    }

    // the tree is valid when all leaves and branches are fine, the last leaf ends the chain, and the counters are right
    lemma ValidIs(v: View)
      requires Ready(v) && tree.root in tree.nodes && |tree.chain| > 0
      ensures tree.root in v.s && tree.chain[|tree.chain| - 1] in v.s
      ensures tree.Valid() <==>
        && LeavesOk(v, tree.root.hi) && BranchesOk(v, Sub(v.s, tree.root))
          && v.s[tree.chain[|tree.chain| - 1]].next == null
        && tree.size == |FlatTo(v.s, v.chain, |v.chain|)| && tree.leavesCount == |tree.chain|
          && tree.branchesCount == |Sub(v.s, tree.root)|
        && tree.firstLeaf == tree.chain[0] && (tree.root.level > 0 ==> tree.root.size > 0)
    {
      hide *;
      ReadyParts(v);
      RootSpan(v);
      SnapFields(tree.nodes);
      SnapSpans(tree.nodes);
      SubRoot(v);
      ContentsIs(v);
      ChainThere(v, |v.chain| - 1);
      OkParts(v, tree.root.hi, Sub(v.s, tree.root));
      AllFineParts(v, tree.capacity, tree.unique);
      FineIsGood(v, tree.capacity, tree.unique);
      tree.ValidParts();
      InvIs(v);
      if tree.root.level > 0 {
        tree.BranchFacts(tree.root);
      }
    }

    lemma InvIs(v: View)
      requires tree.root != null && v == tree.V() && Sized(tree.nodes, tree.capacity) && tree.capacity.leaf >= 2
        && tree.capacity.branch >= 2
      requires |tree.chain| > 0
      ensures tree.Inv(Whole, null) <==>
        && Good(v, tree.capacity, Whole, null) && tree.leavesCount == |tree.chain|
          && tree.branchesCount == |Branches(v.s)|
        && tree.firstLeaf == tree.chain[0]
    {
      hide Good, Sized, Branches;
    }

    lemma AllSeen(v: View)
      requires Ready(v) && At(v, tree.root.hi) && tree.root in v.s && |tree.chain| > 0
      ensures tree.chain[|tree.chain| - 1] in v.s && nextLeaf == v.s[tree.chain[|tree.chain| - 1]].next
      ensures itemsCount == |FlatTo(v.s, v.chain, |v.chain|)| && leavesCount == |tree.chain|
    {
      hide *;
      ReadyParts(v);
      RootSpan(v);
      SnapSpans(tree.nodes);
      AtParts(v, tree.root.hi);
      SeenParts(v, tree.root.hi, isFirstLeaf, prevLeaf, nextLeaf, currentKey, itemsCount, leavesCount);
    }
  }
}
