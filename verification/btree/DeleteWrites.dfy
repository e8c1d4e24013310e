// What a deletion writes to the nodes, seen as changes of a snapshot.
module BTreeDeleteWrites {
  import opened BTreeArrays
  import opened BTreeNodes
  import opened BTreeStructure
  import opened BTreeBranchBorrow
  import opened BTreeBranchMerge
  import opened BTreeLeaves
  import opened BTreeNodeSteps

  // ---------- leaves

  method DropItem(ghost nodes: set<Node>, ghost c: Capacity, leaf: Node, slot: nat)
    requires leaf in nodes && Sized(nodes, c) && leaf.level == 0 && slot < leaf.size
    modifies leaf`items, leaf`size
    ensures Sized(nodes, c) && leaf.size == old(leaf.size) - 1 && leaf.size <= |leaf.items|
    ensures slot < old(leaf.size) <= old(|leaf.items|)
      && leaf.items == ArrayDelete(old(leaf.items)[slot := Item(0, 0)], slot, old(leaf.size), 1)
    ensures slot < |old(Snap(nodes))[leaf].items|
    ensures var q := Removed(old(Snap(nodes))[leaf].items, slot);
      Snap(nodes) == Put(old(Snap(nodes)), leaf, q) && leaf.items[..leaf.size] == q
  {
    hide Removed, ArrayDelete;
    ghost var s := Snap(nodes);
    assert leaf.Buffers(c) && s[leaf] == leaf.Record();
    leaf.LeafDelete(slot);
    SnapOne(s, nodes, leaf);
  }

  method TakeItems(ghost nodes: set<Node>, ghost c: Capacity, l: Node, r: Node)
    requires l in nodes && r in nodes && l != r && Sized(nodes, c) && l.level == 0 && r.level == 0
      && l.size + r.size <= c.leaf
    modifies l`items, l`size, r`size
    ensures Sized(nodes, c) && r.size == 0
    ensures Snap(nodes) == Put(Put(old(Snap(nodes)), l, old(Snap(nodes))[l].items + old(Snap(nodes))[r].items), r, [])
  {
    hide Put, Prefix, Snap;
    ghost var s := Snap(nodes);
    assert l.Buffers(c) && r.Buffers(c);
    LeafRecord(l, c);
    LeafRecord(r, c);
    SnapAll(nodes);
    l.TakeAll(r);
    LeafRecord(l, c);
    LeafRecord(r, c);
    SnapPutTwo(s, nodes, c, l, r, s[l].items + s[r].items, []);
  }

  ghost function Narrowed(s: Store, j: nat): (t: Store)
    ensures t.Keys == s.Keys
  {
    map n | n in s :: s[n].(lo := Drop(s[n].lo, j), hi := Drop(s[n].hi, j))
  }

  // the spans behind leaf position j close up over position j + 1
  ghost method NarrowSpans(nodes: set<Node>, c: Capacity, j: nat)
    requires Sized(nodes, c)
    modifies nodes`lo
    modifies nodes`hi
    ensures Sized(nodes, c)
    ensures Snap(nodes) == Narrowed(old(Snap(nodes)), j)
  {
    hide Narrowed, Prefix;
    ghost var s := Snap(nodes);
    forall n | n in nodes { n.lo := Drop(n.lo, j); }
    forall n | n in nodes { n.hi := Drop(n.hi, j); }
    NarrowedSnap(s, nodes, j);
  }

  lemma NarrowedSnap(s: Store, nodes: set<Node>, j: nat)
    requires s.Keys == nodes
    requires forall n :: n in nodes ==> n.Record() == s[n].(lo := Drop(s[n].lo, j), hi := Drop(s[n].hi, j))
    ensures Snap(nodes) == Narrowed(s, j)
  {
  }

  ghost function GoneStore(s: Store, l: Node, r: Node): (t: Store)
    requires l in s && r in s
    ensures t.Keys == s.Keys
  {
    map n | n in s :: GoneRec(s, l, r, n)
  }

  lemma FoldGone(s: Store, l: Node, r: Node)
    requires l in s && r in s && l != r
    ensures Narrowed(Put(Put(s, l, s[l].items + s[r].items), r, []), s[l].lo) == GoneStore(s, l, r)
  {
  }

  // RearrangeItems when all items fit into the left leaf, with the ghost spans
  method JoinLeaves(ghost nodes: set<Node>, ghost c: Capacity, l: Node, r: Node)
    requires l in nodes && r in nodes && l != r && Sized(nodes, c) && l.level == 0 && r.level == 0
      && l.size + r.size <= c.leaf
    modifies l`items, l`size, r`size
    modifies nodes`lo
    modifies nodes`hi
    ensures Sized(nodes, c) && r.size == 0 && Snap(nodes) == GoneStore(old(Snap(nodes)), l, r)
  {
    hide *;
    ghost var s := Snap(nodes);
    SnapAt(nodes, l);
    TakeItems(nodes, c, l, r);
    NarrowSpans(nodes, c, l.lo);
    FoldGone(s, l, r);
  }

  // what the right leaf of a pair with m items left in the left leaf ends up with
  ghost function Rest(l: Rec, r: Rec, buf: seq<Item>, m: nat, asWritten: bool): seq<Item>
    requires m <= |l.items + r.items|
  {
    if asWritten && m < |l.items| then Prefix(buf, |l.items| - m) + r.items else (l.items + r.items)[m..]
  }

  lemma RestOf(l: Rec, r: Rec, buf: seq<Item>, m: nat, asWritten: bool)
    requires m <= |l.items + r.items|
    ensures Rest(l, r, buf, m, asWritten)
      == if asWritten && m < |l.items| then Prefix(buf, |l.items| - m) + r.items else (l.items + r.items)[m..]
  {
  }

  lemma SizedAll(nodes: set<Node>, c: Capacity)
    requires forall n :: n in nodes ==> n.Buffers(c)
    ensures Sized(nodes, c)
  {
  }

  lemma LeafBuffers(nodes: set<Node>, c: Capacity, n: Node)
    requires Sized(nodes, c) && n in nodes && n.level == 0
    ensures n.Buffers(c) && |n.items| == c.leaf && n.keys == [] && n.childs == [] && n.size <= c.leaf
    ensures n.Record() == Rec(0, n.parent, n.slot, n.next, n.prev, n.items[..n.size], [], [], n.lo, n.hi)
  {
    assert n.Buffers(c);
    LeafRecord(n, c);
  }

  lemma LeafBuffersBack(n: Node, c: Capacity)
    requires n.level == 0 && |n.items| == c.leaf && n.keys == [] && n.childs == [] && n.size <= c.leaf
    ensures n.Buffers(c)
    ensures n.Record() == Rec(0, n.parent, n.slot, n.next, n.prev, n.items[..n.size], [], [], n.lo, n.hi)
  {
    LeafRecord(n, c);
  }

  // RearrangeItems when the items do not fit into one leaf. The right leaf gets the rest of the items, except
  // that line 609 as written leaves what its own buffer held there.
  method EvenLeaves(ghost nodes: set<Node>, ghost c: Capacity, l: Node, r: Node, asWritten: bool)
    requires l in nodes && r in nodes && l != r && Sized(nodes, c) && l.level == 0 && r.level == 0
    requires c.leaf < l.size + r.size && r.size > 0 && c.leaf >= 2
    modifies l`items, l`size, r`items, r`size
    ensures Sized(nodes, c) && l.size + r.size == old(l.size + r.size)
    ensures var s := old(Snap(nodes)); var all := s[l].items + s[r].items; var m := l.size;
      && |s[l].items| == old(l.size) && |s[r].items| == old(r.size)
      && m == |all| / 2 && 0 < m <= |l.items| && l.items[m - 1] == all[m - 1]
      && Snap(nodes) == Put(Put(s, l, all[..m]), r, Rest(s[l], s[r], old(r.items), m, asWritten))
  {
    hide *;
    ghost var s := Snap(nodes);
    LeafBuffers(nodes, c, l);
    LeafBuffers(nodes, c, r);
    AllBuffers(nodes, c);
    SnapAll(nodes);
    l.EvenOut(r, asWritten);
    assert l.items[l.size - 1] == l.items[..l.size][l.size - 1];
    LeafBuffersBack(l, c);
    LeafBuffersBack(r, c);
    SizedAll(nodes, c);
    RestOf(s[l], s[r], old(r.items), l.size, asWritten);
    SnapPutTwo(s, nodes, c, l, r, (s[l].items + s[r].items)[..l.size],
        Rest(s[l], s[r], old(r.items), l.size, asWritten));
  }

  // ---------- branches

  lemma BranchBuffers(n: Node, c: Capacity)
    requires n.level > 0
    ensures n.Buffers(c) <==>
      (n.items == [] && |n.keys| == c.branch && |n.childs| == c.branch + 1 && n.size <= c.branch)
  {
  }

  lemma BranchIs(n: Node, c: Capacity, r: Rec, ks: seq<int>, cs: seq<Node>, lo: nat, hi: nat)
    requires n.level > 0 && n.items == [] && |n.keys| == c.branch && |n.childs| == c.branch + 1 && n.size <= c.branch
    requires r.level == n.level && r.parent == n.parent && r.slot == n.slot && r.next == n.next && r.prev == n.prev
      && r.items == []
    requires n.lo == lo && n.hi == hi && n.keys[..n.size] == ks && n.childs[..n.size + 1] == cs
    ensures n.Buffers(c) && n.Record() == r.(keys := ks, childs := cs, lo := lo, hi := hi)
  {
  }

  // Branch::Delete, before the links of the children
  method DetachWrite(ghost nodes: set<Node>, ghost c: Capacity, b: Node, k: nat, ghost x: Node)
    requires b in nodes && x in nodes && b != x && Sized(nodes, c) && b.level > 0 && 1 <= k <= b.size
    modifies b`keys, b`childs, b`size
    ensures Sized(nodes - {x}, c) && b.size == old(b.size) - 1 && b.size < |b.childs|
    ensures var r := old(Snap(nodes))[b];
      && k <= |r.keys| && k < |r.childs| && |r.childs| == old(b.size) + 1
      && b.childs[..b.size + 1] == Removed(r.childs, k)
      && Snap(nodes - {x}) == (old(Snap(nodes)) - {x})[b := DetachRec(old(Snap(nodes)), b, k, b)]
  {
    hide *;
    ghost var s := Snap(nodes);
    AllBuffers(nodes, c);
    BranchBuffers(b, c);
    BranchRecord(b, c);
    SnapAll(nodes);
    SnapAt(nodes, b);
    b.BranchDelete(k);
    BranchIs(b, c, s[b], Removed(s[b].keys, k - 1), Removed(s[b].childs, k), b.lo, b.hi);
    DetachFold(s, nodes, c, b, k, x);
  }

  lemma DetachFold(s: Store, nodes: set<Node>, c: Capacity, b: Node, k: nat, x: Node)
    requires s.Keys == nodes && b in nodes && x in nodes && b != x && 1 <= k <= |s[b].keys| && k < |s[b].childs|
    requires forall n :: n in nodes && n != b ==> n.Record() == s[n]
    requires forall n :: n in nodes && n != b ==> n.Buffers(c)
    requires b.Buffers(c) && b.Record()
      == s[b].(keys := Removed(s[b].keys, k - 1), childs := Removed(s[b].childs, k), lo := b.lo, hi := b.hi)
    requires s[b].lo == b.lo && s[b].hi == b.hi
    ensures Sized(nodes - {x}, c) && Snap(nodes - {x}) == (s - {x})[b := DetachRec(s, b, k, b)]
  {
  }

  method DetachChild(ghost nodes: set<Node>, ghost c: Capacity, b: Node, k: nat, ghost x: Node, ghost cs: seq<Node>)
      returns (ghost s1: Store)
    requires b in nodes && x in nodes && b != x && Sized(nodes, c) && b.level > 0 && 1 <= k <= b.size
    requires k < |Snap(nodes)[b].childs| && cs == Removed(Snap(nodes)[b].childs, k)
    requires Distinct(cs) && forall j :: 0 <= j < |cs| ==> cs[j] in nodes - {x}
    modifies b`keys, b`childs, b`size
    modifies (nodes - {x})`parent
    modifies (nodes - {x})`slot
    ensures Sized(nodes - {x}, c) && b.size == old(b.size) - 1
    ensures k <= |old(Snap(nodes))[b].keys| && k <= |cs|
    ensures s1 == (old(Snap(nodes)) - {x})[b := DetachRec(old(Snap(nodes)), b, k, b)]
    ensures Relinked(s1, Snap(nodes - {x}), b, cs, k, |cs|)
  {
    hide *;
    DetachWrite(nodes, c, b, k, x);
    s1 := Snap(nodes - {x});
    LinkChildren(nodes - {x}, c, b, k, b.size + 1, cs);
  }

  // two siblings and their parent
  ghost predicate PairAt(s: Store, p: Node, i: nat, l: Node, r: Node)
  {
    && p in s && l in s && r in s && l != r && l != p && r != p
    && i < |s[p].keys| && i + 1 < |s[p].childs| && s[p].childs[i] == l && s[p].childs[i + 1] == r
  }

  lemma ThreeFold(s: Store, nodes: set<Node>, c: Capacity, l: Node, r: Node, p: Node)
    requires s.Keys == nodes && l in nodes && r in nodes && p in nodes
    requires forall n :: n in nodes && n != l && n != r && n != p ==> n.Record() == s[n]
    requires forall n :: n in nodes && n != l && n != r && n != p ==> n.Buffers(c)
    requires l.Buffers(c) && r.Buffers(c) && p.Buffers(c)
    ensures Sized(nodes, c) && Snap(nodes) == s[l := l.Record()][r := r.Record()][p := p.Record()]
  {
    SnapThree(s, nodes, l, r, p);
  }

  // RearrangeKeys when all keys fit into the left branch, before the links of the children
  method MergeWrite(ghost nodes: set<Node>, ghost c: Capacity, p: Node, i: nat, l: Node, r: Node)
      returns (ghost lost: int)
    requires Sized(nodes, c) && PairAt(Snap(nodes), p, i, l, r) && p in nodes && l in nodes && r in nodes && i < p.size
    requires l.level > 0 && r.level > 0 && p.level > 0 && l.size + 1 + r.size <= c.branch && l != r && l != p && r != p
    modifies l`keys, l`childs, l`size, l`hi, r`size, r`lo, p`keys
    ensures Sized(nodes, c) && r.size == 0 && l.size < |l.childs|
    ensures var s := old(Snap(nodes)); PairAt(s, p, i, l, r) && s[p].childs[i] in s && s[p].childs[i + 1] in s
    ensures var s := old(Snap(nodes));
      && l.childs[..l.size + 1] == BothChilds(s, p, i)
      && Snap(nodes) == s[l := MergeRec(s, p, i, lost, l)][r := MergeRec(s, p, i, lost, r)][p :=
        MergeRec(s, p, i, lost, p)]
  {
    hide *;
    ghost var s := Snap(nodes);
    AllBuffers(nodes, c);
    SnapAll(nodes);
    Three(nodes, c, l, r, p);
    PairParts(s, p, i, l, r);
    lost := l.keys[l.size];
    l.TakeAllKeys(r, p, i);
    l.hi := r.hi;
    r.lo := r.hi;
    BranchIs(l, c, s[l], s[l].keys + [s[p].keys[i]] + s[r].keys, s[l].childs + s[r].childs, l.lo, l.hi);
    BranchIs(r, c, s[r], [], s[r].childs[..1], r.lo, r.hi);
    BranchIs(p, c, s[p], s[p].keys[i := lost], s[p].childs, p.lo, p.hi);
    MergeIs(s, p, i, lost, l, r);
    ThreeFold(s, nodes, c, l, r, p);
  }

  lemma Three(nodes: set<Node>, c: Capacity, l: Node, r: Node, p: Node)
    requires Sized(nodes, c) && l in nodes && r in nodes && p in nodes && l.level > 0 && r.level > 0 && p.level > 0
    ensures l.items == [] && |l.keys| == c.branch && |l.childs| == c.branch + 1 && l.size <= c.branch
    ensures r.items == [] && |r.keys| == c.branch && |r.childs| == c.branch + 1 && r.size <= c.branch
    ensures p.items == [] && |p.keys| == c.branch && |p.childs| == c.branch + 1 && p.size <= c.branch
    ensures Snap(nodes)[l] == Rec(l.level, l.parent, l.slot, l.next, l.prev, [], l.keys[..l.size],
      l.childs[..l.size + 1], l.lo, l.hi)
    ensures Snap(nodes)[r] == Rec(r.level, r.parent, r.slot, r.next, r.prev, [], r.keys[..r.size],
      r.childs[..r.size + 1], r.lo, r.hi)
    ensures Snap(nodes)[p] == Rec(p.level, p.parent, p.slot, p.next, p.prev, [], p.keys[..p.size],
      p.childs[..p.size + 1], p.lo, p.hi)
  {
    assert l.Buffers(c) && r.Buffers(c) && p.Buffers(c);
    BranchRecord(l, c);
    BranchRecord(r, c);
    BranchRecord(p, c);
  }

  lemma PairParts(s: Store, p: Node, i: nat, l: Node, r: Node)
    requires PairAt(s, p, i, l, r)
    ensures p in s && l in s && r in s && l != r && l != p && r != p
    ensures i < |s[p].keys| && i + 1 < |s[p].childs| && s[p].childs[i] == l && s[p].childs[i + 1] == r
    ensures BothKeys(s, p, i) == s[l].keys + [s[p].keys[i]] + s[r].keys
      && BothChilds(s, p, i) == s[l].childs + s[r].childs
  {
  }

  lemma PairApart(s: Store, p: Node, i: nat, l: Node, r: Node)
    requires PairAt(s, p, i, l, r)
    ensures p in s && l in s && r in s && l != r && l != p && r != p
    ensures i < |s[p].keys| && i + 1 < |s[p].childs| && s[p].childs[i] == l && s[p].childs[i + 1] == r
  {
  }

  lemma MergeIs(s: Store, p: Node, i: nat, lost: int, l: Node, r: Node)
    requires PairAt(s, p, i, l, r) && |s[r].childs| > 0
    ensures MergeRec(s, p, i, lost, l)
      == s[l].(keys := s[l].keys + [s[p].keys[i]] + s[r].keys, childs := s[l].childs + s[r].childs, hi := s[r].hi)
    ensures MergeRec(s, p, i, lost, r) == s[r].(keys := [], childs := s[r].childs[..1], lo := s[r].hi)
    ensures MergeRec(s, p, i, lost, p) == s[p].(keys := s[p].keys[i := lost])
  {
  }

  method MergeBranches(ghost nodes: set<Node>, ghost c: Capacity, p: Node, i: nat, l: Node, r: Node,
      ghost cs: seq<Node>)
    returns (ghost lost: int, ghost s1: Store)
    requires Sized(nodes, c) && PairAt(Snap(nodes), p, i, l, r) && p in nodes && l in nodes && r in nodes && i < p.size
    requires l.level > 0 && r.level > 0 && p.level > 0 && l.size + 1 + r.size <= c.branch && l != r && l != p && r != p
    requires cs == Snap(nodes)[l].childs + Snap(nodes)[r].childs && Distinct(cs) && forall k ::
      0 <= k < |cs| ==> cs[k] in nodes
    modifies l`keys, l`childs, l`size, l`hi, r`size, r`lo, p`keys
    modifies nodes`parent
    modifies nodes`slot
    ensures Sized(nodes, c) && r.size == 0
    ensures var s := old(Snap(nodes));
      PairAt(s, p, i, l, r) && s[p].childs[i] in s && s[p].childs[i + 1] in s && |s[l].childs| <= |cs|
    ensures var s := old(Snap(nodes));
      && cs == BothChilds(s, p, i)
      && s1 == s[l := MergeRec(s, p, i, lost, l)][r := MergeRec(s, p, i, lost, r)][p := MergeRec(s, p, i, lost, p)]
      && Relinked(s1, Snap(nodes), l, cs, |s[l].childs|, |cs|)
  {
    hide *;
    ghost var s := Snap(nodes);
    PairParts(s, p, i, l, r);
    Three(nodes, c, l, r, p);
    var begin := l.size + 1;
    lost := MergeWrite(nodes, c, p, i, l, r);
    s1 := Snap(nodes);
    LinkChildren(nodes, c, l, begin, l.size + 1, cs);
  }

  lemma BorrowIs(s: Store, p: Node, i: nat, m: nat, l: Node, r: Node)
    requires PairAt(s, p, i, l, r) && m < |BothKeys(s, p, i)| && m + 1 < |BothChilds(s, p, i)|
      && BothChilds(s, p, i)[m + 1] in s
    ensures var ks, cs := BothKeys(s, p, i), BothChilds(s, p, i); var e := s[cs[m + 1]].lo;
      && BorrowRec(s, p, i, m, l) == s[l].(keys := ks[..m], childs := cs[..m + 1], hi := e)
      && BorrowRec(s, p, i, m, r) == s[r].(keys := ks[m + 1..], childs := cs[m + 1..], lo := e)
      && BorrowRec(s, p, i, m, p) == s[p].(keys := s[p].keys[i := ks[m]])
  {
    hide BothKeys, BothChilds;
  }

  lemma UpdatedPrefix(q: seq<int>, n: nat, i: nat, x: int)
    requires i < n <= |q|
    ensures q[i := x][..n] == q[..n][i := x]
  {
  }

  // the three branches after borrowing, against the snapshot before
  ghost predicate BorrowDone(s: Store, c: Capacity, p: Node, i: nat, m: nat, l: Node, r: Node)
    requires PairAt(s, p, i, l, r) && m + 1 < |BothChilds(s, p, i)| && BothChilds(s, p, i)[m + 1] in s
    requires m < |BothKeys(s, p, i)|
    reads l, r, p
  {
    && l.level > 0 && l.items == [] && |l.keys| == c.branch && |l.childs| == c.branch + 1 && l.size <= c.branch
    && r.level > 0 && r.items == [] && |r.keys| == c.branch && |r.childs| == c.branch + 1 && r.size <= c.branch
    && p.level > 0 && p.items == [] && |p.keys| == c.branch && |p.childs| == c.branch + 1 && p.size <= c.branch
    && s[l].level == l.level && s[l].parent == l.parent && s[l].slot == l.slot && s[l].next == l.next
    && s[l].prev == l.prev
    && s[r].level == r.level && s[r].parent == r.parent && s[r].slot == r.slot && s[r].next == r.next
    && s[r].prev == r.prev
    && s[p].level == p.level && s[p].parent == p.parent && s[p].slot == p.slot && s[p].next == p.next
    && s[p].prev == p.prev
    && var ks, cs := BothKeys(s, p, i), BothChilds(s, p, i);
    && s[l].lo == l.lo && l.hi == s[cs[m + 1]].lo && r.lo == s[cs[m + 1]].lo && s[r].hi == r.hi
    && s[p].lo == p.lo && s[p].hi == p.hi
    && l.keys[..l.size] == ks[..m] && r.keys[..r.size] == ks[m + 1..] && p.keys[..p.size] == s[p].keys[i := ks[m]]
    && l.childs[..l.size + 1] == cs[..m + 1] && r.childs[..r.size + 1] == cs[m + 1..]
    && p.childs[..p.size + 1] == s[p].childs
  }

  lemma BorrowFold(s: Store, nodes: set<Node>, c: Capacity, p: Node, i: nat, m: nat, l: Node, r: Node)
    requires s.Keys == nodes && PairAt(s, p, i, l, r) && s[l].items == s[r].items == s[p].items == []
    requires m < |BothKeys(s, p, i)| && m + 1 < |BothChilds(s, p, i)| && BothChilds(s, p, i)[m + 1] in s
    requires forall n :: n in nodes && n != l && n != r && n != p ==> n.Record() == s[n]
    requires forall n :: n in nodes && n != l && n != r && n != p ==> n.Buffers(c)
    requires BorrowDone(s, c, p, i, m, l, r)
    ensures Sized(nodes, c)
    ensures Snap(nodes) == s[l := BorrowRec(s, p, i, m, l)][r := BorrowRec(s, p, i, m, r)][p :=
      BorrowRec(s, p, i, m, p)]
  {
    var ks, cs := BothKeys(s, p, i), BothChilds(s, p, i);
    hide Node.Record, Node.Buffers, Snap, Sized, BothKeys, BothChilds, BorrowRec, PairAt, Prefix;
    PairParts(s, p, i, l, r);
    BorrowIs(s, p, i, m, l, r);
    BranchIs(l, c, s[l], ks[..m], cs[..m + 1], l.lo, l.hi);
    BranchIs(r, c, s[r], ks[m + 1..], cs[m + 1..], r.lo, r.hi);
    BranchIs(p, c, s[p], s[p].keys[i := ks[m]], s[p].childs, p.lo, p.hi);
    ThreeFold(s, nodes, c, l, r, p);
  }

  // the keys and children of the pair, from the buffers
  lemma BothRows(nodes: set<Node>, c: Capacity, p: Node, i: nat, l: Node, r: Node)
    requires Sized(nodes, c) && l in nodes && r in nodes && p in nodes && l.level > 0 && r.level > 0 && p.level > 0
    requires i < p.size && PairAt(Snap(nodes), p, i, l, r)
    ensures l.Rows(r, p, i, BothKeys(Snap(nodes), p, i), BothChilds(Snap(nodes), p, i))
    ensures |BothKeys(Snap(nodes), p, i)| == l.size + 1 + r.size
  {
    hide Node.Record, Node.Buffers, Snap, Sized, BothKeys, BothChilds, PairAt, Prefix;
    Three(nodes, c, l, r, p);
    PairParts(Snap(nodes), p, i, l, r);
    assert p.keys[..p.size][i] == p.keys[i];
  }

  method BorrowMove(ghost nodes: set<Node>, ghost c: Capacity, p: Node, i: nat, l: Node, r: Node, ghost m: nat)
    requires Sized(nodes, c) && PairAt(Snap(nodes), p, i, l, r) && p in nodes && l in nodes && r in nodes && i < p.size
    requires l.level > 0 && r.level > 0 && p.level > 0 && l != r && l != p && r != p
    requires m + m <= l.size + r.size <= m + m + 1 && m != l.size && l.size + r.size >= c.branch && c.branch >= 2
    requires m + 1 < |BothChilds(Snap(nodes), p, i)| && BothChilds(Snap(nodes), p, i)[m + 1] in nodes
    modifies l`keys, l`childs, l`size, l`hi, r`keys, r`childs, r`size, r`lo, p`keys
    ensures l.size == m && r.size == old(l.size + r.size) - m && l.size < |l.childs| && r.size < |r.childs|
    ensures var s := old(Snap(nodes)); var cs := BothChilds(s, p, i);
      && PairAt(s, p, i, l, r) && m < |BothKeys(s, p, i)| && s.Keys == nodes
      && l.childs[..m + 1] == cs[..m + 1] && r.childs[..r.size + 1] == cs[m + 1..]
      && BorrowDone(s, c, p, i, m, l, r)
  {
    hide Node.Record, Node.Buffers, Snap, Sized, BothKeys, BothChilds, PairAt, Prefix, Node.Rows;
    ghost var s := Snap(nodes);
    Three(nodes, c, l, r, p);
    PairApart(s, p, i, l, r);
    ghost var ks, cs := BothKeys(s, p, i), BothChilds(s, p, i);
    SnapAt(nodes, cs[m + 1]);
    ghost var e := cs[m + 1].lo;
    BothRows(nodes, c, p, i, l, r);
    UpdatedPrefix(p.keys, p.size, i, ks[m]);
    l.EvenKeys(r, p, i, ks, cs, e);
  }

  // RearrangeKeys when the keys do not fit into one branch, before the links of the children
  method BorrowWrite(ghost nodes: set<Node>, ghost c: Capacity, p: Node, i: nat, l: Node, r: Node, ghost m: nat)
    requires Sized(nodes, c) && PairAt(Snap(nodes), p, i, l, r) && p in nodes && l in nodes && r in nodes && i < p.size
    requires l.level > 0 && r.level > 0 && p.level > 0 && l != r && l != p && r != p
    requires m + m <= l.size + r.size <= m + m + 1 && m != l.size && l.size + r.size >= c.branch && c.branch >= 2
    requires m + 1 < |BothChilds(Snap(nodes), p, i)| && BothChilds(Snap(nodes), p, i)[m + 1] in nodes
    modifies l`keys, l`childs, l`size, l`hi, r`keys, r`childs, r`size, r`lo, p`keys
    ensures Sized(nodes, c) && l.size == m && r.size == old(l.size + r.size) - m && l.size < |l.childs|
      && r.size < |r.childs|
    ensures var s := old(Snap(nodes));
      PairAt(s, p, i, l, r) && s[p].childs[i] in s && s[p].childs[i + 1] in s && m < |BothKeys(s, p, i)|
    ensures var s := old(Snap(nodes)); var cs := BothChilds(s, p, i);
      && l.childs[..m + 1] == cs[..m + 1] && r.childs[..r.size + 1] == cs[m + 1..]
      && Snap(nodes) == s[l := BorrowRec(s, p, i, m, l)][r := BorrowRec(s, p, i, m, r)][p := BorrowRec(s, p, i, m, p)]
  {
    hide *;
    ghost var s := Snap(nodes);
    AllBuffers(nodes, c);
    SnapAll(nodes);
    Three(nodes, c, l, r, p);
    PairParts(s, p, i, l, r);
    BorrowMove(nodes, c, p, i, l, r, m);
    BorrowFold(s, nodes, c, p, i, m, l, r);
  }

  method BorrowBranches(ghost nodes: set<Node>, ghost c: Capacity, p: Node, i: nat, l: Node, r: Node, ghost m: nat,
      ghost cs: seq<Node>)
    returns (ghost s1: Store, ghost s2: Store)
    requires Sized(nodes, c) && PairAt(Snap(nodes), p, i, l, r) && p in nodes && l in nodes && r in nodes && i < p.size
    requires l.level > 0 && r.level > 0 && p.level > 0 && l != r && l != p && r != p
    requires m + m <= l.size + r.size <= m + m + 1 && m != l.size && l.size + r.size >= c.branch && c.branch >= 2
    requires cs == Snap(nodes)[l].childs + Snap(nodes)[r].childs && |cs| == l.size + r.size + 2
    requires Distinct(cs) && forall k :: 0 <= k < |cs| ==> cs[k] in nodes
    modifies l`keys, l`childs, l`size, l`hi, r`keys, r`childs, r`size, r`lo, p`keys
    modifies nodes`parent
    modifies nodes`slot
    ensures Sized(nodes, c) && r.size > 0 && l.size == m && l.size + r.size == old(l.size + r.size)
    ensures var s := old(Snap(nodes)); PairAt(s, p, i, l, r) && s[p].childs[i] in s && s[p].childs[i + 1] in s
    ensures m < |BothKeys(old(Snap(nodes)), p, i)| && m + 1 < |cs| && cs == BothChilds(old(Snap(nodes)), p, i)
    ensures var s := old(Snap(nodes));
      s1 == s[l := BorrowRec(s, p, i, m, l)][r := BorrowRec(s, p, i, m, r)][p := BorrowRec(s, p, i, m, p)]
    ensures RowLinked(s1, s2, Snap(nodes), l, r, |old(Snap(nodes))[l].childs|, m, cs)
  {
    hide *;
    ghost var s := Snap(nodes);
    PairParts(s, p, i, l, r);
    Three(nodes, c, l, r, p);
    var leftOld := l.size;
    BorrowWrite(nodes, c, p, i, l, r, m);
    s1 := Snap(nodes);
    s2 := LinkRow(nodes, c, l, r, leftOld, m, cs);
  }

  // the children of both branches, cs, are linked anew; the left branch had lc of them
  ghost predicate RowLinked(s1: Store, s2: Store, t: Store, l: Node, r: Node, lc: nat, m: nat, cs: seq<Node>)
  {
    && m + 1 < |cs| && Relinked(s1, s2, l, cs[..m + 1], if lc < m + 1 then lc else m + 1, m + 1)
    && Relinked(s2, t, r, cs[m + 1..], 0, |cs| - m - 1)
  }

  method LinkRow(ghost nodes: set<Node>, ghost c: Capacity, l: Node, r: Node, leftOld: nat, ghost m: nat,
      ghost cs: seq<Node>)
    returns (ghost s2: Store)
    requires l in nodes && r in nodes && Sized(nodes, c) && l.size == m && m + 1 < |cs| && |cs| == m + 2 + r.size
    requires l.size < |l.childs| && r.size < |r.childs| && l.childs[..m + 1] == cs[..m + 1]
      && r.childs[..r.size + 1] == cs[m + 1..]
    requires Distinct(cs) && forall k :: 0 <= k < |cs| ==> cs[k] in nodes
    modifies nodes`parent
    modifies nodes`slot
    ensures Sized(nodes, c) && RowLinked(old(Snap(nodes)), s2, Snap(nodes), l, r, leftOld + 1, m, cs)
  {
    hide *;
    ghost var s1 := Snap(nodes);
    DistinctParts(cs, m + 1);
    LinkTaken(nodes, c, l, leftOld, cs[..m + 1]);
    s2 := Snap(nodes);
    LinkChildren(nodes, c, r, 0, r.size + 1, cs[m + 1..]);
    FoldRow(s1, s2, Snap(nodes), l, r, leftOld + 1, m, cs);
  }

  lemma FoldRow(s1: Store, s2: Store, t: Store, l: Node, r: Node, lc: nat, m: nat, cs: seq<Node>)
    requires m + 1 < |cs| && Relinked(s1, s2, l, cs[..m + 1], if lc < m + 1 then lc else m + 1, m + 1)
    requires Relinked(s2, t, r, cs[m + 1..], 0, |cs| - m - 1)
    ensures RowLinked(s1, s2, t, l, r, lc, m, cs)
  {
    hide Relinked;
  }

  // the children the left branch has got from the right one, if it grew
  method LinkTaken(ghost nodes: set<Node>, ghost c: Capacity, l: Node, leftOld: nat, ghost cs: seq<Node>)
    requires l in nodes && Sized(nodes, c) && |cs| == l.size + 1 <= |l.childs| && l.childs[..l.size + 1] == cs
    requires Distinct(cs) && forall k :: 0 <= k < |cs| ==> cs[k] in nodes
    modifies nodes`parent
    modifies nodes`slot
    ensures Sized(nodes, c)
    ensures Relinked(old(Snap(nodes)), Snap(nodes), l, cs, if leftOld + 1 < |cs| then leftOld + 1 else |cs|, |cs|)
  {
    hide *;
    if leftOld < l.size {
      LinkChildren(nodes, c, l, leftOld + 1, l.size + 1, cs);
    } else {
      RelinkedNone(Snap(nodes), l, cs, |cs|);
    }
  }

  // the old root goes; its only child takes its place
  method FreeRoot(ghost nodes: set<Node>, ghost c: Capacity, r: Node, child: Node)
    requires r in nodes && child in nodes && r != child && Sized(nodes, c)
    modifies child`parent, child`slot
    ensures Sized(nodes - {r}, c)
    ensures Snap(nodes - {r}) == (old(Snap(nodes)) - {r})[child := old(Snap(nodes))[child].(parent := null, slot := 0)]
  {
    hide *;
    Hang(nodes, c, child, null, 0);
    Fewer(nodes, c, r);
  }

  lemma Fewer(nodes: set<Node>, c: Capacity, x: Node)
    requires Sized(nodes, c)
    ensures Sized(nodes - {x}, c) && Snap(nodes - {x}) == Snap(nodes) - {x}
  {
  }

  method SetNext(ghost nodes: set<Node>, ghost c: Capacity, n: Node, next: Node?)
    requires n in nodes && Sized(nodes, c)
    modifies n`next
    ensures Sized(nodes, c) && Snap(nodes) == old(Snap(nodes))[n := old(Snap(nodes))[n].(next := next)]
  {
    ghost var s := Snap(nodes);
    n.next := next;
    SnapOne(s, nodes, n);
  }

  method SetPrev(ghost nodes: set<Node>, ghost c: Capacity, n: Node, prev: Node?)
    requires n in nodes && Sized(nodes, c)
    modifies n`prev
    ensures Sized(nodes, c) && Snap(nodes) == old(Snap(nodes))[n := old(Snap(nodes))[n].(prev := prev)]
  {
    ghost var s := Snap(nodes);
    n.prev := prev;
    SnapOne(s, nodes, n);
  }

  // a leaf between l and next leaves the chain
  method Unlink(ghost nodes: set<Node>, ghost c: Capacity, l: Node, next: Node?)
    requires l in nodes && (next != null ==> next in nodes && next != l) && Sized(nodes, c)
    modifies l`next, (if next == null then {} else {next})`prev
    ensures Sized(nodes, c)
    ensures var s1 := old(Snap(nodes))[l := old(Snap(nodes))[l].(next := next)];
      Snap(nodes) == if next == null then s1 else s1[next := s1[next].(prev := l)]
  {
    hide *;
    SetNext(nodes, c, l, next);
    if next != null {
      SetPrev(nodes, c, next, l);
    }
  }
}
