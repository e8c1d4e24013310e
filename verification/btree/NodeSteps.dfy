// The operations of Leaf and Branch, seen as changes of a snapshot.
module BTreeNodeSteps {
  import opened BTreeArrays
  import opened BTreeNodes
  import opened BTreeLeafSteps

  method EnterLeaf(ghost nodes: set<Node>, ghost c: Capacity, leaf: Node, slot: nat, key: int)
    requires leaf in nodes && Sized(nodes, c) && leaf.level == 0 && slot <= leaf.size < c.leaf
    modifies leaf`items, leaf`size
    ensures Sized(nodes, c) && leaf.size == old(leaf.size) + 1 && leaf.size <= |leaf.items|
      && leaf.items[slot] == Item(key, 0)
    ensures slot <= |old(Snap(nodes))[leaf].items|
    ensures Snap(nodes) == Put(old(Snap(nodes)), leaf, Inserted(old(Snap(nodes))[leaf].items, slot, Item(key, 0)))
  {
    hide Inserted;
    ghost var s := Snap(nodes);
    assert leaf.Buffers(c) && s[leaf] == leaf.Record();
    leaf.LeafInsert(slot, key);
    InsertedAt(old(leaf.items[..leaf.size]), slot, Item(key, 0), slot);
    assert leaf.items[slot] == leaf.items[..leaf.size][slot];
    SnapOne(s, nodes, leaf);
  }

  // a leaf whose buffers fit: its record, spelled out
  lemma LeafRecord(n: Node, c: Capacity)
    requires n.Buffers(c) && n.level == 0
    ensures n.Record() == Rec(0, n.parent, n.slot, n.next, n.prev, n.items[..n.size], [], [], n.lo, n.hi)
  {
  }

  lemma SnapPutTwo(s: Store, nodes: set<Node>, c: Capacity, a: Node, b: Node, p: seq<Item>, q: seq<Item>)
    requires a in nodes && b in nodes && a != b && s.Keys == nodes
    requires forall n :: n in nodes && n != a && n != b ==> n.Record() == s[n]
    requires a.Buffers(c) && a.level == 0 && b.Buffers(c) && b.level == 0
    requires s[a] == a.Record().(items := s[a].items) && s[b] == b.Record().(items := s[b].items)
    requires a.items[..a.size] == p && b.items[..b.size] == q
    ensures Snap(nodes) == Put(Put(s, a, p), b, q)
  {
    LeafRecord(a, c);
    LeafRecord(b, c);
    SnapTwo(s, nodes, a, b);
  }

  lemma SnapAll(nodes: set<Node>)
    ensures forall n :: n in nodes ==> Snap(nodes)[n] == n.Record()
  {
  }

  // l holds the first m of all, r the rest
  ghost predicate DealtTo(s: Store, t: Store, l: Node, r: Node, all: seq<Item>, m: nat)
  {
    m <= |all| && t == Put(Put(s, l, all[..m]), r, all[m..])
  }

  method ShareWithRight(ghost nodes: set<Node>, ghost c: Capacity, leaf: Node, slot: nat, key: int, rightLeaf: Node)
    returns (at: Node, atSlot: nat, ghost all: seq<Item>)
    requires leaf in nodes && rightLeaf in nodes && leaf != rightLeaf && Sized(nodes, c)
    requires leaf.level == 0 && rightLeaf.level == 0 && slot <= leaf.size == c.leaf && rightLeaf.size < c.leaf
      && c.leaf >= 2
    modifies leaf`items, leaf`size, rightLeaf`items, rightLeaf`size
    ensures Sized(nodes, c) && slot <= |old(Snap(nodes))[leaf].items|
    ensures all == Inserted(old(Snap(nodes))[leaf].items + old(Snap(nodes))[rightLeaf].items, slot, Item(key, 0))
    ensures |all| == old(leaf.size + rightLeaf.size) + 1
      && (leaf.size + leaf.size == |all| || leaf.size + leaf.size + 1 == |all|)
    ensures 0 < leaf.size <= |leaf.items| && leaf.items[leaf.size - 1] == all[leaf.size - 1]
    ensures rightLeaf.size == |all| - leaf.size
    ensures DealtTo(old(Snap(nodes)), Snap(nodes), leaf, rightLeaf, all, leaf.size)
    ensures (at == leaf || at == rightLeaf) && atSlot < at.size <= |at.items| && at.items[atSlot] == Item(key, 0)
  {
    hide Inserted, Put, Prefix, Snap;
    ghost var s := Snap(nodes);
    assert leaf.Buffers(c) && rightLeaf.Buffers(c);
    LeafRecord(leaf, c);
    LeafRecord(rightLeaf, c);
    SnapAll(nodes);
    all := Inserted(leaf.items[..leaf.size] + rightLeaf.items[..rightLeaf.size], slot, Item(key, 0));
    at, atSlot := leaf.InsertAndRearrangeWithRight(slot, key, rightLeaf);
    assert leaf.items[leaf.size - 1] == leaf.items[..leaf.size][leaf.size - 1];
    LeafRecord(leaf, c);
    LeafRecord(rightLeaf, c);
    SnapPutTwo(s, nodes, c, leaf, rightLeaf, all[..leaf.size], all[leaf.size..]);
  }

  method ShareWithLeft(ghost nodes: set<Node>, ghost c: Capacity, leaf: Node, slot: nat, key: int, leftLeaf: Node)
    returns (at: Node, atSlot: nat, ghost all: seq<Item>)
    requires leaf in nodes && leftLeaf in nodes && leaf != leftLeaf && Sized(nodes, c)
    requires leaf.level == 0 && leftLeaf.level == 0 && slot <= leaf.size == c.leaf && leftLeaf.size < c.leaf
      && c.leaf >= 2
    modifies leaf`items, leaf`size, leftLeaf`items, leftLeaf`size
    ensures Sized(nodes, c) && slot <= |old(Snap(nodes))[leaf].items|
      && |old(Snap(nodes))[leftLeaf].items| == old(leftLeaf.size)
    ensures all == Inserted(old(Snap(nodes))[leftLeaf].items + old(Snap(nodes))[leaf].items, old(leftLeaf.size) + slot,
      Item(key, 0))
    ensures |all| == old(leaf.size + leftLeaf.size) + 1
    ensures leftLeaf.size + leftLeaf.size == |all| || leftLeaf.size + leftLeaf.size == |all| + 1
    ensures 0 < leftLeaf.size <= |leftLeaf.items| && leftLeaf.items[leftLeaf.size - 1] == all[leftLeaf.size - 1]
    ensures leaf.size == |all| - leftLeaf.size
    ensures DealtTo(old(Snap(nodes)), Snap(nodes), leftLeaf, leaf, all, leftLeaf.size)
    ensures (at == leaf || at == leftLeaf) && atSlot < at.size <= |at.items| && at.items[atSlot] == Item(key, 0)
  {
    hide Inserted, Put, Prefix, Snap;
    ghost var s := Snap(nodes);
    assert leaf.Buffers(c) && leftLeaf.Buffers(c);
    LeafRecord(leaf, c);
    LeafRecord(leftLeaf, c);
    SnapAll(nodes);
    all := Inserted(leftLeaf.items[..leftLeaf.size] + leaf.items[..leaf.size], leftLeaf.size + slot, Item(key, 0));
    at, atSlot := leaf.InsertAndRearrangeWithLeft(slot, key, leftLeaf);
    assert leftLeaf.items[leftLeaf.size - 1] == leftLeaf.items[..leftLeaf.size][leftLeaf.size - 1];
    LeafRecord(leaf, c);
    LeafRecord(leftLeaf, c);
    SnapPutTwo(s, nodes, c, leftLeaf, leaf, all[..leftLeaf.size], all[leftLeaf.size..]);
  }

  ghost function Shifted(s: Store, j: nat): (t: Store)
    ensures t.Keys == s.Keys
  {
    map n | n in s :: s[n].(lo := Shift(s[n].lo, j), hi := Shift(s[n].hi, j))
  }

  // the spans around leaf position j make room for one more leaf behind it
  ghost method ShiftSpans(nodes: set<Node>, c: Capacity, j: nat)
    requires Sized(nodes, c)
    modifies nodes`lo
    modifies nodes`hi
    ensures Sized(nodes, c)
    ensures Snap(nodes) == Shifted(old(Snap(nodes)), j)
  {
    hide Shifted, Prefix;
    ghost var s := Snap(nodes);
    forall n | n in nodes { n.lo := Shift(n.lo, j); }
    forall n | n in nodes { n.hi := Shift(n.hi, j); }
    ShiftedSnap(s, nodes, j);
  }

  lemma ShiftedSnap(s: Store, nodes: set<Node>, j: nat)
    requires s.Keys == nodes
    requires forall n :: n in nodes ==> n.Record() == s[n].(lo := Shift(s[n].lo, j), hi := Shift(s[n].hi, j))
    ensures Snap(nodes) == Shifted(s, j)
  {
  }

  ghost function SpliceAfter(s: Store, a: Node, b: Node): Store
    requires a in s
  {
    var n := s[a].next;
    if n == null || n !in s then s else s[n := s[n].(prev := b)]
  }

  method CutLeaf(ghost nodes: set<Node>, ghost c: Capacity, leaf: Node, slot: nat, key: int)
    returns (newKey: int, newLeaf: Node, at: Node, atSlot: nat)
    requires leaf in nodes && Sized(nodes, c) && leaf.level == 0 && slot <= leaf.size == c.leaf && c.leaf >= 2
    requires leaf.next != null ==> leaf.next in nodes && leaf.next != leaf && leaf.next.level == 0
    modifies leaf`items, leaf`size, leaf`next, (if leaf.next == null then {} else {leaf.next})`prev
    ensures fresh(newLeaf) && newLeaf.level == 0 && newLeaf.Buffers(c) && Sized(nodes, c)
    ensures (at == leaf || at == newLeaf) && atSlot < at.size <= |at.items| && at.items[atSlot] == Item(key, 0)
    ensures slot <= |old(Snap(nodes))[leaf].items| == c.leaf
    ensures var s := old(Snap(nodes)); var q := Inserted(s[leaf].items, slot, Item(key, 0)); var m := (c.leaf + 1) / 2;
      && newKey == q[m - 1].key
      && newLeaf.Record() == Rec(0, null, 0, s[leaf].next, leaf, q[m..], [], [], newLeaf.lo, newLeaf.hi)
      && Snap(nodes) == SpliceAfter(s, leaf, newLeaf)[leaf := s[leaf].(items := q[..m], next := newLeaf)]
  {
    hide *;
    ghost var s := Snap(nodes);
    ghost var nx := leaf.next;
    AllBuffers(nodes, c);
    LeafRecord(leaf, c);
    SnapAll(nodes);
    if nx != null {
      LeafRecord(nx, c);
      LeafBuffers(nx, c);
    }
    LeafBuffers(leaf, c);
    assert leaf.items[..leaf.size] == leaf.items;
    newKey, newLeaf, at, atSlot := leaf.LeafInsertAndSplit(slot, key);
    assert newKey == leaf.items[..leaf.size][leaf.size - 1].key;
    CutFold(s, nodes, c, leaf, nx, newLeaf, Inserted(s[leaf].items, slot, Item(key, 0)), leaf.size);
  }

  lemma LeafBuffers(n: Node, c: Capacity)
    requires n.level == 0
    ensures n.Buffers(c) <==> (|n.items| == c.leaf && n.keys == [] && n.childs == [] && n.size <= c.leaf)
  {
  }

  lemma CutFold(s: Store, nodes: set<Node>, c: Capacity, a: Node, nx: Node?, b: Node, q: seq<Item>, m: nat)
    requires s.Keys == nodes && a in nodes && a.level == 0 && b.level == 0 && m <= |q|
    requires forall n :: n in nodes && n != a && n != nx ==> n.Record() == s[n] && n.Buffers(c)
    requires |a.items| == |b.items| == c.leaf && a.keys == [] && a.childs == [] && b.keys == [] && b.childs == []
    requires a.size == m <= c.leaf && b.size == |q| - m <= c.leaf
    requires s[a] == Rec(0, a.parent, a.slot, nx, a.prev, s[a].items, [], [], a.lo, a.hi) && a.next == b
      && a.items[..a.size] == q[..m]
    requires b.parent == null && b.slot == 0 && b.next == nx && b.prev == a && b.items[..b.size] == q[m..]
    requires nx != null ==>
               && nx in nodes && nx != a && nx.level == 0 && nx.prev == b && |nx.items| == c.leaf && nx.keys == []
                 && nx.childs == []
               && nx.size <= c.leaf
               && s[nx] == Rec(0, nx.parent, nx.slot, nx.next, s[nx].prev, nx.items[..nx.size], [], [], nx.lo, nx.hi)
    ensures Sized(nodes, c) && b.Buffers(c)
    ensures b.Record() == Rec(0, null, 0, nx, a, q[m..], [], [], b.lo, b.hi)
    ensures Snap(nodes) == SpliceAfter(s, a, b)[a := s[a].(items := q[..m], next := b)]
  {
    hide Prefix;
    LeafRecord(a, c);
    LeafRecord(b, c);
    if nx != null { LeafRecord(nx, c); }
    CutSnap(s, nodes, a, nx);
  }

  lemma CutSnap(s: Store, nodes: set<Node>, a: Node, b: Node?)
    requires a in nodes && s.Keys == nodes && (b != null ==> b in nodes && b != a)
    requires forall n :: n in nodes && n != a && n != b ==> n.Record() == s[n]
    requires b != null ==> b.Record() == s[b].(prev := b.prev)
    ensures Snap(nodes) == (if b == null then s else s[b := s[b].(prev := b.prev)])[a := a.Record()]
  {
  }

  // makes room behind leaf position j for the new leaf x
  ghost method PlaceLeaf(nodes: set<Node>, c: Capacity, j: nat, x: Node)
    requires Sized(nodes, c) && x !in nodes && x.Buffers(c)
    modifies x`lo, x`hi
    modifies nodes`lo
    modifies nodes`hi
    ensures Sized(nodes + {x}, c)
    ensures Snap(nodes + {x}) == Shifted(old(Snap(nodes)), j)[x := old(x.Record()).(lo := j + 1, hi := j + 2)]
  {
    hide Snap, Prefix, Sized, Shifted;
    ShiftSpans(nodes, c, j);
    x.lo, x.hi := j + 1, j + 2;
    SizedMore(nodes, x, c);
    SnapMore(nodes, x);
  }

  // the snapshot after leaf a, at position j, has been cut at m with the new leaf b behind it
  ghost function CutStore(s: Store, a: Node, b: Node, j: nat, q: seq<Item>, m: nat): (t: Store)
    requires a in s && m <= |q|
  {
    Shifted(SpliceAfter(s, a, b)[a := s[a].(items := q[..m], next := b)], j)
      [b := Rec(0, null, 0, s[a].next, a, q[m..], [], [], j + 1, j + 2)]
  }

  // Leaf::InsertAndSplit, with the ghost spans
  method CutOff(ghost nodes: set<Node>, ghost c: Capacity, leaf: Node, slot: nat, key: int)
    returns (newKey: int, newLeaf: Node, at: Node, atSlot: nat)
    requires leaf in nodes && Sized(nodes, c) && leaf.level == 0 && slot <= leaf.size == c.leaf && c.leaf >= 2
    requires leaf.next != null ==> leaf.next in nodes && leaf.next != leaf && leaf.next.level == 0
    modifies leaf`items, leaf`size, leaf`next, (if leaf.next == null then {} else {leaf.next})`prev
    modifies nodes`lo
    modifies nodes`hi
    ensures fresh(newLeaf) && newLeaf.level == 0 && Sized(nodes + {newLeaf}, c)
    ensures (at == leaf || at == newLeaf) && atSlot < at.size <= |at.items| && at.items[atSlot] == Item(key, 0)
    ensures slot <= |old(Snap(nodes))[leaf].items| == c.leaf
    ensures var s := old(Snap(nodes)); var q := Inserted(s[leaf].items, slot, Item(key, 0)); var m := (c.leaf + 1) / 2;
      newKey == q[m - 1].key && Snap(nodes + {newLeaf}) == CutStore(s, leaf, newLeaf, old(leaf.lo), q, m)
  {
    hide Inserted, Prefix, Snap, Sized, SpliceAfter, Shifted;
    newKey, newLeaf, at, atSlot := CutLeaf(nodes, c, leaf, slot, key);
    PlaceLeaf(nodes, c, leaf.lo, newLeaf);
  }

  lemma SizedMore(nodes: set<Node>, x: Node, c: Capacity)
    requires Sized(nodes, c) && x.Buffers(c)
    ensures Sized(nodes + {x}, c)
  {
  }

  lemma AllBuffers(nodes: set<Node>, c: Capacity)
    requires Sized(nodes, c)
    ensures forall n :: n in nodes ==> n.Buffers(c)
  {
  }

  lemma BuffersOf(nodes: set<Node>, c: Capacity, n: Node)
    requires Sized(nodes, c) && n in nodes
    ensures n.Buffers(c)
  {
  }

  lemma SnapMore(nodes: set<Node>, x: Node)
    requires x !in nodes
    ensures Snap(nodes + {x}) == Snap(nodes)[x := x.Record()]
  {
  }

  // ---------- branches

  ghost predicate Distinct(q: seq<Node>) { forall i, j :: 0 <= i < j < |q| ==> q[i] != q[j] }

  // links below a branch, from its live children
  method LinkChildren(ghost nodes: set<Node>, ghost c: Capacity, b: Node, begin: nat, end: nat, ghost cs: seq<Node>)
    requires b in nodes && Sized(nodes, c) && begin <= end <= |cs| <= |b.childs| && b.childs[..|cs|] == cs
    requires Distinct(cs) && forall k :: 0 <= k < |cs| ==> cs[k] in nodes
    modifies nodes`parent
    modifies nodes`slot
    ensures Sized(nodes, c) && Relinked(old(Snap(nodes)), Snap(nodes), b, cs, begin, end)
  {
    hide Snap, Relinked;
    assert forall k :: 0 <= k < |cs| ==> b.childs[k] == cs[k];
    b.UpdateChildrenLinks(nodes, begin, end);
    RelinkedPart(old(Snap(nodes)), Snap(nodes), b, b.childs, cs, begin, end);
  }

  lemma RelinkedPart(s: Store, t: Store, b: Node, buf: seq<Node>, cs: seq<Node>, i: nat, j: nat)
    requires i <= j <= |cs| <= |buf| && buf[..|cs|] == cs && Relinked(s, t, b, buf, i, j)
    ensures Relinked(s, t, b, cs, i, j)
  {
    assert cs[i..j] == buf[i..j];
    forall k | i <= k < j ensures cs[k] in s && t[cs[k]] == s[cs[k]].(parent := b, slot := k) { assert cs[k] == buf[k];
        }
  }

  lemma BranchRecord(n: Node, c: Capacity)
    requires n.Buffers(c) && n.level > 0
    ensures n.Record() == Rec(n.level, n.parent, n.slot, n.next, n.prev, [], n.keys[..n.size], n.childs[..n.size + 1],
      n.lo, n.hi)
  {
  }

  lemma SnapAt(nodes: set<Node>, n: Node)
    requires n in nodes
    ensures var r := Snap(nodes)[n];
      && r == n.Record() && r.level == n.level && r.parent == n.parent && r.slot == n.slot && r.next == n.next
        && r.prev == n.prev
      && r.lo == n.lo && r.hi == n.hi
  {
  }

  // parents and slots from a level on
  ghost predicate Steady(s: Store, t: Store, level: nat)
  {
    forall n {:trigger s[n]} {:trigger t[n]} ::
        n in s && s[n].level >= level ==> n in t && t[n].parent == s[n].parent && t[n].slot == s[n].slot
  }

  lemma SteadyFold(s: Store, t: Store, level: nat)
    requires forall n :: n in s && s[n].level >= level ==>
               n in t && t[n].parent == s[n].parent && t[n].slot == s[n].slot
    ensures Steady(s, t, level)
  {
  }

  lemma SteadyAt(s: Store, t: Store, level: nat, n: Node)
    requires Steady(s, t, level) && n in s && s[n].level >= level
    ensures n in t && t[n].parent == s[n].parent && t[n].slot == s[n].slot
  {
  }

  ghost predicate SameLevels(s: Store, t: Store)
  {
    forall n :: n in s && n in t ==> t[n].level == s[n].level
  }

  lemma LevelsFold(s: Store, t: Store)
    requires forall n :: n in s && n in t ==> t[n].level == s[n].level
    ensures SameLevels(s, t)
  {
  }

  lemma SteadyUp(s: Store, t: Store, lower: nat, level: nat)
    requires Steady(s, t, lower) && lower <= level
    ensures Steady(s, t, level)
  {
  }

  lemma SteadyBoth(s: Store, t: Store, u: Store, level: nat)
    requires Steady(s, t, level) && Steady(t, u, level) && SameLevels(s, t)
    ensures Steady(s, u, level)
  {
  }

  lemma SteadyThen(s: Store, t: Store, u: Store, lower: nat, level: nat)
    requires Steady(s, t, lower) && Steady(t, u, level) && lower <= level
    requires forall n :: n in s && n in t ==> t[n].level == s[n].level
    ensures Steady(s, u, level)
  {
  }

  lemma SnapFields(nodes: set<Node>)
    ensures forall n ::
      n in nodes ==>
      Snap(nodes)[n].parent == n.parent && Snap(nodes)[n].slot == n.slot && Snap(nodes)[n].level == n.level
  {
  }

  ghost method SetHi(nodes: set<Node>, c: Capacity, n: Node, hi: nat)
    requires n in nodes && Sized(nodes, c)
    modifies n`hi
    ensures Sized(nodes, c)
    ensures Snap(nodes) == old(Snap(nodes))[n := old(Snap(nodes))[n].(hi := hi)]
  {
    ghost var s := Snap(nodes);
    n.hi := hi;
    SnapOne(s, nodes, n);
  }

  // the writes of Branch::Insert to the branch itself
  method InsertWrite(ghost nodes: set<Node>, ghost c: Capacity, b: Node, slot: nat, key: int, child: Node)
    requires b in nodes && Sized(nodes, c) && b.level > 0 && slot <= b.size < c.branch && b.Buffers(c)
    modifies b`keys, b`childs, b`size
    ensures Sized(nodes, c) && b.size == old(b.size) + 1
    ensures var r := old(Snap(nodes))[b]; slot <= |r.keys| && slot < |r.childs| && |r.childs| == old(b.size) + 1
    ensures var r := old(Snap(nodes))[b];
      && |b.childs| == c.branch + 1 && b.childs[..b.size + 1] == Inserted(r.childs, slot + 1, child)
      && Snap(nodes) == old(Snap(nodes))[b :=
        r.(keys := Inserted(r.keys, slot, key), childs := Inserted(r.childs, slot + 1, child))]
  {
    hide Inserted, Prefix;
    ghost var s := Snap(nodes);
    BranchRecord(b, c);
    SnapAt(nodes, b);
    b.BranchInsert(slot, key, child);
    BranchRecord(b, c);
    SnapOne(s, nodes, b);
  }

  method AttachChild(ghost nodes: set<Node>, ghost c: Capacity, b: Node, slot: nat, key: int, ghost cut: Node,
      child: Node, ghost cs: seq<Node>)
    requires b in nodes && child in nodes && cut in nodes && b != cut && Sized(nodes, c) && b.level > 0
      && slot <= b.size < c.branch
    requires slot < |Snap(nodes)[b].childs| && cs == Inserted(Snap(nodes)[b].childs, slot + 1, child)
    requires Distinct(cs) && forall k :: 0 <= k < |cs| ==> cs[k] in nodes
    modifies b`keys, b`childs, b`size, cut`hi
    modifies nodes`parent
    modifies nodes`slot
    ensures Sized(nodes, c) && b.size == old(b.size) + 1
    ensures slot <= |old(Snap(nodes))[b].keys|
    ensures var s := old(Snap(nodes));
      Relinked(s[cut := s[cut].(hi := s[child].lo)][b := s[b].(keys := Inserted(s[b].keys, slot, key), childs := cs)],
               Snap(nodes), b, cs, slot + 1, |cs|)
  {
    hide *;
    BuffersOf(nodes, c, b);
    SnapAt(nodes, child);
    SetHi(nodes, c, cut, child.lo);
    InsertWrite(nodes, c, b, slot, key, child);
    LinkChildren(nodes, c, b, slot + 1, b.size + 1, cs);
  }

  // a full branch about to take in a child at slot + 1
  ghost predicate FullAt(s: Store, c: Capacity, b: Node, slot: nat)
  {
    b in s && |s[b].keys| == c.branch && |s[b].childs| == c.branch + 1 && slot <= c.branch && c.branch >= 2
  }

  ghost function LowerHalf(r: Rec, c: Capacity, slot: nat, key: int, child: Node): Rec
    requires |r.keys| == c.branch && |r.childs| == c.branch + 1 && slot <= c.branch
  {
    var m := (c.branch + 1) / 2;
    r.(keys := Inserted(r.keys, slot, key)[..m], childs := Inserted(r.childs, slot + 1, child)[..m + 1])
  }

  ghost function UpperHalf(r: Rec, c: Capacity, slot: nat, key: int, child: Node, lo: nat): Rec
    requires |r.keys| == c.branch && |r.childs| == c.branch + 1 && slot <= c.branch
  {
    var m := (c.branch + 1) / 2;
    Rec(r.level, null, 0, null, null, [], Inserted(r.keys, slot, key)[m + 1..],
        Inserted(r.childs, slot + 1, child)[m + 1..], lo, r.hi)
  }

  lemma HalfRecords(b: Node, x: Node, c: Capacity, r: Rec, slot: nat, key: int, child: Node, lo: nat)
    requires |r.keys| == c.branch && |r.childs| == c.branch + 1 && slot <= c.branch && r.items == [] && r.level > 0
    requires b.Buffers(c) && x.Buffers(c) && b.level == r.level == x.level
    requires b.size == (c.branch + 1) / 2 && x.size == c.branch - b.size
    requires b.parent == r.parent && b.slot == r.slot && b.next == r.next && b.prev == r.prev && b.lo == r.lo
      && b.hi == r.hi
    requires x.parent == null && x.slot == 0 && x.next == null && x.prev == null && x.lo == lo && x.hi == r.hi
    requires var ks := Inserted(r.keys, slot, key);
      b.keys[..b.size] == ks[..b.size] && x.keys[..x.size] == ks[b.size + 1..]
    requires var cs := Inserted(r.childs, slot + 1, child);
      b.childs[..b.size + 1] == cs[..b.size + 1] && x.childs[..x.size + 1] == cs[b.size + 1..]
    ensures b.Record() == LowerHalf(r, c, slot, key, child) && x.Record() == UpperHalf(r, c, slot, key, child, lo)
  {
    hide Inserted;
    BranchRecord(b, c);
    BranchRecord(x, c);
  }

  // the writes of Branch::InsertAndSplit to the two branches
  method SplitWrite(c: Capacity, b: Node, slot: nat, key: int, child: Node, ghost lo: nat)
      returns (newKey: int, newBranch: Node)
    requires b.level > 0 && slot <= b.size == c.branch && b.Buffers(c)
    requires |b.Record().keys| == c.branch && |b.Record().childs| == c.branch + 1
    modifies b`keys, b`childs, b`size
    ensures fresh(newBranch) && newBranch.level > 0 && b.Buffers(c) && newBranch.Buffers(c)
    ensures newKey == Inserted(old(b.Record()).keys, slot, key)[(c.branch + 1) / 2]
    ensures b.Record() == LowerHalf(old(b.Record()), c, slot, key, child)
    ensures newBranch.Record() == UpperHalf(old(b.Record()), c, slot, key, child, lo)
    ensures b.childs[..(c.branch + 1) / 2 + 1]
      == Inserted(old(b.Record()).childs, slot + 1, child)[..(c.branch + 1) / 2 + 1]
    ensures newBranch.childs[..c.branch + 1 - (c.branch + 1) / 2]
      == Inserted(old(b.Record()).childs, slot + 1, child)[(c.branch + 1) / 2 + 1..]
  {
    hide Inserted, Prefix, LowerHalf, UpperHalf;
    ghost var r := b.Record();
    BranchRecord(b, c);
    assert b.keys[..b.size] == b.keys && b.childs[..b.size + 1] == b.childs;
    newBranch := new Node.Branch(b.level, c.branch);
    newKey := b.BranchInsertAndSplit(slot, key, child, newBranch);
    newBranch.lo, newBranch.hi := lo, b.hi;
    HalfRecords(b, newBranch, c, r, slot, key, child, lo);
  }

  lemma SnapNew(s: Store, nodes: set<Node>, a: Node, x: Node)
    requires a in nodes && x !in nodes && s.Keys == nodes
    requires forall n :: n in nodes && n != a ==> n.Record() == s[n]
    ensures Snap(nodes + {x}) == s[a := a.Record()][x := x.Record()]
  {
  }

  lemma DistinctParts(cs: seq<Node>, m: nat)
    requires Distinct(cs) && m <= |cs|
    ensures Distinct(cs[..m]) && Distinct(cs[m..])
  {
  }

  // the same on the snapshot
  method SplitInto(ghost nodes: set<Node>, c: Capacity, b: Node, slot: nat, key: int, child: Node, ghost lo: nat)
    returns (newKey: int, newBranch: Node)
    requires b in nodes && Sized(nodes, c) && b.level > 0 && slot <= b.size == c.branch && b.Buffers(c)
      && FullAt(Snap(nodes), c, b, slot)
    modifies b`keys, b`childs, b`size
    ensures fresh(newBranch) && Sized(nodes + {newBranch}, c) && newBranch.level > 0 && b.Buffers(c)
      && newBranch.Buffers(c)
    ensures var r := old(Snap(nodes))[b]; var m := (c.branch + 1) / 2;
      && newKey == Inserted(r.keys, slot, key)[m]
      && b.childs[..m + 1] == Inserted(r.childs, slot + 1, child)[..m + 1]
      && newBranch.childs[..c.branch + 1 - m] == Inserted(r.childs, slot + 1, child)[m + 1..]
      && Snap(nodes + {newBranch}) == old(Snap(nodes))[b := LowerHalf(r, c, slot, key, child)][newBranch :=
        UpperHalf(r, c, slot, key, child, lo)]
  {
    hide Inserted, Prefix, LowerHalf, UpperHalf;
    ghost var s := Snap(nodes);
    SnapAt(nodes, b);
    newKey, newBranch := SplitWrite(c, b, slot, key, child, lo);
    SnapNew(s, nodes, b, newBranch);
  }

  method SplitLinked(ghost nodes: set<Node>, c: Capacity, b: Node, slot: nat, key: int, child: Node, ghost lo: nat,
      ghost cs: seq<Node>)
    returns (newKey: int, newBranch: Node, ghost base: Store, ghost mid: Store)
    requires b in nodes && b.Buffers(c) && Sized(nodes, c) && b.level > 0 && slot <= b.size == c.branch
    requires FullAt(Snap(nodes), c, b, slot) && cs == Inserted(Snap(nodes)[b].childs, slot + 1, child)
    requires Distinct(cs) && forall k :: 0 <= k < |cs| ==> cs[k] in nodes
    modifies b`keys, b`childs, b`size
    modifies nodes`parent
    modifies nodes`slot
    ensures fresh(newBranch) && Sized(nodes + {newBranch}, c)
    ensures newKey == Inserted(old(Snap(nodes))[b].keys, slot, key)[(c.branch + 1) / 2]
    ensures base == old(Snap(nodes))[b := LowerHalf(old(Snap(nodes))[b], c, slot, key, child)]
                                    [newBranch := UpperHalf(old(Snap(nodes))[b], c, slot, key, child, lo)]
    ensures HalvesLinked(base, mid, Snap(nodes + {newBranch}), c, b, newBranch, slot, cs)
  {
    DistinctParts(cs, (c.branch + 1) / 2 + 1);
    hide Inserted, Relinked, Snap, Distinct, Prefix, LowerHalf, UpperHalf, HalvesLinked, Sized;
    newKey, newBranch := SplitInto(nodes, c, b, slot, key, child, lo);
    base := Snap(nodes + {newBranch});
    mid := LinkHalves(nodes + {newBranch}, c, b, newBranch, slot, cs);
  }

  // Branch::InsertAndSplit; the cut child gets its own span back first
  method SplitBranch(ghost nodes: set<Node>, c: Capacity, b: Node, slot: nat, key: int, ghost cut: Node, child: Node,
      ghost cs: seq<Node>)
    returns (newKey: int, newBranch: Node, ghost base: Store, ghost mid: Store)
    requires b in nodes && child in nodes && cut in nodes && b != cut && Sized(nodes, c) && b.level > 0
      && slot <= b.size == c.branch
    requires FullAt(Snap(nodes), c, b, slot) && cs == Inserted(Snap(nodes)[b].childs, slot + 1, child)
    requires Distinct(cs) && forall k :: 0 <= k < |cs| ==> cs[k] in nodes
    modifies b`keys, b`childs, b`size, cut`hi
    modifies nodes`parent
    modifies nodes`slot
    ensures fresh(newBranch) && Sized(nodes + {newBranch}, c)
    ensures newKey == Inserted(old(Snap(nodes))[b].keys, slot, key)[(c.branch + 1) / 2]
    ensures (c.branch + 1) / 2 + 1 < |cs|
    ensures var s := old(Snap(nodes));
      base == s[cut := s[cut].(hi := s[child].lo)][b := LowerHalf(s[b], c, slot, key, child)]
               [newBranch := UpperHalf(s[b], c, slot, key, child, s[cs[(c.branch + 1) / 2 + 1]].lo)]
    ensures HalvesLinked(base, mid, Snap(nodes + {newBranch}), c, b, newBranch, slot, cs)
  {
    hide *;
    ghost var m := (c.branch + 1) / 2;
    BufferAt(nodes, c, b);
    FullParts(Snap(nodes), c, b, slot);
    SnapAt(nodes, child);
    SnapAt(nodes, cs[m + 1]);
    SetHi(nodes, c, cut, child.lo);
    BufferAt(nodes, c, b);
    FullParts(Snap(nodes), c, b, slot);
    newKey, newBranch, base, mid := SplitLinked(nodes, c, b, slot, key, child, old(cs[m + 1].lo), cs);
  }

  lemma BufferAt(nodes: set<Node>, c: Capacity, b: Node)
    requires Sized(nodes, c) && b in nodes
    ensures b.Buffers(c)
  {
  }

  lemma FullParts(s: Store, c: Capacity, b: Node, slot: nat)
    ensures FullAt(s, c, b, slot) <==>
      b in s && |s[b].keys| == c.branch && |s[b].childs| == c.branch + 1 && slot <= c.branch && c.branch >= 2
  {
  }

  // the links of the children of both halves have been written
  ghost predicate HalvesLinked(base: Store, mid: Store, t: Store, c: Capacity, b: Node, newBranch: Node, slot: nat,
      cs: seq<Node>)
  {
    var m := (c.branch + 1) / 2;
    && |cs| == c.branch + 2 && c.branch >= 2
    && Relinked(base, mid, b, cs[..m + 1], if slot < m then slot + 1 else m + 1, m + 1)
    && Relinked(mid, t, newBranch, cs[m + 1..], 0, |cs| - m - 1)
  }

  method LinkHalves(ghost nodes: set<Node>, c: Capacity, b: Node, newBranch: Node, slot: nat, ghost cs: seq<Node>)
      returns (ghost mid: Store)
    requires b in nodes && newBranch in nodes && Sized(nodes, c) && b.Buffers(c) && newBranch.Buffers(c) && b.level > 0
      && newBranch.level > 0
    requires |cs| == c.branch + 2 && c.branch >= 2 && forall k :: 0 <= k < |cs| ==> cs[k] in nodes
    requires Distinct(cs[..(c.branch + 1) / 2 + 1]) && Distinct(cs[(c.branch + 1) / 2 + 1..])
    requires b.childs[..(c.branch + 1) / 2 + 1] == cs[..(c.branch + 1) / 2 + 1]
    requires newBranch.childs[..c.branch + 1 - (c.branch + 1) / 2] == cs[(c.branch + 1) / 2 + 1..]
    modifies nodes`parent
    modifies nodes`slot
    ensures Sized(nodes, c) && HalvesLinked(old(Snap(nodes)), mid, Snap(nodes), c, b, newBranch, slot, cs)
  {
    hide Relinked, Snap, Distinct;
    var newSize := (c.branch + 1) / 2;
    if slot < newSize {
      LinkChildren(nodes, c, b, slot + 1, newSize + 1, cs[..newSize + 1]);
    } else {
      RelinkedNone(Snap(nodes), b, cs[..newSize + 1], newSize + 1);
    }
    mid := Snap(nodes);
    LinkChildren(nodes, c, newBranch, 0, c.branch + 1 - newSize, cs[newSize + 1..]);
  }

  // the new root above two nodes; the old root gets its own span back
  ghost predicate RootAbove(s: Store, t: Store, r: Node, x: Node, top: Node, key: int, hi: nat)
  {
    && r in s && x in s && r != x && top !in s
    && t == s[r := s[r].(parent := top, slot := 0, hi := s[x].lo)][x := s[x].(parent := top, slot := 1)]
             [top := Rec(s[r].level + 1, null, 0, null, null, [], [key], [r, x], 0, hi)]
  }

  // the constructor Branch(level, key, first, second), with the ghost spans
  method NewRoot(ghost nodes: set<Node>, c: Capacity, r: Node, x: Node, key: int, ghost hi: nat) returns (top: Node)
    requires r in nodes && x in nodes && r != x && Sized(nodes, c) && c.branch >= 1
    modifies r`parent, r`slot, r`hi, x`parent, x`slot
    ensures fresh(top) && Sized(nodes + {top}, c)
    ensures RootAbove(old(Snap(nodes)), Snap(nodes + {top}), r, x, top, key, hi)
  {
    hide *;
    ghost var s := Snap(nodes);
    SnapAt(nodes, r);
    SnapAt(nodes, x);
    top := new Node.Above(r.level + 1, c.branch, key, r, x);
    top.lo, top.hi := 0, hi;
    AboveRecord(top, c);
    Hang(nodes, c, r, top, 0);
    Hang(nodes, c, x, top, 1);
    SetHi(nodes, c, r, x.lo);
    SizedMore(nodes, top, c);
    SnapMore(nodes, top);
    FoldAbove(s, Snap(nodes + {top}), r, x, top, key, hi);
  }

  method Hang(ghost nodes: set<Node>, ghost c: Capacity, n: Node, p: Node?, slot: nat)
    requires n in nodes && Sized(nodes, c)
    modifies n`parent, n`slot
    ensures Sized(nodes, c) && Snap(nodes) == old(Snap(nodes))[n := old(Snap(nodes))[n].(parent := p, slot := slot)]
  {
    ghost var s := Snap(nodes);
    AllBuffers(nodes, c);
    n.SetParent(p, slot);
    SnapOne(s, nodes, n);
  }

  lemma FoldAbove(s: Store, t: Store, r: Node, x: Node, top: Node, key: int, hi: nat)
    requires r in s && x in s && r != x && top !in s
    requires var s1 := s[r := s[r].(parent := top, slot := 0)]; var s2 := s1[x := s1[x].(parent := top, slot := 1)];
      t == s2[r := s2[r].(hi := s[x].lo)][top := Rec(s[r].level + 1, null, 0, null, null, [], [key], [r, x], 0, hi)]
    ensures RootAbove(s, t, r, x, top, key, hi)
  {
  }

  lemma AboveRecord(top: Node, c: Capacity)
    requires top.level > 0 && top.size == 1 && |top.keys| == c.branch && |top.childs| == c.branch + 1 && top.items == []
      && c.branch >= 1
    ensures top.Buffers(c)
    ensures top.Record() == Rec(top.level, top.parent, top.slot, top.next, top.prev, [], top.keys[..1], top.childs[..2],
      top.lo, top.hi)
  {
  }
}
