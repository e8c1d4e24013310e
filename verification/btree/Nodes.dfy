// Leaves and branches as heap objects, and the snapshots of them that the proofs are about.
module BTreeNodes {
  import opened BTreeArrays

  datatype Item = Item(key: int, data: int)

  ghost function ItemKeys(q: seq<Item>): (ks: seq<int>)
    ensures |ks| == |q| && forall i :: 0 <= i < |q| ==> ks[i] == q[i].key
  {
    seq(|q|, i requires 0 <= i < |q| => q[i].key)
  }

  datatype Capacity = Capacity(leaf: nat, branch: nat)

  // what a node holds: its links, the live parts of its buffers, and the ghost span lo..hi of the
  // positions of the leaves below it
  datatype Rec = Rec(level: nat, parent: Node?, slot: nat, next: Node?, prev: Node?,
                     items: seq<Item>, keys: seq<int>, childs: seq<Node>, lo: nat, hi: nat)

  type Store = map<Node, Rec>

  ghost function Snap(nodes: set<Node>): (s: Store)
    reads nodes
    ensures s.Keys == nodes
  {
    map n | n in nodes :: n.Record()
  }

  ghost predicate Sized(nodes: set<Node>, c: Capacity)
    reads nodes`items, nodes`keys, nodes`childs, nodes`size
  {
    forall n {:trigger n.Buffers(c)} :: n in nodes ==> n.Buffers(c)
  }

  ghost function Put(s: Store, n: Node, q: seq<Item>): (t: Store)
    ensures t.Keys == s.Keys
  {
    if n in s then s[n := s[n].(items := q)] else s
  }

  // ---------- separators above a node

  datatype Place = NoPlace | Place(branch: Node, index: nat)

  // where the separator behind child `slot` of b is kept: in b itself, or above it
  ghost function Owner(s: Store, top: nat, b: Node, slot: nat): Place
    decreases if b in s && s[b].level <= top then top - s[b].level else 0
  {
    if b !in s then NoPlace
    else if slot < |s[b].keys| then Place(b, slot)
    else
      var p := s[b].parent;
      if p == null || p !in s || s[p].level <= s[b].level || s[p].level > top then NoPlace
      else Owner(s, top, p, s[b].slot)
  }

  ghost function SetKey(s: Store, o: Place, key: int): (t: Store)
    ensures t.Keys == s.Keys
  {
    if o.Place? && o.branch in s && o.index < |s[o.branch].keys| then
      s[o.branch := s[o.branch].(keys := s[o.branch].keys[o.index := key])]
    else s
  }

  // parents lie one level up, and no level exceeds top
  ghost predicate Climbable(s: Store, top: nat)
  {
    forall n {:trigger s[n]} :: n in s ==>
      s[n].level <= top && (s[n].parent != null ==> s[n].parent in s && s[s[n].parent].level == s[n].level + 1)
  }

  // ---------- children hung below a branch

  // the nodes cs[i..j) now hang below b at their own indices; nothing else changed
  ghost predicate Relinked(s: Store, t: Store, b: Node, cs: seq<Node>, i: nat, j: nat)
    requires i <= j <= |cs|
  {
    && t.Keys == s.Keys
    && (forall k :: i <= k < j ==> cs[k] in s && t[cs[k]] == s[cs[k]].(parent := b, slot := k))
    && (forall n :: n in s && n !in cs[i..j] ==> t[n] == s[n])
  }

  // one step of the climb to the separator behind child `slot` of b
  lemma OwnerStep(s: Store, top: nat, b: Node, slot: nat)
    requires b in s
    ensures slot < |s[b].keys| ==> Owner(s, top, b, slot) == Place(b, slot)
    ensures slot >= |s[b].keys| && s[b].parent == null ==> Owner(s, top, b, slot) == NoPlace
    ensures var p := s[b].parent;
      slot >= |s[b].keys| && p != null && p in s && s[b].level < s[p].level <= top ==>
        Owner(s, top, b, slot) == Owner(s, top, p, s[b].slot)
    ensures forall key :: SetKey(s, NoPlace, key) == s
  {
  }

  lemma ClimbedHere(s: Store, top: nat, b: Node)
    requires Climbable(s, top) && b in s
    ensures s[b].level <= top
    ensures s[b].parent != null ==>
      s[b].parent in s && s[s[b].parent].level == s[b].level + 1 && s[b].level + 1 <= top
  {
  }

  // the snapshot after a separator was set in b
  lemma KeySet(s: Store, nodes: set<Node>, c: Capacity, b: Node, slot: nat, key: int)
    requires b in nodes && s.Keys == nodes && slot < b.size <= |b.keys| && |s[b].keys| == b.size && b.level > 0
    requires forall n :: n in nodes && n != b ==> n.Record() == s[n] && n.Buffers(c)
    requires b.Record() == s[b].(keys := s[b].keys[slot := key]) && b.Buffers(c)
    ensures Snap(nodes) == SetKey(s, Place(b, slot), key) && Sized(nodes, c)
  {
    hide Node.Record, Node.Buffers;
    SnapOne(s, nodes, b);
  }

  lemma RelinkedNone(s: Store, b: Node, cs: seq<Node>, i: nat)
    requires i <= |cs|
    ensures Relinked(s, s, b, cs, i, i)
  {
  }

  lemma RelinkedNext(s: Store, t: Store, u: Store, b: Node, cs: seq<Node>, i: nat, j: nat)
    requires i <= j < |cs| && Relinked(s, t, b, cs, i, j)
    requires forall k :: i <= k < j ==> cs[k] != cs[j]
    requires cs[j] in s && u == t[cs[j] := t[cs[j]].(parent := b, slot := j)]
    ensures Relinked(s, u, b, cs, i, j + 1)
  {
    assert cs[i..j + 1] == cs[i..j] + [cs[j]];
    assert cs[j] !in cs[i..j];
    assert t[cs[j]] == s[cs[j]];
  }

  // ---------- snapshots after a change of a few nodes

  lemma SnapOne(s: Store, nodes: set<Node>, a: Node)
    requires a in nodes && s.Keys == nodes
    requires forall n :: n in nodes && n != a ==> n.Record() == s[n]
    ensures Snap(nodes) == s[a := a.Record()]
  {
  }

  lemma SnapTwo(s: Store, nodes: set<Node>, a: Node, b: Node)
    requires a in nodes && b in nodes && s.Keys == nodes
    requires forall n :: n in nodes && n != a && n != b ==> n.Record() == s[n]
    ensures Snap(nodes) == s[a := a.Record()][b := b.Record()]
  {
  }

  lemma SnapThree(s: Store, nodes: set<Node>, a: Node, b: Node, c: Node)
    requires a in nodes && b in nodes && c in nodes && s.Keys == nodes
    requires forall n :: n in nodes && n != a && n != b && n != c ==> n.Record() == s[n]
    ensures Snap(nodes) == s[a := a.Record()][b := b.Record()][c := c.Record()]
  {
  }

  class Node {
    const level: nat
    var parent: Node?
    var slot: nat
    var next: Node?
    var prev: Node?
    var size: nat
    var items: seq<Item>   // ItemType items[LEAF_CAPACITY], in a leaf
    var keys: seq<int>     // KeyType keys[BRANCH_CAPACITY], in a branch
    var childs: seq<Node>  // Node * childs[BRANCH_CAPACITY + 1], in a branch
    ghost var lo: nat
    ghost var hi: nat

    ghost function Record(): Rec
      reads this
    {
      Rec(level, parent, slot, next, prev, Prefix(items, size), Prefix(keys, size), Prefix(childs, size + 1), lo, hi)
    }

    ghost predicate Buffers(c: Capacity)
      reads `items, `keys, `childs, `size
    {
      if level == 0 then |items| == c.leaf && keys == [] && childs == [] && size <= c.leaf
      else items == [] && |keys| == c.branch && |childs| == c.branch + 1 && size <= c.branch
    }

    constructor Leaf(leafCapacity: nat)
      ensures Record() == Rec(0, null, 0, null, null, [], [], [], lo, hi) && parent == null && slot == 0
      ensures level == 0 && size == 0 && |items| == leafCapacity && keys == [] && childs == []
      ensures next == null && prev == null
    {
      level, parent, slot, next, prev, size := 0, null, 0, null, null, 0;
      items := seq(leafCapacity, _ => Item(0, 0));
      keys, childs := [], [];
    }

    constructor Branch(level: nat, branchCapacity: nat)
      requires level > 0
      ensures this.level == level && size == 0 && |keys| == branchCapacity && |childs| == branchCapacity + 1
        && items == []
      ensures parent == null && slot == 0 && next == null && prev == null
    {
      this.level, parent, slot, next, prev, size := level, null, 0, null, null, 0;
      items := [];
      keys := seq(branchCapacity, _ => 0);
      new;
      childs := seq(branchCapacity + 1, _ => this);
    }

    // the constructor with a key and two children; the links of the children are the caller's
    constructor Above(level: nat, branchCapacity: nat, key: int, first: Node, second: Node)
      requires level > 0 && branchCapacity >= 1
      ensures this.level == level && size == 1 && |keys| == branchCapacity && |childs| == branchCapacity + 1
        && items == []
      ensures parent == null && slot == 0 && next == null && prev == null
      ensures keys[..1] == [key] && childs[..2] == [first, second]
    {
      this.level, parent, slot, next, prev, size := level, null, 0, null, null, 1;
      items := [];
      keys := [key] + seq(branchCapacity - 1, _ => 0);
      childs := [first, second] + seq(branchCapacity - 1, _ => first);
    }

    method SetParent(parent: Node?, slot: nat)
      modifies this`parent, this`slot
      ensures this.parent == parent && this.slot == slot
    {
      this.parent := parent;
      this.slot := slot;
    }

    method UpdateChildLink(ghost nodes: set<Node>, slot: nat)
      requires slot < |childs| && childs[slot] in nodes
      modifies {childs[slot]}`parent, {childs[slot]}`slot
      ensures childs[slot] in old(Snap(nodes))
      ensures Snap(nodes) == old(Snap(nodes))[childs[slot] :=
        old(Snap(nodes))[childs[slot]].(parent := this, slot := slot)]
    {
      ghost var s := Snap(nodes);
      childs[slot].SetParent(this, slot);
      SnapOne(s, nodes, childs[slot]);
    }

    // the range here is begin <= i < end
    method UpdateChildrenLinks(ghost nodes: set<Node>, begin: nat, end: nat)
      requires begin <= end <= |childs|
      requires forall k :: begin <= k < end ==> childs[k] in nodes
      requires forall k, l :: begin <= k < l < end ==> childs[k] != childs[l]
      modifies nodes`parent
      modifies nodes`slot
      ensures Relinked(old(Snap(nodes)), Snap(nodes), this, childs, begin, end)
    {
      hide Snap, Relinked, Record;
      ghost var s := Snap(nodes);
      RelinkedNone(s, this, childs, begin);
      for i := begin to end
        invariant Relinked(s, Snap(nodes), this, childs, begin, i)
      {
        ghost var t := Snap(nodes);
        UpdateChildLink(nodes, i);
        RelinkedNext(s, t, Snap(nodes), this, childs, begin, i);
      }
    }

    lemma BufferedHere(nodes: set<Node>, c: Capacity)
      requires this in nodes && Sized(nodes, c)
      ensures Snap(nodes).Keys == nodes && Buffers(c)
      ensures level > 0 ==> items == [] && |keys| == c.branch && |childs| == c.branch + 1 && size <= c.branch
      ensures var r := Snap(nodes)[this];
        && r == Record() && r.level == level && r.parent == parent && r.slot == slot
        && r == Rec(level, parent, slot, next, prev, Prefix(items, size), Prefix(keys, size), Prefix(childs, size + 1),
                    lo, hi)
        && (level > 0 ==> |r.keys| == size)
    {
      assert Buffers(c);
    }

    lemma BufferedAll(nodes: set<Node>, c: Capacity)
      requires Sized(nodes, c)
      ensures forall n :: n in nodes ==> Snap(nodes)[n] == n.Record() && n.Buffers(c)
    {
      hide Record, Buffers;
    }

    // the record of a branch when one of its keys has been set
    lemma KeyRecord(r: Rec, was: seq<int>, at: nat, key: int, c: Capacity)
      requires level > 0 && at < size <= |was| == c.branch && keys == was[at := key] && items == []
      requires |childs| == c.branch + 1
      requires r == Rec(level, parent, slot, next, prev, Prefix(items, size), Prefix(was, size),
                        Prefix(childs, size + 1), lo, hi)
      ensures |r.keys| == size && Record() == r.(keys := r.keys[at := key]) && Buffers(c)
    {
      assert Prefix(keys, size) == Prefix(was, size)[at := key];
    }

    method UpdateKey(ghost nodes: set<Node>, ghost top: nat, ghost c: Capacity, slot: nat, key: int)
      requires this in nodes && level > 0 && Sized(nodes, c) && Climbable(Snap(nodes), top)
      modifies nodes`keys
      ensures Sized(nodes, c)
      ensures Snap(nodes) == SetKey(old(Snap(nodes)), Owner(old(Snap(nodes)), top, this, slot), key)
      decreases top - level
    {
      hide *;
      ghost var s := Snap(nodes);
      BufferedAll(nodes, c);
      BufferedHere(nodes, c);
      OwnerStep(s, top, this, slot);
      ClimbedHere(s, top, this);
      if slot < size {
        ghost var was := keys;
        keys := keys[slot := key];
        KeyRecord(s[this], was, slot, key, c);
        KeySet(s, nodes, c, this, slot, key);
      } else if parent != null {
        parent.BufferedHere(nodes, c);
        parent.UpdateKey(nodes, top, c, this.slot, key);
      }
    }

    // ---------- leaves

    method LeafFindSlot(key: int) returns (slot: nat, found: bool)
      requires size <= |items|
      requires forall i, j :: 0 <= i <= j < size ==> items[i].key <= items[j].key
      ensures Hit(ItemKeys(items[..size]), key, slot, found)
      ensures (slot, found) == Probe(ItemKeys(items[..size]), key, 0, size)
    {
      slot, found := BinarySearch(key, items, size, (x: Item) => x.key);
      assert KeysOf(items, size, (x: Item) => x.key) == ItemKeys(items[..size]);
    }

    method LeafInsert(slot: nat, key: int)
      requires slot <= size < |items|
      modifies this`items, this`size
      ensures size == old(size) + 1 && |items| == old(|items|)
      ensures items[..size] == Inserted(old(items[..size]), slot, Item(key, 0))
    {
      items := ArrayInsert(items, slot, size, 1);
      items := items[slot := Item(key, 0)];
      size := size + 1;
    }

    // the items of InsertAndSplit
    method SplitItems(slot: nat, key: int, newLeaf: Node, newSize: nat) returns (at: Node, atSlot: nat)
      requires this != newLeaf && slot <= size == |items| == |newLeaf.items| && newSize == (size + 1) / 2 && size >= 2
      modifies this`items, this`size, newLeaf`items, newLeaf`size
      ensures size == newSize && newLeaf.size == old(size) + 1 - newSize && |items| == |newLeaf.items| == old(|items|)
      ensures items[..size] == Inserted(old(items), slot, Item(key, 0))[..size]
      ensures newLeaf.items[..newLeaf.size] == Inserted(old(items), slot, Item(key, 0))[size..]
      ensures (at == this || at == newLeaf) && atSlot < at.size && at.items[atSlot] == Item(key, 0)
    {
      hide Inserted, ArrayMove, ArrayInsert;
      assert items[..size] == items;
      if slot < newSize {
        InsertedTail(items, size, slot, Item(key, 0), newSize, newLeaf.items);
        InsertedHead(items, size, slot, Item(key, 0), newSize);
        newLeaf.items := ArrayMove(newLeaf.items, 0, items, newSize - 1, size);
        items := ArrayInsert(items, slot, newSize - 1, 1);
        items := items[slot := Item(key, 0)];
        at, atSlot := this, slot;
      } else {
        InsertedSplitTail(items, size, slot, Item(key, 0), newSize, newLeaf.items);
        InsertedKeep(items, slot, Item(key, 0), newSize);
        newLeaf.items := ArrayMove(newLeaf.items, 0, items, newSize, slot);
        newLeaf.items := ArrayMove(newLeaf.items, slot - newSize + 1, items, slot, size);
        newLeaf.items := newLeaf.items[slot - newSize := Item(key, 0)];
        at, atSlot := newLeaf, slot - newSize;
      }
      newLeaf.size := size + 1 - newSize;
      size := newSize;
    }

    method LeafInsertAndSplit(slot: nat, key: int) returns (newKey: int, newLeaf: Node, at: Node, atSlot: nat)
      requires level == 0 && slot <= size == |items| && size >= 2 && keys == [] && childs == []
      requires next != this
      modifies this`items, this`size, this`next, (if next == null then {} else {next})`prev
      ensures fresh(newLeaf) && newLeaf.level == 0 && newLeaf.parent == null && newLeaf.slot == 0
      ensures newLeaf.keys == [] && newLeaf.childs == [] && |newLeaf.items| == |items| && |items| == old(|items|)
      ensures newLeaf.next == old(next) && newLeaf.prev == this && next == newLeaf
      ensures old(next) != null ==> old(next).prev == newLeaf
      ensures size == old(size + 1) / 2 && newLeaf.size == old(size) + 1 - size
      ensures items[..size] == Inserted(old(items), slot, Item(key, 0))[..size]
      ensures newLeaf.items[..newLeaf.size] == Inserted(old(items), slot, Item(key, 0))[size..]
      ensures newKey == items[size - 1].key
      ensures (at == this || at == newLeaf) && atSlot < at.size && at.items[atSlot] == Item(key, 0)
    {
      hide Inserted, Record;
      newLeaf := new Node.Leaf(|items|);
      newLeaf.parent := null;
      newLeaf.slot := 0;
      newLeaf.next := next;
      newLeaf.prev := this;
      if next != null {
        next.prev := newLeaf;
      }
      next := newLeaf;
      at, atSlot := SplitItems(slot, key, newLeaf, (size + 1) / 2);
      newKey := items[size - 1].key;
    }

    // m items stay, the new one among them; the others go to the right leaf
    method TakeItems(slot: nat, x: Item, rightLeaf: Node, m: nat)
      requires this != rightLeaf && slot < m <= size <= |items| && rightLeaf.size + (size + 1 - m) <= |rightLeaf.items|
      modifies this`items, rightLeaf`items
      ensures |items| == old(|items|) && |rightLeaf.items| == old(|rightLeaf.items|)
      ensures items[..m] == Inserted(old(items[..size]), slot, x)[..m] && items[slot] == x
      ensures rightLeaf.items[..rightLeaf.size + (size + 1 - m)]
           == Inserted(old(items[..size]) + old(rightLeaf.items[..rightLeaf.size]), slot, x)[m..]
    {
      hide *;
      ShareRightLow(items, size, slot, x, rightLeaf.items, rightLeaf.size, m);
      InsertedHead(items, size, slot, x, m);
      rightLeaf.items := ArrayInsert(rightLeaf.items, 0, rightLeaf.size, size + 1 - m);
      rightLeaf.items := ArrayMove(rightLeaf.items, 0, items, m - 1, size);
      items := ArrayInsert(items, slot, m - 1, 1);
      items := items[slot := x];
    }

    // m items stay; the others go to the right leaf, the new one among them
    method TakeNewItem(slot: nat, x: Item, rightLeaf: Node, m: nat)
      requires this != rightLeaf && m <= slot <= size <= |items| && rightLeaf.size + (size + 1 - m) <= |rightLeaf.items|
      modifies rightLeaf`items
      ensures |rightLeaf.items| == old(|rightLeaf.items|)
      ensures items[..m] == Inserted(old(items[..size]), slot, x)[..m] && rightLeaf.items[slot - m] == x
      ensures rightLeaf.items[..rightLeaf.size + (size + 1 - m)]
           == Inserted(old(items[..size]) + old(rightLeaf.items[..rightLeaf.size]), slot, x)[m..]
    {
      hide *;
      ShareRightHigh(items, size, slot, x, rightLeaf.items, rightLeaf.size, m);
      InsertedKeep(items[..size], slot, x, m);
      assert items[..size][..m] == items[..m];
      rightLeaf.items := ArrayInsert(rightLeaf.items, 0, rightLeaf.size, size + 1 - m);
      rightLeaf.items := ArrayMove(rightLeaf.items, 0, items, m, slot);
      rightLeaf.items := ArrayMove(rightLeaf.items, slot - m + 1, items, slot, size);
      rightLeaf.items := rightLeaf.items[slot - m := x];
    }

    // the separator of this leaf is updated by the caller
    method InsertAndRearrangeWithRight(slot: nat, key: int, rightLeaf: Node) returns (at: Node, atSlot: nat)
      requires this != rightLeaf && slot <= size == |items| == |rightLeaf.items| && rightLeaf.size < |items|
        && size >= 2
      modifies this`items, this`size, rightLeaf`items, rightLeaf`size
      ensures |items| == old(|items|) && |rightLeaf.items| == |items|
      ensures var all := Inserted(old(items[..size]) + old(rightLeaf.items[..rightLeaf.size]), slot, Item(key, 0));
        var m := |all| / 2;
        && size == m && 0 < m <= |items| && rightLeaf.size == |all| - m && 0 < rightLeaf.size <= |items|
        && items[..size] == all[..m] && rightLeaf.items[..rightLeaf.size] == all[m..]
      ensures (at == this || at == rightLeaf) && atSlot < at.size && at.items[atSlot] == Item(key, 0)
    {
      hide *;
      var totalSize := size + rightLeaf.size + 1;
      var newSize := totalSize / 2;
      ShareLeft(items, size, slot, Item(key, 0), rightLeaf.items[..rightLeaf.size], newSize);
      if slot < newSize {
        TakeItems(slot, Item(key, 0), rightLeaf, newSize);
        at, atSlot := this, slot;
      } else {
        TakeNewItem(slot, Item(key, 0), rightLeaf, newSize);
        at, atSlot := rightLeaf, slot - newSize;
      }
      size := newSize;
      rightLeaf.size := totalSize - newSize;
    }

    // k items go to the left leaf, and the new item is among those that stay
    method GiveItems(slot: nat, x: Item, leftLeaf: Node, k: nat)
      requires this != leftLeaf && 0 < k <= slot <= size <= |items| && leftLeaf.size + k <= |leftLeaf.items|
      modifies this`items, leftLeaf`items
      ensures |items| == old(|items|) && |leftLeaf.items| == old(|leftLeaf.items|)
      ensures leftLeaf.items[..leftLeaf.size + k]
           == Inserted(old(leftLeaf.items[..leftLeaf.size]) + old(items[..size]), leftLeaf.size + slot,
               x)[..leftLeaf.size + k]
      ensures items[..size + 1 - k] == Inserted(old(items[..size]), slot, x)[k..] && items[slot - k] == x
    {
      hide *;
      TakeHigh(leftLeaf.items, leftLeaf.size, items, size, slot, x, k);
      GiveLeftHigh(items, size, slot, x, k);
      leftLeaf.items := ArrayMove(leftLeaf.items, leftLeaf.size, items, 0, k);
      items := ArrayDelete(items, 0, slot, k);
      items := ArrayDelete(items, slot - k + 1, size, k - 1);
      items := items[slot - k := x];
    }

    // k items go to the left leaf, the new one among them
    method GiveNewItem(slot: nat, x: Item, leftLeaf: Node, k: nat)
      requires this != leftLeaf && slot < k <= size <= |items| && leftLeaf.size + k <= |leftLeaf.items|
      modifies this`items, leftLeaf`items
      ensures |items| == old(|items|) && |leftLeaf.items| == old(|leftLeaf.items|)
      ensures leftLeaf.items[..leftLeaf.size + k]
           == Inserted(old(leftLeaf.items[..leftLeaf.size]) + old(items[..size]), leftLeaf.size + slot,
               x)[..leftLeaf.size + k]
      ensures items[..size + 1 - k] == Inserted(old(items[..size]), slot, x)[k..]
        && leftLeaf.items[leftLeaf.size + slot] == x
    {
      hide *;
      TakeLow(leftLeaf.items, leftLeaf.size, items, size, slot, x, k);
      GiveLeftLow(items, size, slot, x, k);
      leftLeaf.items := ArrayMove(leftLeaf.items, leftLeaf.size, items, 0, slot);
      leftLeaf.items := ArrayMove(leftLeaf.items, leftLeaf.size + slot + 1, items, slot, k - 1);
      items := ArrayDelete(items, 0, size, k - 1);
      leftLeaf.items := leftLeaf.items[leftLeaf.size + slot := x];
    }

    // the separator of the left leaf is updated by the caller
    method InsertAndRearrangeWithLeft(slot: nat, key: int, leftLeaf: Node) returns (at: Node, atSlot: nat)
      requires this != leftLeaf && slot <= size == |items| == |leftLeaf.items| && leftLeaf.size < |items| && size >= 2
      modifies this`items, this`size, leftLeaf`items, leftLeaf`size
      ensures |items| == old(|items|) && |leftLeaf.items| == |items|
      ensures var all := Inserted(old(leftLeaf.items[..leftLeaf.size]) + old(items[..size]), old(leftLeaf.size) + slot,
        Item(key, 0));
        var m := |all| - |all| / 2;
        && leftLeaf.size == m && 0 < m <= |items| && size == |all| - m && 0 < size <= |items|
        && leftLeaf.items[..leftLeaf.size] == all[..m] && items[..size] == all[m..]
      ensures (at == this || at == leftLeaf) && atSlot < at.size && at.items[atSlot] == Item(key, 0)
    {
      hide *;
      var totalSize := size + leftLeaf.size + 1;
      var newSize := totalSize / 2;
      var itemsToMove := size + 1 - newSize;
      InsertedRest(leftLeaf.items[..leftLeaf.size], items[..size], slot, Item(key, 0), itemsToMove);
      if slot >= itemsToMove {
        GiveItems(slot, Item(key, 0), leftLeaf, itemsToMove);
        at, atSlot := this, slot - itemsToMove;
      } else {
        GiveNewItem(slot, Item(key, 0), leftLeaf, itemsToMove);
        at, atSlot := leftLeaf, leftLeaf.size + slot;
      }
      size := newSize;
      leftLeaf.size := totalSize - newSize;
    }

    // the separators above are updated by the caller
    method LeafDelete(slot: nat)
      requires slot < size <= |items|
      modifies this`items, this`size
      ensures size == old(size) - 1 && |items| == old(|items|)
      ensures items == ArrayDelete(old(items)[slot := Item(0, 0)], slot, old(size), 1)
      ensures items[..size] == Removed(old(items[..size]), slot)
    {
      hide Removed, ArrayDelete;
      RemovedPrefix(items, size, slot, Item(0, 0));
      items := items[slot := Item(0, 0)];
      items := ArrayDelete(items, slot, size, 1);
      size := size - 1;
    }

    // takes all items of the right leaf
    method TakeAll(rightLeaf: Node)
      requires this != rightLeaf && rightLeaf.size <= |rightLeaf.items| && size + rightLeaf.size <= |items|
      modifies this`items, this`size, rightLeaf`size
      ensures |items| == old(|items|) && size == old(size + rightLeaf.size) && rightLeaf.size == 0
      ensures items[..size] == old(items[..size] + rightLeaf.items[..rightLeaf.size])
    {
      hide ArrayMove;
      AppendAll(items, size, rightLeaf.items, rightLeaf.size);
      items := ArrayMove(items, size, rightLeaf.items, 0, rightLeaf.size);
      size := size + rightLeaf.size;
      rightLeaf.size := 0;
    }

    // Moves the items from leftSize on to the right leaf. With asWritten the end index of the move is that
    // of line 609 of BTree.hpp, size - leftSize; otherwise it is the end of the items, as at every other call.
    method PushTo(rightLeaf: Node, leftSize: nat, asWritten: bool)
      requires this != rightLeaf && leftSize == (size + rightLeaf.size) / 2 < size <= |items|
      requires 0 < rightLeaf.size && rightLeaf.size + (size - leftSize) <= |rightLeaf.items|
      modifies this`size, rightLeaf`items, rightLeaf`size
      ensures size == leftSize && |rightLeaf.items| == old(|rightLeaf.items|)
      ensures rightLeaf.size == old(size + rightLeaf.size) - leftSize
      ensures items[..size] == old(items[..size] + rightLeaf.items[..rightLeaf.size])[..leftSize]
      ensures asWritten ==>
        rightLeaf.items[..rightLeaf.size] == old(rightLeaf.items[..size - leftSize] + rightLeaf.items[..rightLeaf.size])
      ensures !asWritten ==>
        rightLeaf.items[..rightLeaf.size] == old(items[..size] + rightLeaf.items[..rightLeaf.size])[leftSize..]
    {
      hide ArrayInsert, ArrayMove;
      var count := size - leftSize;
      PushFront(items, size, rightLeaf.items, rightLeaf.size, leftSize);
      InsertKeepsFront(rightLeaf.items, rightLeaf.size, count);
      rightLeaf.items := ArrayInsert(rightLeaf.items, 0, rightLeaf.size, count);
      WrittenMovesNothing(rightLeaf.items, rightLeaf.size, items, size, leftSize);
      rightLeaf.items := ArrayMove(rightLeaf.items, 0, items, leftSize, if asWritten then count else size);
      rightLeaf.size := rightLeaf.size + count;
      size := leftSize;
    }

    // takes the first count items of the right leaf
    method PullFrom(rightLeaf: Node, count: nat)
      requires this != rightLeaf && count <= rightLeaf.size <= |rightLeaf.items| && size + count <= |items|
      modifies this`items, this`size, rightLeaf`items, rightLeaf`size
      ensures |items| == old(|items|) && |rightLeaf.items| == old(|rightLeaf.items|)
      ensures size == old(size) + count && rightLeaf.size == old(rightLeaf.size) - count
      ensures items[..size] == old(items[..size] + rightLeaf.items[..rightLeaf.size])[..size]
      ensures rightLeaf.items[..rightLeaf.size] == old(items[..size] + rightLeaf.items[..rightLeaf.size])[size..]
    {
      hide ArrayDelete, ArrayMove;
      PullFront(items, size, rightLeaf.items, rightLeaf.size, count);
      items := ArrayMove(items, size, rightLeaf.items, 0, count);
      rightLeaf.items := ArrayDelete(rightLeaf.items, 0, rightLeaf.size, count);
      size := size + count;
      rightLeaf.size := rightLeaf.size - count;
    }

    // The items of both leaves are shared out anew, with this leaf on the left; rest is what the right leaf ends up
    // with.
    method EvenOut(rightLeaf: Node, asWritten: bool)
      requires this != rightLeaf && size <= |items| == |rightLeaf.items| && rightLeaf.size <= |items|
      requires 0 < rightLeaf.size && |items| < size + rightLeaf.size
      modifies this`items, this`size, rightLeaf`items, rightLeaf`size
      ensures |items| == |rightLeaf.items| == old(|items|)
      ensures size == old(size + rightLeaf.size) / 2 && rightLeaf.size == old(size + rightLeaf.size) - size
      ensures items[..size] == old(items[..size] + rightLeaf.items[..rightLeaf.size])[..size]
      ensures rightLeaf.items[..rightLeaf.size] ==
        if asWritten && size < old(size)
        then Prefix(old(rightLeaf.items), old(size) - size) + old(rightLeaf.items[..rightLeaf.size])
        else old(items[..size] + rightLeaf.items[..rightLeaf.size])[size..]
    {
      var leftSize := (size + rightLeaf.size) / 2;
      if leftSize < size {
        PushTo(rightLeaf, leftSize, asWritten);
      } else {
        PullFrom(rightLeaf, leftSize - size);
      }
    }

    // ---------- branches

    method BranchFindSlot(key: int) returns (slot: nat, found: bool)
      requires size <= |keys|
      requires forall i, j :: 0 <= i <= j < size ==> keys[i] <= keys[j]
      ensures Hit(keys[..size], key, slot, found)
      ensures (slot, found) == Probe(keys[..size], key, 0, size)
    {
      slot, found := BinarySearch(key, keys, size, (k: int) => k);
      assert KeysOf(keys, size, (k: int) => k) == keys[..size];
    }

    // puts key and child in; the links of the children from slot + 1 on are updated by the caller
    method BranchInsert(slot: nat, key: int, child: Node)
      requires slot <= size < |keys| && |childs| == |keys| + 1
      modifies this`keys, this`childs, this`size
      ensures size == old(size) + 1 && |keys| == old(|keys|) && |childs| == old(|childs|)
      ensures keys[..size] == Inserted(old(keys[..size]), slot, key)
      ensures childs[..size + 1] == Inserted(old(childs[..size + 1]), slot + 1, child)
    {
      hide ArrayInsert, Inserted;
      InsertedPrefix(keys, size, slot, key);
      InsertedPrefix(childs, size + 1, slot + 1, child);
      keys := ArrayInsert(keys, slot, size, 1);
      keys := keys[slot := key];
      childs := ArrayInsert(childs, slot + 1, size + 1, 1);
      childs := childs[slot + 1 := child];
      size := size + 1;
    }

    // The key part of InsertAndSplit: the upper keys go to newBranch, the middle one is promoted.
    method SplitKeys(slot: nat, key: int, newBranch: Node, newSize: nat) returns (newKey: int)
      requires this != newBranch && slot <= size == |keys| == |newBranch.keys| && newSize <= size
      modifies this`keys, newBranch`keys
      ensures |keys| == |newBranch.keys| == old(|keys|)
      ensures var ks := Inserted(old(keys), slot, key);
        newKey == ks[newSize] && keys[..newSize] == ks[..newSize]
            && newBranch.keys[..size - newSize] == ks[newSize + 1..]
    {
      hide ArrayInsert, ArrayMove, Inserted;
      if slot < newSize {
        SplitKeysLowTail(keys, slot, key, newSize, newBranch.keys);
        SplitKeysLowHead(keys, slot, key, newSize, 0);
        newKey := keys[newSize - 1];
        newBranch.keys := ArrayMove(newBranch.keys, 0, keys, newSize, size);
        keys := ArrayInsert(keys[newSize - 1 := 0], slot, newSize - 1, 1);
        keys := keys[slot := key];
      } else if slot > newSize {
        SplitKeysHigh(keys, slot, key, newSize, newBranch.keys, 0);
        newKey := keys[newSize];
        keys := keys[newSize := 0];
        newBranch.keys := ArrayMove(newBranch.keys, 0, keys, newSize + 1, slot);
        newBranch.keys := ArrayMove(newBranch.keys, slot - newSize, keys, slot, size);
        newBranch.keys := newBranch.keys[slot - newSize - 1 := key];
      } else {
        SplitKeysHere(keys, key, newSize, newBranch.keys);
        newKey := key;
        newBranch.keys := ArrayMove(newBranch.keys, 0, keys, newSize, size);
      }
    }

    // The child part of InsertAndSplit, without the links.
    method SplitChilds(slot: nat, node: Node, newBranch: Node, newSize: nat)
      requires this != newBranch && slot <= size && |childs| == |newBranch.childs| == size + 1 && newSize <= size
      modifies this`childs, newBranch`childs
      ensures |childs| == |newBranch.childs| == old(|childs|)
      ensures var cs := Inserted(old(childs), slot + 1, node);
        childs[..newSize + 1] == cs[..newSize + 1] && newBranch.childs[..size + 1 - newSize] == cs[newSize + 1..]
    {
      hide ArrayInsert, ArrayMove, Inserted;
      assert childs[..size + 1] == childs;
      if slot < newSize {
        InsertedTail(childs, size + 1, slot + 1, node, newSize + 1, newBranch.childs);
        InsertedHead(childs, size + 1, slot + 1, node, newSize + 1);
        newBranch.childs := ArrayMove(newBranch.childs, 0, childs, newSize, size + 1);
        childs := ArrayInsert(childs, slot + 1, newSize, 1);
        childs := childs[slot + 1 := node];
      } else {
        InsertedSplitTail(childs, size + 1, slot + 1, node, newSize + 1, newBranch.childs);
        InsertedKeep(childs, slot + 1, node, newSize + 1);
        newBranch.childs := ArrayMove(newBranch.childs, 0, childs, newSize + 1, slot + 1);
        newBranch.childs := ArrayMove(newBranch.childs, slot - newSize + 1, childs, slot + 1, size + 1);
        newBranch.childs := newBranch.childs[slot - newSize := node];
      }
    }

    // InsertAndSplit without the links
    method BranchInsertAndSplit(slot: nat, key: int, node: Node, newBranch: Node) returns (newKey: int)
      requires this != newBranch && slot <= size == |keys| == |newBranch.keys|
        && |childs| == |newBranch.childs| == size + 1
      modifies this`keys, this`childs, this`size, newBranch`keys, newBranch`childs, newBranch`size
      ensures |keys| == |newBranch.keys| == old(|keys|) && |childs| == |newBranch.childs| == old(|childs|)
      ensures size == old(size + 1) / 2 && newBranch.size == old(size) - size
      ensures newKey == Inserted(old(keys), slot, key)[size]
      ensures keys[..size] == Inserted(old(keys), slot, key)[..size]
      ensures newBranch.keys[..newBranch.size] == Inserted(old(keys), slot, key)[size + 1..]
      ensures childs[..size + 1] == Inserted(old(childs), slot + 1, node)[..size + 1]
      ensures newBranch.childs[..newBranch.size + 1] == Inserted(old(childs), slot + 1, node)[size + 1..]
    {
      hide Inserted;
      var newSize := (size + 1) / 2;
      newKey := SplitKeys(slot, key, newBranch, newSize);
      SplitChilds(slot, node, newBranch, newSize);
      newBranch.size := size - newSize;
      size := newSize;
    }

    // drops child `slot` and the key before it; links are the caller's
    method BranchDelete(slot: nat)
      requires 1 <= slot <= size <= |keys| && |childs| == |keys| + 1
      modifies this`keys, this`childs, this`size
      ensures size == old(size) - 1 && |keys| == old(|keys|) && |childs| == old(|childs|)
      ensures keys[..size] == Removed(old(keys[..size]), slot - 1)
      ensures childs[..size + 1] == Removed(old(childs[..size + 1]), slot)
    {
      hide ArrayDelete, Removed;
      RemovedPrefix(keys, size, slot - 1, keys[slot - 1]);
      RemovedPrefix(childs, size + 1, slot, childs[slot]);
      assert keys[slot - 1 := keys[slot - 1]] == keys && childs[slot := childs[slot]] == childs;
      keys := ArrayDelete(keys, slot - 1, size, 1);
      childs := ArrayDelete(childs, slot, size + 1, 1);
      size := size - 1;
    }

    method Shift(count: nat)
      requires count <= size <= |keys| && |childs| == |keys| + 1
      modifies this`keys, this`childs
      ensures keys == ArrayDelete(old(keys), 0, size, count) && childs == ArrayDelete(old(childs), 0, size + 1, count)
    {
      keys := ArrayDelete(keys, 0, size, count);
      childs := ArrayDelete(childs, 0, size + 1, count);
    }

    method Unshift(count: nat)
      requires size + count <= |keys| && |childs| == |keys| + 1
      modifies this`keys, this`childs
      ensures keys == ArrayInsert(old(keys), 0, size, count) && childs == ArrayInsert(old(childs), 0, size + 1, count)
    {
      keys := ArrayInsert(keys, 0, size, count);
      childs := ArrayInsert(childs, 0, size + 1, count);
    }

    method MoveItems(destIndex: nat, branch: Node, beginIndex: nat, endIndex: nat)
      requires beginIndex <= endIndex <= |branch.keys| && |branch.childs| == |branch.keys| + 1 && |childs| == |keys| + 1
      requires destIndex + (endIndex - beginIndex) <= |keys|
      modifies this`keys, this`childs
      ensures keys == ArrayMove(old(keys), destIndex, old(branch.keys), beginIndex, endIndex)
      ensures childs == ArrayMove(old(childs), destIndex, old(branch.childs), beginIndex, endIndex + 1)
    {
      keys := ArrayMove(keys, destIndex, branch.keys, beginIndex, endIndex);
      childs := ArrayMove(childs, destIndex, branch.childs, beginIndex, endIndex + 1);
    }

    // The three ways of RearrangeKeys, on a left branch, without the links of the moved children:
    // p is the parent and i the slot of the left branch.

    method TakeAllKeys(rightBranch: Node, p: Node, i: nat)
      requires this != rightBranch && this != p && p != rightBranch && i < |p.keys|
      requires |keys| == |rightBranch.keys| && |childs| == |rightBranch.childs| == |keys| + 1
        && size + 1 + rightBranch.size <= |keys|
      modifies this`keys, this`childs, this`size, rightBranch`size, p`keys
      ensures |keys| == old(|keys|) && |childs| == old(|childs|) && size == old(size + 1 + rightBranch.size)
        && rightBranch.size == 0
      ensures keys[..size] == old(keys[..size] + [p.keys[i]] + rightBranch.keys[..rightBranch.size])
      ensures childs[..size + 1] == old(childs[..size + 1] + rightBranch.childs[..rightBranch.size + 1])
      ensures p.keys == old(p.keys)[i := old(keys[size])]
    {
      hide ArrayMove;
      MergeKeys(keys, size, rightBranch.keys, rightBranch.size, p.keys[i]);
      AppendAll(childs, size + 1, rightBranch.childs, rightBranch.size + 1);
      keys, p.keys := keys[size := p.keys[i]], p.keys[i := keys[size]];
      MoveItems(size + 1, rightBranch, 0, rightBranch.size);
      size := size + 1 + rightBranch.size;
      rightBranch.size := 0;
    }

    method SwapKeys(k: nat, p: Node, i: nat)
      requires this != p && k < |keys| && i < |p.keys|
      modifies this`keys, p`keys
      ensures keys == old(keys)[k := old(p.keys[i])] && p.keys == old(p.keys)[i := old(keys[k])]
    {
      keys, p.keys := keys[k := p.keys[i]], p.keys[i := keys[k]];
    }

    method PushKeysTo(rightBranch: Node, p: Node, i: nat, leftSize: nat)
      requires this != rightBranch && this != p && p != rightBranch && i < |p.keys| && leftSize < size <= |keys|
      requires |keys| == |rightBranch.keys| && |childs| == |rightBranch.childs| == |keys| + 1
      requires rightBranch.size + (size - leftSize) <= |keys|
      modifies this`keys, this`size, rightBranch`keys, rightBranch`childs, rightBranch`size, p`keys
      ensures |keys| == |rightBranch.keys| == old(|keys|) && |rightBranch.childs| == old(|childs|)
      ensures size == leftSize && rightBranch.size == old(size + rightBranch.size) - leftSize
      ensures var ks := old(keys[..size] + [p.keys[i]] + rightBranch.keys[..rightBranch.size]);
        keys[..size] == ks[..size] && p.keys == old(p.keys)[i := ks[size]]
            && rightBranch.keys[..rightBranch.size] == ks[size + 1..]
      ensures var cs := old(childs[..size + 1] + rightBranch.childs[..rightBranch.size + 1]);
        childs[..size + 1] == cs[..size + 1] && rightBranch.childs[..rightBranch.size + 1] == cs[size + 1..]
    {
      hide *;
      var count := size - leftSize;
      ghost var junk := ArrayInsert(rightBranch.keys, 0, rightBranch.size, count)[count - 1];
      PushKeys(keys, size, rightBranch.keys, rightBranch.size, leftSize, p.keys[i], junk);
      PushFront(childs, size + 1, rightBranch.childs, rightBranch.size + 1, leftSize + 1);
      rightBranch.Unshift(count);
      rightBranch.SwapKeys(count - 1, p, i);
      SwapKeys(leftSize, p, i);
      rightBranch.MoveItems(0, this, leftSize + 1, size);
      rightBranch.size := rightBranch.size + count;
      size := leftSize;
    }

    // the separator comes down behind the keys of the left branch, and a key of the right branch goes up for it
    method RotateKeys(rightBranch: Node, p: Node, i: nat, count: nat)
      requires this != rightBranch && this != p && p != rightBranch && i < |p.keys| && size < |keys|
        && 0 < count <= |rightBranch.keys|
      modifies this`keys, rightBranch`keys, p`keys
      ensures keys == old(keys)[size := old(p.keys[i])]
      ensures rightBranch.keys == old(rightBranch.keys)[count - 1 := old(keys[size])]
      ensures p.keys == old(p.keys)[i := old(rightBranch.keys[count - 1])]
    {
      hide *;
      SwapKeys(size, p, i);
      rightBranch.SwapKeys(count - 1, p, i);
    }

    method PullKeysFrom(rightBranch: Node, p: Node, i: nat, count: nat)
      requires this != rightBranch && this != p && p != rightBranch && i < |p.keys|
        && 0 < count <= rightBranch.size <= |keys|
      requires |keys| == |rightBranch.keys| && |childs| == |rightBranch.childs| == |keys| + 1 && size + count <= |keys|
      modifies this`keys, this`childs, this`size, rightBranch`keys, rightBranch`childs, rightBranch`size, p`keys
      ensures |keys| == |rightBranch.keys| == old(|keys|) && |childs| == |rightBranch.childs| == old(|childs|)
      ensures size == old(size) + count && rightBranch.size == old(rightBranch.size) - count
      ensures var ks := old(keys[..size] + [p.keys[i]] + rightBranch.keys[..rightBranch.size]);
        keys[..size] == ks[..size] && p.keys == old(p.keys)[i := ks[size]]
            && rightBranch.keys[..rightBranch.size] == ks[size + 1..]
      ensures var cs := old(childs[..size + 1] + rightBranch.childs[..rightBranch.size + 1]);
        childs[..size + 1] == cs[..size + 1] && rightBranch.childs[..rightBranch.size + 1] == cs[size + 1..]
    {
      hide *;
      ghost var lk, rk, pk := keys, rightBranch.keys, p.keys[i];
      ghost var lc, rc := childs, rightBranch.childs;
      ghost var ls, rs := size, rightBranch.size;
      RotateKeys(rightBranch, p, i, count);
      MoveItems(size + 1, rightBranch, 0, count - 1);
      rightBranch.Shift(count);
      size := size + count;
      rightBranch.size := rightBranch.size - count;
      PullKeysLeft(lk, ls, rk, rs, count, pk, lk[ls]);
      PullKeysRight(lk, ls, rk, rs, count, pk, lk[ls]);
      PullFront(lc, ls + 1, rc, rs + 1, count);
    }

    // the keys of this branch and the right one with the separator between them, and their children
    ghost predicate Rows(rightBranch: Node, p: Node, i: nat, ks: seq<int>, cs: seq<Node>)
      reads this, rightBranch, p
    {
      && i < |p.keys| && size <= |keys| && size < |childs|
      && rightBranch.size <= |rightBranch.keys| && rightBranch.size < |rightBranch.childs|
      && ks == keys[..size] + [p.keys[i]] + rightBranch.keys[..rightBranch.size]
      && cs == childs[..size + 1] + rightBranch.childs[..rightBranch.size + 1]
    }

    // the keys of both branches are shared out anew, with this branch on the left; e is the ghost boundary between them
    method EvenKeys(rightBranch: Node, p: Node, i: nat, ghost ks: seq<int>, ghost cs: seq<Node>, ghost e: nat)
      requires this != rightBranch && this != p && p != rightBranch && i < |p.keys| && size <= |keys|
        && rightBranch.size <= |keys|
      requires |keys| == |rightBranch.keys| && |childs| == |rightBranch.childs| == |keys| + 1
      requires |keys| <= size + rightBranch.size && (size + rightBranch.size) / 2 != size && |keys| >= 2
      requires Rows(rightBranch, p, i, ks, cs)
      modifies this`keys, this`childs, this`size, this`hi, rightBranch`keys, rightBranch`childs, rightBranch`size,
        rightBranch`lo, p`keys
      ensures hi == e && rightBranch.lo == e
      ensures |keys| == |rightBranch.keys| == old(|keys|) && |childs| == |rightBranch.childs| == old(|childs|)
      ensures size == old(size + rightBranch.size) / 2 && rightBranch.size == old(size + rightBranch.size) - size
      ensures size <= |keys| && rightBranch.size <= |keys| && size < |ks| && size + 1 < |cs|
      ensures keys[..size] == ks[..size] && p.keys == old(p.keys)[i := ks[size]]
        && rightBranch.keys[..rightBranch.size] == ks[size + 1..]
      ensures childs[..size + 1] == cs[..size + 1] && rightBranch.childs[..rightBranch.size + 1] == cs[size + 1..]
    {
      var leftSize := (size + rightBranch.size) / 2;
      if leftSize < size {
        PushKeysTo(rightBranch, p, i, leftSize);
      } else {
        PullKeysFrom(rightBranch, p, i, leftSize - size);
      }
      hi, rightBranch.lo := e, e;
    }
  }
}
