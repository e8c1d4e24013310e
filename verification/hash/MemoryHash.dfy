// The in-memory table: buckets of slots with a list of overflows each, split one bucket at a time under a load limit.
module MemoryHash {
  import opened HashAddressing

  const TWO32: int := 0x1_0000_0000

  // a 32-bit integer is its own hash; the mask sees its two's complement bits
  function HashFunc(data: int): nat { data % TWO32 }

  // the values of a 32-bit integer keep apart, and those from zero on are their own hash
  lemma HashOfInt(data: int)
    requires -(TWO32 / 2) <= data < TWO32 / 2
    ensures HashFunc(data) == if data < 0 then data + TWO32 else data
  {
  }

  lemma ThirtyTwo()
    ensures Pow2(32) == TWO32
  {
    assert Pow2(8) == 256;
    PowersOfTwo(8, 8);
    PowersOfTwo(16, 16);
  }

  lemma Regrouped(t: int, p: nat, r: nat, h: nat)
    ensures t * (p * r) + h * p == (t * r + h) * p
  {
    assert t * (p * r) == (t * r) * p;
  }

  // Up to 32 levels the slot is what is left of the integer itself when multiples of the table's range are taken away.
  lemma SlotOfInt(data: int, level: nat) returns (high: int)
    requires level <= 32
    ensures data == high * Pow2(level) + HashLevel(HashFunc(data), level)
  {
    ThirtyTwo();
    var turns := data / TWO32;
    assert data == turns * TWO32 + HashFunc(data);
    hide *;
    PowersOfTwo(level, 32 - level);
    var h := HashParts(HashFunc(data), level);
    high := turns * Pow2(32 - level) + h;
    Regrouped(turns, Pow2(level), Pow2(32 - level), h);
  }

  function SlotFor(data: int, level: nat, splitPos: nat): nat { HashSlot(HashFunc(data), level, splitPos) }

  predicate Stays(data: int, level: nat, slot: nat) { HashLevel(HashFunc(data), level) == slot }

  // the items of q that have this slot at a level, or those that have not, in order
  ghost function Sifted(q: seq<int>, level: nat, slot: nat, stays: bool): seq<int>
  {
    if q == [] then []
    else
      var init, last := q[..|q| - 1], q[|q| - 1];
      Sifted(init, level, slot, stays) + if Stays(last, level, slot) == stays then [last] else []
  }

  lemma SiftedNext(q: seq<int>, n: nat, level: nat, slot: nat, stays: bool)
    requires n < |q|
    ensures Sifted(q[..n + 1], level, slot, stays)
         == Sifted(q[..n], level, slot, stays) + if Stays(q[n], level, slot) == stays then [q[n]] else []
    ensures Sifted(q[..0], level, slot, stays) == []
  {
    hide Stays;
    assert q[..n + 1][..n] == q[..n];
  }

  lemma SiftedWhole(q: seq<int>, level: nat, slot: nat, stays: bool)
    ensures Sifted(q[..|q|], level, slot, stays) == Sifted(q, level, slot, stays)
    ensures Sifted(q[..0], level, slot, stays) == []
  {
    assert q[..|q|] == q;
  }

  lemma {:induction false} SiftedAll(q: seq<int>, level: nat, slot: nat)
    ensures multiset(Sifted(q, level, slot, true)) + multiset(Sifted(q, level, slot, false)) == multiset(q)
    ensures |Sifted(q, level, slot, true)| + |Sifted(q, level, slot, false)| == |q|
  {
    hide *;
    if q == [] {
      SiftedNone(level, slot);
    } else {
      var n := |q| - 1;
      SiftedAll(q[..n], level, slot);
      SiftedNext(q, n, level, slot, true);
      SiftedNext(q, n, level, slot, false);
      assert q[..n + 1] == q;
      Pieces(q[..n], Sifted(q[..n], level, slot, true), Sifted(q[..n], level, slot, false), q[n]);
      assert q == q[..n] + [q[n]];
    }
  }

  lemma SiftedNone(level: nat, slot: nat)
    ensures Sifted([], level, slot, true) == [] && Sifted([], level, slot, false) == []
  {
  }

  lemma Pieces(p: seq<int>, yes: seq<int>, no: seq<int>, x: int)
    requires multiset(yes) + multiset(no) == multiset(p)
    ensures multiset(yes + [x]) + multiset(no + []) == multiset(p + [x])
    ensures multiset(yes + []) + multiset(no + [x]) == multiset(p + [x])
  {
    assert yes + [] == yes && no + [] == no;
  }

  lemma {:induction false} SiftedHas(q: seq<int>, level: nat, slot: nat, stays: bool, x: int)
    ensures x in Sifted(q, level, slot, stays) <==> x in q && Stays(x, level, slot) == stays
  {
    hide Stays;
    if q != [] {
      SiftedHas(q[..|q| - 1], level, slot, stays, x);
      assert q == q[..|q| - 1] + [q[|q| - 1]];
    }
  }

  lemma {:induction false} SiftedJoin(p: seq<int>, q: seq<int>, level: nat, slot: nat, stays: bool)
    ensures Sifted(p + q, level, slot, stays) == Sifted(p, level, slot, stays) + Sifted(q, level, slot, stays)
  {
    hide Stays;
    if q == [] {
      assert p + q == p;
    } else {
      assert (p + q)[..|p + q| - 1] == p + q[..|q| - 1];
      SiftedJoin(p, q[..|q| - 1], level, slot, stays);
    }
  }

  class MemoryBucket {
    var size: nat
    const slots: array<int>
    var overflows: seq<int>

    constructor (capacity: nat)
      ensures Sound() && slots.Length == capacity && fresh(slots) && Items() == []
    {
      size, overflows := 0, [];
      slots := new int[capacity];
    }

    // there are overflows only behind a full bucket
    ghost predicate Sound()
      reads `size, `overflows
    {
      size <= slots.Length && (overflows != [] ==> size == slots.Length)
    }

    ghost function Items(): seq<int>
      reads `size, `overflows, slots
    {
      if size <= slots.Length then slots[..size] + overflows else []
    }

    predicate Full()
      reads `size
    {
      size == slots.Length
    }

    method Add(data: int)
      requires Sound()
      modifies `size, `overflows, slots
      ensures Sound() && Items() == old(Items()) + [data]
    {
      if Full() {
        overflows := overflows + [data];
      } else {
        slots[size] := data;
        size := size + 1;
      }
    }

    method Search(data: int) returns (at: int)
      requires Sound()
      ensures -1 <= at < size && (at >= 0 ==> slots[at] == data)
      ensures at < 0 ==> forall i :: 0 <= i < size ==> slots[i] != data
    {
      for i := 0 to size
        invariant forall k :: 0 <= k < i ==> slots[k] != data
      {
        if slots[i] == data {
          return i;
        }
      }
      at := -1;
    }

    // the slots from the front on: those that stay close up, the others go to another bucket
    method SiftSlots(other: MemoryBucket, level: nat, slot: nat) returns (j: nat)
      requires size <= slots.Length && other.Sound() && other != this && other.slots != slots && other.Items() == []
      modifies slots, other`size, other`overflows, other.slots
      ensures j <= size && other.Sound()
      ensures slots[..j] == Sifted(old(slots[..size]), level, slot, true)
        && other.Items() == Sifted(old(slots[..size]), level, slot, false)
    {
      hide *;
      ghost var first := slots[..size];
      SiftedWhole(first, level, slot, true);
      SiftedWhole(first, level, slot, false);
      j := 0;
      for i := 0 to size
        invariant j <= i && other.Sound()
        invariant forall k :: i <= k < size ==> slots[k] == first[k]
        invariant slots[..j] == Sifted(first[..i], level, slot, true)
          && other.Items() == Sifted(first[..i], level, slot, false)
      {
        SiftedNext(first, i, level, slot, true);
        SiftedNext(first, i, level, slot, false);
        if Stays(slots[i], level, slot) {
          ghost var before := slots[..j];
          if j < i {
            slots[j] := slots[i];
          }
          j := j + 1;
          assert slots[..j] == before + [first[i]];
        } else {
          other.Add(slots[i]);
        }
      }
    }

    // the overflows: those that stay move up into free slots while there are any
    method SiftOverflows(other: MemoryBucket, level: nat, slot: nat, from: nat) returns (j: nat)
      requires from <= slots.Length && other.Sound() && other != this && other.slots != slots
      modifies slots, `overflows, other`size, other`overflows, other.slots
      ensures from <= j <= slots.Length && other.Sound() && (overflows != [] ==> j == slots.Length)
      ensures slots[..j] + overflows == old(slots[..from]) + Sifted(old(overflows), level, slot, true)
      ensures other.Items() == old(other.Items()) + Sifted(old(overflows), level, slot, false)
    {
      hide *;
      ghost var all, start, others := overflows, slots[..from], other.Items();
      SiftedWhole(all, level, slot, true);
      SiftedWhole(all, level, slot, false);
      j := from;
      var itr := 0;
      ghost var n := 0;
      assert start + [] == start && others + [] == others;
      while itr < |overflows|
        invariant from <= j <= slots.Length && other.Sound() && n <= |all| && itr <= |overflows|
          && (itr > 0 ==> j == slots.Length)
        invariant overflows[itr..] == all[n..]
        invariant slots[..j] + overflows[..itr] == start + Sifted(all[..n], level, slot, true)
        invariant other.Items() == others + Sifted(all[..n], level, slot, false)
        decreases |overflows| - itr
      {
        SiftedNext(all, n, level, slot, true);
        SiftedNext(all, n, level, slot, false);
        var data := overflows[itr];
        ghost var kept, left := slots[..j], overflows[..itr];
        assert data == overflows[itr..][0] == all[n] && all[n..][1..] == all[n + 1..];
        if Stays(data, level, slot) {
          if j == slots.Length {
            itr := itr + 1;
            assert overflows[..itr] == left + [data] && kept + (left + [data]) == kept + left + [data];
          } else {
            slots[j] := data;
            j := j + 1;
            assert slots[..j] == kept + [data];
            overflows := overflows[..itr] + overflows[itr + 1..];
            assert overflows[..itr] == left == [] && kept + [] == kept && kept + [data] + [] == kept + [data];
          }
        } else {
          other.Add(data);
          overflows := overflows[..itr] + overflows[itr + 1..];
          assert overflows[..itr] == left && slots[..j] == kept;
        }
        n := n + 1;
      }
      assert overflows[..itr] == overflows;
    }

    // Keeps the items that stay in this slot at the level, in order, and gives the others to a new bucket.
    method Sift(other: MemoryBucket, level: nat, slot: nat)
      requires Sound() && other.Sound() && other != this && other.slots != slots && other.Items() == []
      modifies this, slots, other`size, other`overflows, other.slots
      ensures Sound() && other.Sound()
      ensures Items() == Sifted(old(Items()), level, slot, true)
        && other.Items() == Sifted(old(Items()), level, slot, false)
    {
      ghost var first, over := slots[..size], overflows;
      SiftedJoin(first, over, level, slot, true);
      SiftedJoin(first, over, level, slot, false);
      hide Sifted;
      var j := SiftSlots(other, level, slot);
      j := SiftOverflows(other, level, slot, j);
      size := j;
    }
  }

  // ---------- the buckets of a table

  ghost function Bag(rows: seq<seq<int>>): multiset<int>
  {
    if rows == [] then multiset{} else Bag(rows[..|rows| - 1]) + multiset(rows[|rows| - 1])
  }

  ghost function Total(rows: seq<seq<int>>): nat
  {
    if rows == [] then 0 else Total(rows[..|rows| - 1]) + |rows[|rows| - 1]|
  }

  lemma BagMore(rows: seq<seq<int>>, q: seq<int>)
    ensures Bag(rows + [q]) == Bag(rows) + multiset(q) && Total(rows + [q]) == Total(rows) + |q|
  {
    assert (rows + [q])[..|rows|] == rows;
  }

  lemma SameAdded<T>(a: multiset<T>, b: multiset<T>, more: multiset<T>, r: multiset<T>, q: multiset<T>)
    requires a + r == b + q
    ensures a + more + r == b + more + q
  {
    forall x ensures (a + more + r)[x] == (b + more + q)[x] {
      assert (a + r)[x] == (b + q)[x];
    }
  }

  lemma DealtOut<T>(a: multiset<T>, b: multiset<T>, yes: multiset<T>, no: multiset<T>, r: multiset<T>)
    requires a + r == b + yes && yes + no == r
    ensures a + no == b
  {
    forall x ensures (a + no)[x] == b[x] {
      assert (a + r)[x] == (b + yes)[x] && (yes + no)[x] == r[x];
    }
  }

  lemma {:induction false} BagSet(rows: seq<seq<int>>, i: nat, q: seq<int>)
    requires i < |rows|
    ensures Bag(rows[i := q]) + multiset(rows[i]) == Bag(rows) + multiset(q)
    ensures Total(rows[i := q]) + |rows[i]| == Total(rows) + |q|
  {
    var n := |rows| - 1;
    if i < n {
      assert rows[i := q][..n] == rows[..n][i := q];
      BagSet(rows[..n], i, q);
      SameAdded(Bag(rows[..n][i := q]), Bag(rows[..n]), multiset(rows[n]), multiset(rows[i]), multiset(q));
    } else {
      assert rows[i := q][..n] == rows[..n];
    }
  }

  // every item stands in the bucket of its slot
  ghost predicate Placed(rows: seq<seq<int>>, level: nat, splitPos: nat)
  {
    forall i, x :: 0 <= i < |rows| && x in rows[i] ==> SlotFor(x, level, splitPos) == i
  }

  lemma PlacedMore(rows: seq<seq<int>>, level: nat, splitPos: nat, data: int)
    requires Placed(rows, level, splitPos) && SlotFor(data, level, splitPos) < |rows|
    ensures var i := SlotFor(data, level, splitPos); Placed(rows[i := rows[i] + [data]], level, splitPos)
  {
    hide SlotFor;
  }

  // a bucket dealt out to its own slot and the new one
  ghost function SplitRows(rows: seq<seq<int>>, level: nat, s: nat): seq<seq<int>>
    requires s < |rows|
  {
    rows[s := Sifted(rows[s], level + 1, s, true)] + [Sifted(rows[s], level + 1, s, false)]
  }

  lemma SplitBag(rows: seq<seq<int>>, level: nat, s: nat)
    requires s < |rows|
    ensures Bag(SplitRows(rows, level, s)) == Bag(rows) && Total(SplitRows(rows, level, s)) == Total(rows)
  {
    hide Sifted, Bag, Total;
    var yes, no := Sifted(rows[s], level + 1, s, true), Sifted(rows[s], level + 1, s, false);
    SiftedAll(rows[s], level + 1, s);
    BagSet(rows, s, yes);
    BagMore(rows[s := yes], no);
    DealtOut(Bag(rows[s := yes]), Bag(rows), multiset(yes), multiset(no), multiset(rows[s]));
  }

  lemma SplitPlaced(rows: seq<seq<int>>, level: nat, s: nat)
    requires s < Pow2(level) && |rows| == Pow2(level) + s && Placed(rows, level, s)
    ensures var (l, p) := Advanced(level, s);
      Placed(SplitRows(rows, level, s), l, p) && p < Pow2(l) && |SplitRows(rows, level, s)| == Pow2(l) + p
  {
    hide Sifted, HashSlot, HashLevel, HashFunc, Stays, Pow2, SlotFor;
    var (l, p) := Advanced(level, s);
    var out := SplitRows(rows, level, s);
    SlotAfterAdvance(0, level, s);
    forall i, x | 0 <= i < |out| && x in out[i] ensures SlotFor(x, l, p) == i {
      if i == s || i == |rows| {
        SiftedHas(rows[s], level + 1, s, i == s, x);
        SlotSplit(x, level, s);
      } else {
        assert x in rows[i];
        SlotSplit(x, level, s);
      }
    }
  }

  lemma SlotSplit(x: int, level: nat, s: nat)
    requires s < Pow2(level)
    ensures var (l, p) := Advanced(level, s);
      SlotFor(x, l, p) == if SlotFor(x, level,
          s) != s then SlotFor(x, level, s) else if Stays(x, level + 1, s) then s else Pow2(level) + s
  {
    hide HashLevel, Pow2, Advanced, HashFunc;
    SlotAfterAdvance(HashFunc(x), level, s);
    if SlotFor(x, level, s) == s {
      SplitTarget(x, level, s);
    }
  }

  lemma SplitTarget(x: int, level: nat, s: nat)
    requires s < Pow2(level) && SlotFor(x, level, s) == s
    ensures HashLevel(HashFunc(x), level + 1) == if Stays(x, level + 1, s) then s else Pow2(level) + s
  {
    hide HashLevel, Pow2;
    NextLevel(HashFunc(x), level);
  }

  // ---------- the load limit

  // The buckets are all of one capacity; one is added whenever an item comes while four fifths are taken.
  ghost function CapacityAfter(bucket: nat, items: nat): nat
  {
    if items == 0 then bucket
    else
      var before := CapacityAfter(bucket, items - 1);
      if 5 * (items - 1) >= 4 * before then before + bucket else before
  }

  lemma {:induction false} LoadKept(bucket: nat, items: nat)
    requires bucket >= 2
    ensures 5 * items < 4 * CapacityAfter(bucket, items) + 5
  {
    if items > 0 {
      LoadKept(bucket, items - 1);
    }
  }

  // However many items are put in, the table stays below its limit plus one item exactly when a bucket takes two or
  // more.
  lemma LoadBound(bucket: nat)
    requires bucket > 0
    ensures (forall items: nat :: 5 * items < 4 * CapacityAfter(bucket, items) + 5) <==> bucket >= 2
  {
    if bucket >= 2 {
      forall items: nat ensures 5 * items < 4 * CapacityAfter(bucket, items) + 5 {
        LoadKept(bucket, items);
      }
    } else {
      assert CapacityAfter(1, 1) == 1;
      assert CapacityAfter(1, 2) == 2;
      assert CapacityAfter(1, 3) == 3;
      assert CapacityAfter(1, 4) == 4;
      assert CapacityAfter(1, 5) == 5;
    }
  }

  // the buckets and their buffers are different objects, of one capacity, and rows tells what they hold
  ghost predicate Shaped(repr: set<object>, buckets: seq<MemoryBucket>, rows: seq<seq<int>>, capacity: nat)
    reads repr
  {
    && |rows| == |buckets| && Apart(buckets)
    && (forall i :: 0 <= i < |buckets| ==> buckets[i] in repr && buckets[i].slots in repr)
    && forall i :: 0 <= i < |buckets| ==> RowOk(buckets[i], rows[i], capacity)
  }

  ghost predicate Tidy(repr: set<object>, buckets: seq<MemoryBucket>)
    reads repr
  {
    forall i :: 0 <= i < |buckets| ==> buckets[i] in repr && buckets[i].Sound()
  }

  ghost predicate Apart(buckets: seq<MemoryBucket>)
  {
    forall i, j :: 0 <= i < j < |buckets| ==> buckets[i] != buckets[j] && buckets[i].slots != buckets[j].slots
  }

  lemma ApartMore(buckets: seq<MemoryBucket>, b: MemoryBucket)
    requires Apart(buckets) && forall i :: 0 <= i < |buckets| ==> buckets[i] != b && buckets[i].slots != b.slots
    ensures Apart(buckets + [b])
  {
  }

  lemma ApartAt(buckets: seq<MemoryBucket>, s: nat, i: nat)
    requires Apart(buckets) && s < |buckets| && i < |buckets| && i != s
    ensures buckets[i] != buckets[s] && buckets[i].slots != buckets[s].slots
  {
  }

  // bucket i holds row i
  ghost predicate RowOk(b: MemoryBucket, row: seq<int>, capacity: nat)
    reads b, b.slots
  {
    b.slots.Length == capacity && b.size <= capacity && row == b.Items()
  }

  lemma OneMore(a: nat, n: nat)
    ensures a * (n + 1) == a * n + a
  {
  }

  lemma ShapedParts(repr: set<object>, buckets: seq<MemoryBucket>, rows: seq<seq<int>>, capacity: nat)
    ensures Shaped(repr, buckets, rows, capacity) <==>
      && |rows| == |buckets| && Apart(buckets)
      && (forall i :: 0 <= i < |buckets| ==> buckets[i] in repr && buckets[i].slots in repr)
      && forall i :: 0 <= i < |buckets| ==> RowOk(buckets[i], rows[i], capacity)
  {
    hide Apart, RowOk;
  }

  lemma TidyParts(repr: set<object>, buckets: seq<MemoryBucket>)
    requires forall i :: 0 <= i < |buckets| ==> buckets[i] in repr
    ensures Tidy(repr, buckets) <==> forall i :: 0 <= i < |buckets| ==> buckets[i].Sound()
  {
    hide MemoryBucket.Sound;
  }

  lemma RowParts(b: MemoryBucket, row: seq<int>, capacity: nat)
    ensures RowOk(b, row, capacity) <==> b.slots.Length == capacity && b.size <= capacity && row == b.Items()
  {
  }

  lemma SoundSize(b: MemoryBucket)
    requires b.Sound()
    ensures b.size <= b.slots.Length && (b.overflows != [] ==> b.Full())
  {
  }

  lemma SplitRowsParts(rows: seq<seq<int>>, level: nat, s: nat)
    requires s < |rows|
    ensures var out := SplitRows(rows, level, s);
      && |out| == |rows| + 1 && (forall i :: 0 <= i < |rows| && i != s ==> out[i] == rows[i])
      && out[s] == Sifted(rows[s], level + 1, s, true) && out[|rows|] == Sifted(rows[s], level + 1, s, false)
  {
    hide Sifted;
  }

  lemma SlotForIs(data: int, level: nat, splitPos: nat)
    ensures SlotFor(data, level, splitPos) == HashSlot(HashFunc(data), level, splitPos)
  {
  }

  // what the self-test compares is the slot, range by range
  lemma TestedSlot(x: int, level: nat, splitPos: nat, i: nat)
    requires splitPos < Pow2(level) && i < Pow2(level) + splitPos
    ensures SlotFor(x, level, splitPos) == i
      <==> HashLevel(HashFunc(x), if i < splitPos || i >= Pow2(level) then level + 1 else level) == i
  {
    hide HashLevel, Pow2, HashFunc;
    NextLevel(HashFunc(x), level);
  }

  // the items in the slots of b belong to slot i of the table
  ghost predicate InPlace(b: MemoryBucket, level: nat, splitPos: nat, i: nat)
    reads b`size, b.slots
  {
    forall j :: 0 <= j < b.size && j < b.slots.Length ==> SlotFor(b.slots[j], level, splitPos) == i
  }

  method TestBucket(b: MemoryBucket, testLevel: nat, ghost level: nat, ghost splitPos: nat, i: nat) returns (r: bool)
    requires b.size <= b.slots.Length && splitPos < Pow2(level) && i < Pow2(level) + splitPos
    requires testLevel == if i < splitPos || i >= Pow2(level) then level + 1 else level
    ensures r <==> InPlace(b, level, splitPos, i)
  {
    hide HashLevel, HashFunc, Pow2, SlotFor;
    for j := 0 to b.size
      invariant forall k :: 0 <= k < j ==> SlotFor(b.slots[k], level, splitPos) == i
    {
      TestedSlot(b.slots[j], level, splitPos, i);
      if HashLevel(HashFunc(b.slots[j]), testLevel) != i {
        return false;
      }
    }
    r := true;
  }

  class MemoryTable {
    const bucketCapacity: nat
    var buckets: seq<MemoryBucket>
    var capacity: nat
    var size: nat
    var level: nat
    var splitPos: nat
    ghost var rows: seq<seq<int>>
    ghost var repr: set<object>  // the buckets and their buffers

    constructor (bucketCapacity: nat)
      requires bucketCapacity > 0
      ensures this.bucketCapacity == bucketCapacity && Valid() && Bag(rows) == multiset{} && size == 0
      ensures fresh(repr)
    {
      this.bucketCapacity := bucketCapacity;
      var bucket := new MemoryBucket(bucketCapacity);
      buckets := [bucket];
      capacity, size, level, splitPos := bucketCapacity, 0, 0, 0;
      rows, repr := [[]], {bucket, bucket.slots};
    }

    ghost predicate Linked()
      reads this, repr
    {
      this !in repr && bucketCapacity > 0 && splitPos < Pow2(level) && |buckets| == Pow2(level) + splitPos
          && Shaped(repr, buckets, rows, bucketCapacity)
    }

    // all but the load limit
    ghost predicate Kept()
      reads this, repr
    {
      && Linked() && Tidy(repr, buckets) && Placed(rows, level, splitPos)
      && size == Total(rows) && capacity == bucketCapacity * |buckets|
    }

    ghost predicate Valid()
      reads this, repr
    {
      Kept() && capacity == CapacityAfter(bucketCapacity, size)
    }

    // a new bucket takes over what does not stay in the bucket at splitPos
    method SplitBucket()
      requires this !in repr && splitPos < |buckets| && |buckets| == Pow2(level) + splitPos
        && Shaped(repr, buckets, rows, bucketCapacity) && Tidy(repr, buckets)
      modifies `buckets, `repr, buckets[splitPos], buckets[splitPos].slots
      ensures |buckets| == old(|buckets|) + 1 && old(repr) <= repr && fresh(repr - old(repr))
      ensures |rows| == old(|buckets|) && Shaped(repr, buckets, SplitRows(rows, level, splitPos), bucketCapacity)
        && Tidy(repr, buckets)
    {
      hide *;
      ghost var s, n := splitPos, |buckets|;
      ShapedParts(repr, buckets, rows, bucketCapacity);
      TidyParts(repr, buckets);
      RowParts(buckets[s], rows[s], bucketCapacity);
      var newBucket := new MemoryBucket(bucketCapacity);
      ApartMore(buckets, newBucket);
      forall i | 0 <= i < n && i != s ensures buckets[i] != buckets[s] && buckets[i].slots != buckets[s].slots {
        ApartAt(buckets, s, i);
      }
      buckets := buckets + [newBucket];
      repr := repr + {newBucket, newBucket.slots};
      assert newBucket == buckets[Pow2(level) + splitPos];
      buckets[splitPos].Sift(newBucket, level + 1, splitPos);
      SoundSize(buckets[s]);
      SoundSize(newBucket);
      SplitRowsParts(rows, level, s);
      RowParts(buckets[s], SplitRows(rows, level, s)[s], bucketCapacity);
      RowParts(newBucket, SplitRows(rows, level, s)[n], bucketCapacity);
      assert forall i :: 0 <= i < n && i != s ==> RowOk(buckets[i], rows[i], bucketCapacity) && buckets[i].Sound();
      ShapedParts(repr, buckets, SplitRows(rows, level, s), bucketCapacity);
      TidyParts(repr, buckets);
    }

    method Split()
      requires Kept()
      modifies this, repr
      ensures Kept() && Bag(rows) == old(Bag(rows)) && size == old(size) && capacity == old(capacity) + bucketCapacity
      ensures |buckets| == old(|buckets|) + 1 && old(repr) <= repr && fresh(repr - old(repr))
      ensures (level, splitPos) == Advanced(old(level), old(splitPos))
    {
      hide Shaped, Tidy, Placed, Total, Bag, CapacityAfter, SplitRows, Pow2, Kept, RowOk, Apart;
      KeptParts();
      SplitBag(rows, level, splitPos);
      SplitPlaced(rows, level, splitPos);
      SplitRowsParts(rows, level, splitPos);
      ShapedParts(repr, buckets, rows, bucketCapacity);
      ghost var n := |buckets|;
      SplitBucket();
      assert |buckets| == n + 1;
      OneMore(bucketCapacity, n);
      ShapedParts(repr, buckets, SplitRows(rows, level, splitPos), bucketCapacity);
      rows := SplitRows(rows, level, splitPos);
      capacity := capacity + bucketCapacity;
      splitPos := splitPos + 1;
      if splitPos == Pow2(level) {
        splitPos := 0;
        level := level + 1;
      }
      assert capacity == bucketCapacity * |buckets|;
      ShapedParts(repr, buckets, rows, bucketCapacity);
      KeptParts();
    }

    lemma LinkedParts()
      ensures Linked() <==>
        this !in repr && bucketCapacity > 0 && splitPos < Pow2(level) && |buckets| == Pow2(level) + splitPos
        && Shaped(repr, buckets, rows, bucketCapacity)
      ensures Linked() ==> |rows| == |buckets|
    {
    }

    lemma KeptParts()
      ensures Kept() <==>
        && this !in repr && bucketCapacity > 0 && splitPos < Pow2(level) && |buckets| == Pow2(level) + splitPos
          && Shaped(repr, buckets, rows, bucketCapacity)
        && Tidy(repr, buckets) && Placed(rows, level, splitPos) && size == Total(rows)
          && capacity == bucketCapacity * |buckets|
      ensures Kept() ==> |rows| == |buckets|
    {
      hide Tidy, Placed;
    }

    // the item goes to its slot; the table has grown first if four fifths were taken
    method Insert(data: int) returns (r: bool)
      requires Valid()
      modifies this, repr
      ensures r && Valid() && size == old(size) + 1 && Bag(rows) == old(Bag(rows)) + multiset{data}
      ensures old(repr) <= repr && fresh(repr - old(repr))
    {
      hide Kept, CapacityAfter, Bag, RowOk, Apart, HashSlot, HashFunc, SlotFor, Shaped, Tidy, Placed, Total, Pow2;
      SlotForIs(data, level, splitPos);
      KeptParts();
      CapacityStep(bucketCapacity, size);
      var slot := SlotFor(data, level, splitPos);
      if 5 * size >= 4 * capacity {
        Split();
        KeptParts();
        slot := SlotFor(data, level, splitPos);
        SlotForIs(data, level, splitPos);
      }
      SlotInRange(HashFunc(data), level, splitPos);
      KeptParts();
      ShapedParts(repr, buckets, rows, bucketCapacity);
      AddAt(data, slot);
      r := true;
    }

    method AddAt(data: int, slot: nat)
      requires Kept() && slot == SlotFor(data, level, splitPos) < |buckets|
      modifies `size, `rows, buckets[slot], buckets[slot].slots
      ensures Kept() && size == old(size) + 1 && capacity == old(capacity) && buckets == old(buckets)
      ensures Bag(rows) == old(Bag(rows)) + multiset{data}
    {
      hide *;
      KeptParts();
      ShapedParts(repr, buckets, rows, bucketCapacity);
      TidyParts(repr, buckets);
      RowParts(buckets[slot], rows[slot], bucketCapacity);
      PlacedMore(rows, level, splitPos, data);
      ghost var more := rows[slot] + [data];
      BagSet(rows, slot, more);
      OneAdded(Bag(rows[slot := more]), Bag(rows), rows[slot], data);
      forall i | 0 <= i < |buckets| && i != slot
          ensures buckets[i] != buckets[slot] && buckets[i].slots != buckets[slot].slots {
        ApartAt(buckets, slot, i);
      }
      size := size + 1;
      buckets[slot].Add(data);
      rows := rows[slot := more];
      SoundSize(buckets[slot]);
      RowParts(buckets[slot], rows[slot], bucketCapacity);
      assert forall i ::
          0 <= i < |buckets| && i != slot ==> RowOk(buckets[i], rows[i], bucketCapacity) && buckets[i].Sound();
      ShapedParts(repr, buckets, rows, bucketCapacity);
      TidyParts(repr, buckets);
      KeptParts();
    }

    // the slots of the overflows are not looked at by the test
    ghost predicate OverflowsPlaced()
      reads this, repr
    {
      forall i, x ::
          0 <= i < |buckets| && buckets[i] in repr && x in buckets[i].overflows ==> SlotFor(x, level, splitPos) == i
    }

    ghost predicate AllInPlace()
      reads this, repr
    {
      forall i ::
          0 <= i < |buckets| && buckets[i] in repr && buckets[i].slots in repr ==>
          InPlace(buckets[i], level, splitPos, i)
    }

    // On a table whose buckets are sound the test finds exactly the faults of the invariant, but for the overflows.
    method SelfTest() returns (r: bool)
      requires Linked()
      ensures r && OverflowsPlaced() <==> Kept()
    {
      hide Kept, Linked, Shaped, Tidy, Placed, Total, InPlace, AllInPlace, OverflowsPlaced, SlotFor, Pow2;
      KeptIs();
      r := TestOverflows();
      if !r {
        return false;
      }
      r := TestSlots();
      if !r {
        return false;
      }
      var s := CountItems();
      if s != size {
        return false;
      }
      if bucketCapacity * (Pow2(level) + splitPos) != capacity {
        return false;
      }
      r := true;
    }

    lemma KeptIs()
      requires Linked()
      ensures |buckets| == Pow2(level) + splitPos
      ensures Kept() <==>
        Tidy(repr, buckets) && AllInPlace() && OverflowsPlaced() && size == Total(rows)
        && capacity == bucketCapacity * (Pow2(level) + splitPos)
    {
      hide *;
      LinkedParts();
      KeptParts();
      ShapedParts(repr, buckets, rows, bucketCapacity);
      RowsAll();
      PlacedIs();
      AllIs();
    }

    lemma AllIs()
      requires forall i :: 0 <= i < |buckets| ==> buckets[i] in repr && buckets[i].slots in repr
      ensures AllInPlace() <==> forall i :: 0 <= i < |buckets| ==> InPlace(buckets[i], level, splitPos, i)
    {
      hide InPlace;
    }

    method TestSlots() returns (r: bool)
      requires Linked()
      ensures r <==> AllInPlace()
    {
      hide *;
      LinkedParts();
      ShapedParts(repr, buckets, rows, bucketCapacity);
      AllIs();
      r := TestPairs();
      if !r {
        return false;
      }
      RowsAll();
      for i := splitPos to Pow2(level)
        invariant forall k :: splitPos <= k < i ==> InPlace(buckets[k], level, splitPos, k)
      {
        r := TestBucket(buckets[i], level, level, splitPos, i);
        if !r {
          return false;
        }
      }
      r := true;
    }

    // the buckets already split at this level, and those split off from them
    method TestPairs() returns (r: bool)
      requires Linked()
      ensures splitPos < Pow2(level) && |buckets| == Pow2(level) + splitPos
      ensures r <==>
        forall i :: (0 <= i < splitPos || Pow2(level) <= i < |buckets|) ==> InPlace(buckets[i], level, splitPos, i)
    {
      hide *;
      LinkedParts();
      ShapedParts(repr, buckets, rows, bucketCapacity);
      RowsAll();
      for i := 0 to splitPos
        invariant forall k :: 0 <= k < i ==> InPlace(buckets[k], level, splitPos, k)
        invariant forall k :: Pow2(level) <= k < Pow2(level) + i ==> InPlace(buckets[k], level, splitPos, k)
      {
        r := TestBucket(buckets[i], level + 1, level, splitPos, i);
        if !r {
          return false;
        }
        r := TestBucket(buckets[Pow2(level) + i], level + 1, level, splitPos, Pow2(level) + i);
        if !r {
          return false;
        }
      }
      r := true;
    }

    method TestOverflows() returns (r: bool)
      requires Linked()
      ensures r <==> Tidy(repr, buckets)
    {
      hide *;
      LinkedParts();
      ShapedParts(repr, buckets, rows, bucketCapacity);
      RowsAll();
      TidyParts(repr, buckets);
      for i := 0 to Pow2(level) + splitPos
        invariant forall k :: 0 <= k < i ==> buckets[k].Sound()
      {
        SoundIs(buckets[i]);
        if !buckets[i].Full() && buckets[i].overflows != [] {
          return false;
        }
      }
      r := true;
    }

    method CountItems() returns (s: nat)
      requires Linked()
      ensures s == Total(rows)
    {
      hide *;
      LinkedParts();
      ShapedParts(repr, buckets, rows, bucketCapacity);
      RowsAll();
      TotalNone(rows[..0]);
      s := 0;
      for i := 0 to Pow2(level) + splitPos
        invariant s == Total(rows[..i])
      {
        BagMore(rows[..i], rows[i]);
        assert rows[..i + 1] == rows[..i] + [rows[i]];
        s := s + buckets[i].size + |buckets[i].overflows|;
      }
      assert rows[..|rows|] == rows;
    }

    lemma RowsAll()
      requires |rows| == |buckets| && forall i :: 0 <= i < |buckets| ==> RowOk(buckets[i], rows[i], bucketCapacity)
      ensures forall i :: 0 <= i < |buckets| ==>
                var b := buckets[i];
                b.size <= b.slots.Length && rows[i] == b.slots[..b.size] + b.overflows
                    && |rows[i]| == b.size + |b.overflows|
    {
    }

    // the two halves of the placement: the slots, and the overflows
    lemma PlacedIs()
      requires |rows| == |buckets| && forall i :: 0 <= i < |buckets| ==> buckets[i] in repr && buckets[i].slots in repr
      requires forall i ::
        0 <= i < |buckets| ==>
        buckets[i].size <= buckets[i].slots.Length
        && rows[i] == buckets[i].slots[..buckets[i].size] + buckets[i].overflows
      ensures Placed(rows, level, splitPos) <==>
        OverflowsPlaced() && forall i :: 0 <= i < |buckets| ==> InPlace(buckets[i], level, splitPos, i)
    {
      hide SlotFor;
      if Placed(rows, level, splitPos) {
        forall i, j | 0 <= i < |buckets| && 0 <= j < buckets[i].size
            ensures SlotFor(buckets[i].slots[j], level, splitPos) == i {
          assert rows[i][j] == buckets[i].slots[j];
        }
        forall i, x | 0 <= i < |buckets| && x in buckets[i].overflows ensures SlotFor(x, level, splitPos) == i {
          assert x in rows[i];
        }
      } else {
        var i, x :| 0 <= i < |rows| && x in rows[i] && SlotFor(x, level, splitPos) != i;
        if x !in buckets[i].overflows {
          assert x in buckets[i].slots[..buckets[i].size];
        }
      }
    }

    lemma SoundIs(b: MemoryBucket)
      requires b.size <= b.slots.Length
      ensures b.Sound() <==> b.Full() || b.overflows == []
    {
    }
  }

  lemma TotalNone(rows: seq<seq<int>>)
    requires rows == []
    ensures Total(rows) == 0
  {
  }

  // Any run of insertions keeps the items, places every one, and stays below the load limit when a bucket takes two or
  // more.
  method InsertAll(bucketCapacity: nat, data: seq<int>) returns (table: MemoryTable)
    requires bucketCapacity > 0
    ensures fresh(table) && table.Valid() && Bag(table.rows) == multiset(data) && table.size == |data|
    ensures bucketCapacity >= 2 ==> 5 * table.size < 4 * table.capacity + 5
  {
    hide MemoryTable.Kept, CapacityAfter, Bag;
    table := new MemoryTable(bucketCapacity);
    assert data[..0] == [];
    for i := 0 to |data|
      invariant fresh(table) && fresh(table.repr) && table.bucketCapacity == bucketCapacity
      invariant table.Valid() && Bag(table.rows) == multiset(data[..i]) && table.size == i
    {
      assert data[..i + 1] == data[..i] + [data[i]];
      var inserted := table.Insert(data[i]);
    }
    assert data[..|data|] == data;
    if bucketCapacity >= 2 {
      LoadKept(bucketCapacity, table.size);
    }
  }

  lemma OneAdded(a: multiset<int>, b: multiset<int>, row: seq<int>, data: int)
    requires a + multiset(row) == b + multiset(row + [data])
    ensures a == b + multiset{data}
  {
    forall x ensures a[x] == (b + multiset{data})[x] {
      assert (a + multiset(row))[x] == (b + multiset(row + [data]))[x];
      assert multiset(row + [data])[x] == multiset(row)[x] + multiset{data}[x];
    }
  }

  lemma CapacityStep(bucket: nat, items: nat)
    ensures CapacityAfter(bucket, items + 1)
         == if 5 * items >= 4 * CapacityAfter(bucket,
             items) then CapacityAfter(bucket, items) + bucket else CapacityAfter(bucket, items)
  {
  }
}
