// The block moves of PlainArrayManager on fixed-size buffers.
module BTreeArrays {
  // memmove of buf[begin..end) up by count places
  function ArrayInsert<T>(buf: seq<T>, begin: nat, end: nat, count: nat): (r: seq<T>)
    requires begin <= end && end + count <= |buf|
    ensures |r| == |buf|
  {
    buf[..begin + count] + buf[begin..end] + buf[end + count..]
  }

  // memmove of buf[begin + count..end) down to begin
  function ArrayDelete<T>(buf: seq<T>, begin: nat, end: nat, count: nat): (r: seq<T>)
    requires begin + count <= end <= |buf|
    ensures |r| == |buf|
  {
    buf[..begin] + buf[begin + count..end] + buf[end - count..]
  }

  // memcpy of source[begin..end) to dest[to..); nothing happens unless begin < end
  function ArrayMove<T>(dest: seq<T>, to: nat, source: seq<T>, begin: nat, end: nat): (r: seq<T>)
    requires begin < end ==> end <= |source| && to + (end - begin) <= |dest|
    ensures |r| == |dest|
  {
    if begin < end then dest[..to] + source[begin..end] + dest[to + (end - begin)..] else dest
  }

  // the live part of a buffer
  function Prefix<T>(buf: seq<T>, n: nat): (r: seq<T>)
  {
    if n <= |buf| then buf[..n] else buf
  }

  function Inserted<T>(q: seq<T>, slot: nat, x: T): (r: seq<T>)
    requires slot <= |q|
    ensures |r| == |q| + 1
  {
    q[..slot] + [x] + q[slot..]
  }

  // ---------- what stands in each cell afterwards

  lemma InsertCells<T>(buf: seq<T>, begin: nat, end: nat, count: nat)
    requires begin <= end && end + count <= |buf|
    ensures forall k :: 0 <= k < begin + count ==> ArrayInsert(buf, begin, end, count)[k] == buf[k]
    ensures forall k :: begin + count <= k < end + count ==> ArrayInsert(buf, begin, end, count)[k] == buf[k - count]
    ensures forall k :: end + count <= k < |buf| ==> ArrayInsert(buf, begin, end, count)[k] == buf[k]
  {
  }

  lemma DeleteCells<T>(buf: seq<T>, begin: nat, end: nat, count: nat)
    requires begin + count <= end <= |buf|
    ensures forall k :: 0 <= k < begin ==> ArrayDelete(buf, begin, end, count)[k] == buf[k]
    ensures forall k :: begin <= k < end - count ==> ArrayDelete(buf, begin, end, count)[k] == buf[k + count]
    ensures forall k :: end - count <= k < |buf| ==> ArrayDelete(buf, begin, end, count)[k] == buf[k]
  {
  }

  lemma MoveCells<T>(dest: seq<T>, to: nat, source: seq<T>, begin: nat, end: nat)
    requires begin <= end <= |source| && to + (end - begin) <= |dest|
    ensures forall k :: 0 <= k < to ==> ArrayMove(dest, to, source, begin, end)[k] == dest[k]
    ensures forall k ::
      to <= k < to + (end - begin) ==> ArrayMove(dest, to, source, begin, end)[k] == source[begin + (k - to)]
    ensures forall k :: to + (end - begin) <= k < |dest| ==> ArrayMove(dest, to, source, begin, end)[k] == dest[k]
  {
  }

  lemma InsertedCells<T>(q: seq<T>, slot: nat, x: T)
    requires slot <= |q|
    ensures forall k :: 0 <= k < slot ==> Inserted(q, slot, x)[k] == q[k]
    ensures Inserted(q, slot, x)[slot] == x
    ensures forall k :: slot < k <= |q| ==> Inserted(q, slot, x)[k] == q[k - 1]
  {
  }

  lemma RemovedCells<T>(q: seq<T>, slot: nat)
    requires slot < |q|
    ensures forall k :: 0 <= k < slot ==> Removed(q, slot)[k] == q[k]
    ensures forall k :: slot <= k < |q| - 1 ==> Removed(q, slot)[k] == q[k + 1]
  {
  }

  // opening a hole below m keeps the first m elements of the insertion
  lemma InsertedHead<T>(buf: seq<T>, size: nat, slot: nat, x: T, m: nat)
    requires slot < m <= size + 1 && size <= |buf| && m <= |buf|
    ensures ArrayInsert(buf, slot, m - 1, 1)[slot := x][..m] == Inserted(buf[..size], slot, x)[..m]
  {
    hide *;
    InsertCells(buf, slot, m - 1, 1);
    InsertedCells(buf[..size], slot, x);
    var l, r := ArrayInsert(buf, slot, m - 1, 1)[slot := x][..m], Inserted(buf[..size], slot, x)[..m];
    assert forall i :: 0 <= i < m ==> l[i] == r[i];
  }

  // moving out [m - 1..size) takes the rest of the insertion when the hole is below m
  lemma InsertedTail<T>(buf: seq<T>, size: nat, slot: nat, x: T, m: nat, dest: seq<T>)
    requires slot < m <= size + 1 && size <= |buf| && size + 1 - m <= |dest|
    ensures ArrayMove(dest, 0, buf, m - 1, size)[..size + 1 - m] == Inserted(buf[..size], slot, x)[m..]
  {
    hide *;
    MoveCells(dest, 0, buf, m - 1, size);
    InsertedCells(buf[..size], slot, x);
    var l, r := ArrayMove(dest, 0, buf, m - 1, size)[..size + 1 - m], Inserted(buf[..size], slot, x)[m..];
    assert forall i :: 0 <= i < |l| ==> l[i] == r[i];
  }

  // moving out around a hole at or above m
  lemma InsertedSplitTail<T>(buf: seq<T>, size: nat, slot: nat, x: T, m: nat, dest: seq<T>)
    requires m <= slot <= size <= |buf| && size + 1 - m <= |dest|
    ensures ArrayMove(ArrayMove(dest, 0, buf, m, slot), slot - m + 1, buf, slot, size)[slot - m := x][..size + 1 - m]
      == Inserted(buf[..size], slot, x)[m..]
  {
    hide *;
    var first := ArrayMove(dest, 0, buf, m, slot);
    MoveCells(dest, 0, buf, m, slot);
    MoveCells(first, slot - m + 1, buf, slot, size);
    InsertedCells(buf[..size], slot, x);
    var l, r := ArrayMove(first, slot - m + 1, buf, slot, size)[slot - m := x][..size + 1 - m],
        Inserted(buf[..size], slot, x)[m..];
    assert forall i :: 0 <= i < |l| ==> l[i] == r[i];
  }

  // an insertion at or above m leaves the first m elements
  lemma InsertedKeep<T>(q: seq<T>, slot: nat, x: T, m: nat)
    requires m <= slot <= |q|
    ensures Inserted(q, slot, x)[..m] == q[..m]
  {
    hide *;
    InsertedCells(q, slot, x);
    assert forall i :: 0 <= i < m ==> Inserted(q, slot, x)[i] == q[i];
  }

  lemma InsertedAt<T>(q: seq<T>, slot: nat, x: T, k: nat)
    requires slot <= |q| && k <= |q|
    ensures Inserted(q, slot, x)[k] == if k < slot then q[k] else if k == slot then x else q[k - 1]
  {
    InsertedCells(q, slot, x);
  }

  // where an element of a slice stands
  lemma SliceIndex<T>(q: seq<T>, begin: nat, end: nat, x: T) returns (k: nat)
    requires begin <= end <= |q| && x in q[begin..end]
    ensures begin <= k < end && q[k] == x
  {
    var i :| 0 <= i < |q[begin..end]| && q[begin..end][i] == x;
    k := begin + i;
  }

  // ---------- sharing items between two leaves: p is the left live part, r the right buffer

  // the right leaf after the hole stays left of m
  lemma ShareRightLow<T>(buf: seq<T>, size: nat, slot: nat, x: T, right: seq<T>, rs: nat, m: nat)
    requires slot < m <= size + 1 && size <= |buf| && rs + (size + 1 - m) <= |right|
    ensures ArrayMove(ArrayInsert(right, 0, rs, size + 1 - m), 0, buf, m - 1, size)[..rs + (size + 1 - m)]
      == Inserted(buf[..size] + right[..rs], slot, x)[m..]
  {
    hide *;
    var count := size + 1 - m;
    var spread := ArrayInsert(right, 0, rs, count);
    InsertCells(right, 0, rs, count);
    MoveCells(spread, 0, buf, m - 1, size);
    InsertedCells(buf[..size] + right[..rs], slot, x);
    var l, r := ArrayMove(spread, 0, buf, m - 1, size)[..rs + count], Inserted(buf[..size] + right[..rs], slot, x)[m..];
    assert forall i :: 0 <= i < |l| ==> l[i] == r[i];
  }

  // the right leaf when x itself moves over
  lemma ShareRightHigh<T>(buf: seq<T>, size: nat, slot: nat, x: T, right: seq<T>, rs: nat, m: nat)
    requires m <= slot <= size <= |buf| && rs + (size + 1 - m) <= |right|
    ensures var r0 := ArrayMove(ArrayInsert(right, 0, rs, size + 1 - m), 0, buf, m, slot);
      ArrayMove(r0, slot - m + 1, buf, slot, size)[slot - m := x][..rs + (size + 1 - m)]
      == Inserted(buf[..size] + right[..rs], slot, x)[m..]
  {
    hide *;
    var count := size + 1 - m;
    var spread := ArrayInsert(right, 0, rs, count);
    var first := ArrayMove(spread, 0, buf, m, slot);
    InsertCells(right, 0, rs, count);
    MoveCells(spread, 0, buf, m, slot);
    MoveCells(first, slot - m + 1, buf, slot, size);
    InsertedCells(buf[..size] + right[..rs], slot, x);
    var l := ArrayMove(first, slot - m + 1, buf, slot, size)[slot - m := x][..rs + count];
    var r := Inserted(buf[..size] + right[..rs], slot, x)[m..];
    assert forall i :: 0 <= i < |l| ==> l[i] == r[i];
  }

  // the left leaf: the first m of the insertion lie in the left buffer
  lemma ShareLeft<T>(buf: seq<T>, size: nat, slot: nat, x: T, rest: seq<T>, m: nat)
    requires slot <= size <= |buf| && m <= size + 1
    ensures Inserted(buf[..size] + rest, slot, x)[..m] == Inserted(buf[..size], slot, x)[..m]
  {
    hide *;
    InsertedCells(buf[..size] + rest, slot, x);
    InsertedCells(buf[..size], slot, x);
    var l, r := Inserted(buf[..size] + rest, slot, x)[..m], Inserted(buf[..size], slot, x)[..m];
    assert forall i :: 0 <= i < m ==> l[i] == r[i];
  }

  // this leaf keeps the upper part, x included, after giving k items to the left
  lemma GiveLeftHigh<T>(buf: seq<T>, size: nat, slot: nat, x: T, k: nat)
    requires 0 < k <= slot <= size <= |buf|
    ensures ArrayDelete(ArrayDelete(buf, 0, slot, k), slot - k + 1, size, k - 1)[slot - k := x][..size + 1 - k]
      == Inserted(buf[..size], slot, x)[k..]
  {
    hide *;
    var first := ArrayDelete(buf, 0, slot, k);
    DeleteCells(buf, 0, slot, k);
    DeleteCells(first, slot - k + 1, size, k - 1);
    InsertedCells(buf[..size], slot, x);
    var l := ArrayDelete(first, slot - k + 1, size, k - 1)[slot - k := x][..size + 1 - k];
    var r := Inserted(buf[..size], slot, x)[k..];
    assert forall i :: 0 <= i < |l| ==> l[i] == r[i];
  }

  lemma GiveLeftLow<T>(buf: seq<T>, size: nat, slot: nat, x: T, k: nat)
    requires slot < k <= size <= |buf|
    ensures ArrayDelete(buf, 0, size, k - 1)[..size + 1 - k] == Inserted(buf[..size], slot, x)[k..]
  {
    hide *;
    DeleteCells(buf, 0, size, k - 1);
    InsertedCells(buf[..size], slot, x);
    var l, r := ArrayDelete(buf, 0, size, k - 1)[..size + 1 - k], Inserted(buf[..size], slot, x)[k..];
    assert forall i :: 0 <= i < |l| ==> l[i] == r[i];
  }

  // the left leaf takes k items (x not among them, or among them)
  lemma TakeHigh<T>(left: seq<T>, ls: nat, buf: seq<T>, size: nat, slot: nat, x: T, k: nat)
    requires k <= slot <= size <= |buf| && ls + k <= |left|
    ensures ArrayMove(left, ls, buf, 0, k)[..ls + k] == Inserted(left[..ls] + buf[..size], ls + slot, x)[..ls + k]
  {
    hide *;
    MoveCells(left, ls, buf, 0, k);
    InsertedCells(left[..ls] + buf[..size], ls + slot, x);
    var l, r := ArrayMove(left, ls, buf, 0, k)[..ls + k], Inserted(left[..ls] + buf[..size], ls + slot, x)[..ls + k];
    assert forall i :: 0 <= i < |l| ==> l[i] == r[i];
  }

  lemma TakeLow<T>(left: seq<T>, ls: nat, buf: seq<T>, size: nat, slot: nat, x: T, k: nat)
    requires slot < k <= size <= |buf| && ls + k <= |left|
    ensures ArrayMove(ArrayMove(left, ls, buf, 0, slot), ls + slot + 1, buf, slot, k - 1)[ls + slot := x][..ls + k]
      == Inserted(left[..ls] + buf[..size], ls + slot, x)[..ls + k]
  {
    hide *;
    var first := ArrayMove(left, ls, buf, 0, slot);
    MoveCells(left, ls, buf, 0, slot);
    MoveCells(first, ls + slot + 1, buf, slot, k - 1);
    InsertedCells(left[..ls] + buf[..size], ls + slot, x);
    var l := ArrayMove(first, ls + slot + 1, buf, slot, k - 1)[ls + slot := x][..ls + k];
    var r := Inserted(left[..ls] + buf[..size], ls + slot, x)[..ls + k];
    assert forall i :: 0 <= i < |l| ==> l[i] == r[i];
  }

  lemma InsertedRest<T>(left: seq<T>, q: seq<T>, slot: nat, x: T, k: nat)
    requires slot <= |q| && k <= |q| + 1
    ensures Inserted(left + q, |left| + slot, x)[|left| + k..] == Inserted(q, slot, x)[k..]
  {
    hide *;
    InsertedCells(left + q, |left| + slot, x);
    InsertedCells(q, slot, x);
    var l, r := Inserted(left + q, |left| + slot, x)[|left| + k..], Inserted(q, slot, x)[k..];
    assert forall i :: 0 <= i < |l| ==> l[i] == r[i];
  }

  // ---------- moving between two buffers without an insertion

  lemma AppendAll<T>(left: seq<T>, ls: nat, right: seq<T>, rs: nat)
    requires rs <= |right| && ls + rs <= |left|
    ensures ArrayMove(left, ls, right, 0, rs)[..ls + rs] == left[..ls] + right[..rs]
  {
    hide *;
    MoveCells(left, ls, right, 0, rs);
    var l, r := ArrayMove(left, ls, right, 0, rs)[..ls + rs], left[..ls] + right[..rs];
    assert forall i :: 0 <= i < |l| ==> l[i] == r[i];
  }

  lemma PushFront<T>(left: seq<T>, ls: nat, right: seq<T>, rs: nat, m: nat)
    requires m <= ls <= |left| && rs + (ls - m) <= |right|
    ensures ArrayMove(ArrayInsert(right, 0, rs, ls - m), 0, left, m, ls)[..rs + (ls - m)]
      == (left[..ls] + right[..rs])[m..]
  {
    hide *;
    var spread := ArrayInsert(right, 0, rs, ls - m);
    InsertCells(right, 0, rs, ls - m);
    MoveCells(spread, 0, left, m, ls);
    var l, r := ArrayMove(spread, 0, left, m, ls)[..rs + (ls - m)], (left[..ls] + right[..rs])[m..];
    assert forall i :: 0 <= i < |l| ==> l[i] == r[i];
  }

  lemma PullFront<T>(left: seq<T>, ls: nat, right: seq<T>, rs: nat, k: nat)
    requires k <= rs <= |right| && ls + k <= |left|
    ensures ArrayMove(left, ls, right, 0, k)[..ls + k] == (left[..ls] + right[..rs])[..ls + k]
    ensures ArrayDelete(right, 0, rs, k)[..rs - k] == (left[..ls] + right[..rs])[ls + k..]
  {
    hide *;
    MoveCells(left, ls, right, 0, k);
    DeleteCells(right, 0, rs, k);
    var all := left[..ls] + right[..rs];
    var l, r := ArrayMove(left, ls, right, 0, k)[..ls + k], ArrayDelete(right, 0, rs, k)[..rs - k];
    assert forall i :: 0 <= i < |l| ==> l[i] == all[i];
    assert forall i :: 0 <= i < |r| ==> r[i] == all[ls + k + i];
  }

  // ---------- binary search

  function KeysOf<T>(items: seq<T>, size: nat, keyOf: T -> int): (ks: seq<int>)
    requires size <= |items|
    ensures |ks| == size && forall i :: 0 <= i < size ==> ks[i] == keyOf(items[i])
  {
    seq(size, i requires 0 <= i < size => keyOf(items[i]))
  }

  // what a search over sorted keys says about slot i
  ghost predicate Hit(ks: seq<int>, key: int, i: nat, found: bool)
  {
    && i <= |ks|
    && (found ==> i < |ks| && ks[i] == key)
    && (!found ==> (forall m :: 0 <= m < i ==> ks[m] < key) && (forall m :: i <= m < |ks| ==> key < ks[m]))
  }

  // the slot a search of ks[left..right) ends at
  ghost function Probe(ks: seq<int>, key: int, left: nat, right: nat): (nat, bool)
    requires left <= right <= |ks|
    decreases right - left
  {
    if left == right then (left, false)
    else
      var middle := (left + right) / 2;
      if ks[middle] < key then Probe(ks, key, middle + 1, right)
      else if key < ks[middle] then Probe(ks, key, left, middle)
      else (middle, true)
  }

  method BinarySearch<T>(key: int, items: seq<T>, size: nat, keyOf: T -> int) returns (index: nat, found: bool)
    requires size <= |items|
    requires forall i, j :: 0 <= i <= j < size ==> keyOf(items[i]) <= keyOf(items[j])
    ensures Hit(KeysOf(items, size, keyOf), key, index, found)
    ensures (index, found) == Probe(KeysOf(items, size, keyOf), key, 0, size)
  {
    ghost var ks := KeysOf(items, size, keyOf);
    var left, right := 0, size;
    while left < right
      invariant 0 <= left <= right <= size
      invariant forall m :: 0 <= m < left ==> ks[m] < key
      invariant forall m :: right <= m < size ==> key < ks[m]
      invariant Probe(ks, key, left, right) == Probe(ks, key, 0, size)
    {
      var middle := (left + right) / 2;
      var middleKey := keyOf(items[middle]);
      if middleKey < key {
        left := middle + 1;
      } else if key < middleKey {
        right := middle;
      } else {
        return middle, true;
      }
    }
    return left, false;
  }

  function Removed<T>(q: seq<T>, slot: nat): (r: seq<T>)
    requires slot < |q|
    ensures |r| == |q| - 1
  {
    q[..slot] + q[slot + 1..]
  }

  lemma RemovedPrefix<T>(buf: seq<T>, size: nat, slot: nat, blank: T)
    requires slot < size <= |buf|
    ensures ArrayDelete(buf[slot := blank], slot, size, 1)[..size - 1] == Removed(buf[..size], slot)
  {
    hide *;
    DeleteCells(buf[slot := blank], slot, size, 1);
    RemovedCells(buf[..size], slot);
    var l, r := ArrayDelete(buf[slot := blank], slot, size, 1)[..size - 1], Removed(buf[..size], slot);
    assert forall i :: 0 <= i < |l| ==> l[i] == r[i];
  }

  lemma InsertedPrefix<T>(buf: seq<T>, size: nat, slot: nat, x: T)
    requires slot <= size < |buf|
    ensures ArrayInsert(buf, slot, size, 1)[slot := x][..size + 1] == Inserted(buf[..size], slot, x)
  {
    hide *;
    InsertCells(buf, slot, size, 1);
    InsertedCells(buf[..size], slot, x);
    var l, r := ArrayInsert(buf, slot, size, 1)[slot := x][..size + 1], Inserted(buf[..size], slot, x);
    assert forall i :: 0 <= i < |l| ==> l[i] == r[i];
  }

  // the written end index of line 609 of BTree.hpp moves nothing
  lemma WrittenMovesNothing<T>(right: seq<T>, rs: nat, left: seq<T>, ls: nat, m: nat)
    requires m == (ls + rs) / 2 && 0 < rs && m <= ls <= |left|
    ensures ArrayMove(right, 0, left, m, ls - m) == right
  {
  }

  // ---------- splitting a branch: the keys, with one of them promoted

  lemma SplitKeysLowTail(keys: seq<int>, slot: nat, key: int, m: nat, dest: seq<int>)
    requires slot < m <= |keys| == |dest|
    ensures Inserted(keys, slot, key)[m] == keys[m - 1]
    ensures ArrayMove(dest, 0, keys, m, |keys|)[..|keys| - m] == Inserted(keys, slot, key)[m + 1..]
  {
    hide *;
    MoveCells(dest, 0, keys, m, |keys|);
    InsertedCells(keys, slot, key);
    var l, r := ArrayMove(dest, 0, keys, m, |keys|)[..|keys| - m], Inserted(keys, slot, key)[m + 1..];
    assert forall i :: 0 <= i < |l| ==> l[i] == r[i];
  }

  lemma SplitKeysLowHead(keys: seq<int>, slot: nat, key: int, m: nat, blank: int)
    requires slot < m <= |keys|
    ensures ArrayInsert(keys[m - 1 := blank], slot, m - 1, 1)[slot := key][..m] == Inserted(keys, slot, key)[..m]
  {
    hide *;
    InsertCells(keys[m - 1 := blank], slot, m - 1, 1);
    InsertedCells(keys, slot, key);
    var l, r := ArrayInsert(keys[m - 1 := blank], slot, m - 1, 1)[slot := key][..m], Inserted(keys, slot, key)[..m];
    assert forall i :: 0 <= i < m ==> l[i] == r[i];
  }

  lemma SplitKeysHigh(keys: seq<int>, slot: nat, key: int, m: nat, dest: seq<int>, blank: int)
    requires m < slot <= |keys| == |dest|
    ensures var ks := Inserted(keys, slot, key);
      && ks[m] == keys[m]
      && ArrayMove(ArrayMove(dest, 0, keys[m := blank], m + 1, slot), slot - m, keys[m := blank], slot,
        |keys|)[slot - m - 1 := key][..|keys| - m] == ks[m + 1..]
      && keys[m := blank][..m] == ks[..m]
  {
    hide *;
    var source, ks := keys[m := blank], Inserted(keys, slot, key);
    var first := ArrayMove(dest, 0, source, m + 1, slot);
    MoveCells(dest, 0, source, m + 1, slot);
    MoveCells(first, slot - m, source, slot, |keys|);
    InsertedCells(keys, slot, key);
    var l := ArrayMove(first, slot - m, source, slot, |keys|)[slot - m - 1 := key][..|keys| - m];
    assert forall i :: 0 <= i < |l| ==> l[i] == ks[m + 1 + i];
    assert forall i :: 0 <= i < m ==> source[i] == ks[i];
  }

  lemma SplitKeysHere(keys: seq<int>, key: int, m: nat, dest: seq<int>)
    requires m <= |keys| == |dest|
    ensures var ks := Inserted(keys, m, key);
      ks[m] == key && ArrayMove(dest, 0, keys, m, |keys|)[..|keys| - m] == ks[m + 1..] && keys[..m] == ks[..m]
  {
    hide *;
    MoveCells(dest, 0, keys, m, |keys|);
    InsertedCells(keys, m, key);
    var l, ks := ArrayMove(dest, 0, keys, m, |keys|)[..|keys| - m], Inserted(keys, m, key);
    assert forall i :: 0 <= i < |l| ==> l[i] == ks[m + 1 + i];
    assert forall i :: 0 <= i < m ==> keys[i] == ks[i];
  }

  // opening a hole at the front leaves its old cells in it
  lemma InsertKeepsFront<T>(buf: seq<T>, size: nat, count: nat)
    requires size + count <= |buf|
    ensures ArrayInsert(buf, 0, size, count)[..size + count] == buf[..count] + buf[..size]
  {
    hide *;
    InsertCells(buf, 0, size, count);
    var l, r := ArrayInsert(buf, 0, size, count)[..size + count], buf[..count] + buf[..size];
    assert forall i :: 0 <= i < |l| ==> l[i] == r[i];
  }

  // ---------- keys of two branches and the parent's separator pk between them

  lemma MergeKeys(lk: seq<int>, ls: nat, rk: seq<int>, rs: nat, pk: int)
    requires ls + 1 + rs <= |lk| && rs <= |rk|
    ensures ArrayMove(lk[ls := pk], ls + 1, rk, 0, rs)[..ls + 1 + rs] == lk[..ls] + [pk] + rk[..rs]
  {
    hide *;
    MoveCells(lk[ls := pk], ls + 1, rk, 0, rs);
    var l, r := ArrayMove(lk[ls := pk], ls + 1, rk, 0, rs)[..ls + 1 + rs], lk[..ls] + [pk] + rk[..rs];
    assert forall i :: 0 <= i < |l| ==> l[i] == r[i];
  }

  lemma PushKeys(lk: seq<int>, ls: nat, rk: seq<int>, rs: nat, m: nat, pk: int, junk: int)
    requires m < ls <= |lk| && rs + (ls - m) <= |rk|
    ensures ArrayMove(ArrayInsert(rk, 0, rs, ls - m)[ls - m - 1 := pk], 0, lk[m := junk], m + 1, ls)[..rs + (ls - m)]
      == (lk[..ls] + [pk] + rk[..rs])[m + 1..]
    ensures lk[m := junk][..m] == (lk[..ls] + [pk] + rk[..rs])[..m] && lk[m] == (lk[..ls] + [pk] + rk[..rs])[m]
  {
    hide *;
    var spread := ArrayInsert(rk, 0, rs, ls - m)[ls - m - 1 := pk];
    InsertCells(rk, 0, rs, ls - m);
    MoveCells(spread, 0, lk[m := junk], m + 1, ls);
    var l, ks := ArrayMove(spread, 0, lk[m := junk], m + 1, ls)[..rs + (ls - m)], lk[..ls] + [pk] + rk[..rs];
    assert forall i :: 0 <= i < |l| ==> l[i] == ks[m + 1 + i];
    assert forall i :: 0 <= i < m ==> lk[m := junk][i] == ks[i];
  }

  lemma PullKeysLeft(lk: seq<int>, ls: nat, rk: seq<int>, rs: nat, k: nat, pk: int, junk: int)
    requires 0 < k <= rs <= |rk| && ls + k <= |lk|
    ensures ArrayMove(lk[ls := pk], ls + 1, rk[k - 1 := junk], 0, k - 1)[..ls + k]
      == (lk[..ls] + [pk] + rk[..rs])[..ls + k]
  {
    hide *;
    MoveCells(lk[ls := pk], ls + 1, rk[k - 1 := junk], 0, k - 1);
    var l := ArrayMove(lk[ls := pk], ls + 1, rk[k - 1 := junk], 0, k - 1)[..ls + k];
    var ks := lk[..ls] + [pk] + rk[..rs];
    assert forall i :: 0 <= i < |l| ==> l[i] == ks[i];
  }

  lemma PullKeysRight(lk: seq<int>, ls: nat, rk: seq<int>, rs: nat, k: nat, pk: int, junk: int)
    requires 0 < k <= rs <= |rk| && ls <= |lk|
    ensures ArrayDelete(rk[k - 1 := junk], 0, rs, k)[..rs - k] == (lk[..ls] + [pk] + rk[..rs])[ls + k + 1..]
    ensures rk[k - 1] == (lk[..ls] + [pk] + rk[..rs])[ls + k]
  {
    hide *;
    DeleteCells(rk[k - 1 := junk], 0, rs, k);
    var r, ks := ArrayDelete(rk[k - 1 := junk], 0, rs, k)[..rs - k], lk[..ls] + [pk] + rk[..rs];
    assert forall i :: 0 <= i < |r| ==> r[i] == ks[ls + k + 1 + i];
  }
}
