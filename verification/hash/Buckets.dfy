// Records of the hash file: a fixed buffer of slots, a size, and the link to the next overflow record.
module HashBuckets {
  import opened HashLayout

  class Bucket {
    var size: nat
    var link: Bucket?
    var slots: seq<Item>  // _ItemType slots_[CAPACITY]

    constructor (capacity: nat)
      ensures size == 0 && link == null && |slots| == capacity
    {
      size, link := 0, null;
      slots := seq(capacity, _ => Item(0, 0));
    }

    predicate Full()
      reads this
    {
      size == |slots|
    }

    // the live items
    ghost function Items(): seq<Item>
      reads this
    {
      if size <= |slots| then slots[..size] else slots
    }

    // The original skips the copy when the item already stands in the next slot; the result is the same.
    method Add(item: Item)
      requires size < |slots|
      modifies this`size, this`slots
      ensures size == old(size) + 1 && slots == old(slots)[old(size) := item] && Items() == old(Items()) + [item]
    {
      slots := slots[size := item];
      size := size + 1;
    }

    method Search(key: int) returns (i: nat, found: bool)
      requires size <= |slots|
      ensures found ==> i < size && slots[i].key == key
      ensures !found ==> forall k :: 0 <= k < size ==> slots[k].key != key
    {
      for n := 0 to size
        invariant forall k :: 0 <= k < n ==> slots[k].key != key
      {
        if slots[n].key == key {
          return n, true;
        }
      }
      return 0, false;
    }
  }

  // ---------- the records of a chain as values

  datatype Cell = Cell(size: nat, slots: seq<Item>)

  ghost function CellOf(b: Bucket): Cell
    reads b`size, b`slots
  {
    Cell(b.size, b.slots)
  }

  ghost function Cells(chain: seq<Bucket>): (cs: seq<Cell>)
    reads chain`size, chain`slots
    ensures |cs| == |chain| && forall k {:trigger cs[k]} :: 0 <= k < |cs| ==> cs[k] == CellOf(chain[k])
  {
    if chain == [] then [] else Cells(chain[..|chain| - 1]) + [CellOf(chain[|chain| - 1])]
  }

  ghost function Live(cell: Cell): seq<Item> { if cell.size
      <= |cell.slots| then cell.slots[..cell.size] else cell.slots }

  ghost predicate Distinct(chain: seq<Bucket>) { forall i, j :: 0 <= i < j < |chain| ==> chain[i] != chain[j] }

  lemma CellsOne(cs: seq<Cell>, chain: seq<Bucket>, w: nat)
    requires |cs| == |chain| && w < |chain|
    requires forall k :: 0 <= k < |chain| && k != w ==> CellOf(chain[k]) == cs[k]
    ensures Cells(chain) == cs[w := CellOf(chain[w])]
  {
  }

  ghost predicate LinkOk(chain: seq<Bucket>, k: nat)
    requires k < |chain|
    reads chain`link
  {
    chain[k].link == if k + 1 < |chain| then chain[k + 1] else null
  }

  ghost predicate Linked(p: Bucket, chain: seq<Bucket>)
    reads p`link, chain`link
  {
    && p.link == (if chain == [] then null else chain[0])
    && forall k {:trigger LinkOk(chain, k)} :: 0 <= k < |chain| ==> LinkOk(chain, k)
  }

  // ---------- records against a layout

  ghost predicate PartAt(cs: seq<Cell>, l: Lay, c: Capacity, k: nat)
  {
    k < |cs| && k < |l.parts| && |cs[k].slots| == c.overflow && cs[k].size == |l.parts[k]| && Live(cs[k]) == l.parts[k]
  }

  // the first records hold the overflow items of the layout; the records behind may hold anything
  ghost predicate Holds(cs: seq<Cell>, l: Lay, c: Capacity)
  {
    |l.parts| <= |cs| && forall k {:trigger PartAt(cs, l, c, k)} :: 0 <= k < |l.parts| ==> PartAt(cs, l, c, k)
  }

  ghost predicate First(p: Cell, l: Lay, c: Capacity)
  {
    |p.slots| == c.primary && p.size == |l.first| && Live(p) == l.first
  }

  ghost predicate Roomy(cs: seq<Cell>, c: Capacity) { forall k {:trigger cs[k]} ::
      0 <= k < |cs| ==> |cs[k].slots| == c.overflow }

  // where the next overflow item goes
  ghost function At(l: Lay, c: Capacity): nat
  {
    var n := |l.parts|;
    if n == 0 then 0 else if |l.parts[n - 1]| == c.overflow then n else n - 1
  }

  ghost function SlotAt(l: Lay, c: Capacity): nat
  {
    var n := |l.parts|;
    if n == 0 || |l.parts[n - 1]| == c.overflow then 0 else |l.parts[n - 1]|
  }

  ghost function Written(cs: seq<Cell>, l: Lay, x: Item, c: Capacity): (t: seq<Cell>)
    ensures |t| == |cs|
  {
    var w, s := At(l, c), SlotAt(l, c);
    if w < |cs| && s < |cs[w].slots| then cs[w := Cell(s + 1, cs[w].slots[s := x])] else cs
  }

  lemma WrittenHolds(cs: seq<Cell>, l: Lay, x: Item, c: Capacity)
    requires Holds(cs, l, c) && Shaped(l, c) && |l.first| == c.primary && c.overflow > 0 && Roomy(cs, c)
      && At(l, c) < |cs|
    ensures Holds(Written(cs, l, x, c), Put(l, x, c), c) && Roomy(Written(cs, l, x, c), c)
    ensures SlotAt(l, c) < c.overflow && |Put(l, x, c).parts| == At(l, c) + 1
  {
    var t, u := Written(cs, l, x, c), Put(l, x, c);
    var w, s := At(l, c), SlotAt(l, c);
    if s > 0 { assert PartAt(cs, l, c, w); }
    assert t[w] == Cell(s + 1, cs[w].slots[s := x]);
    assert Live(t[w]) == cs[w].slots[..s] + [x];
    forall k | 0 <= k < |u.parts| ensures PartAt(t, u, c, k) {
      if k != w { assert PartAt(cs, l, c, k); }
    }
  }
}
