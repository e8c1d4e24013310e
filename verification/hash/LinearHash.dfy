// The hash file: header counters, primary records, and chains of overflow records.
module HashTable {
  import opened HashAddressing
  import opened HashLayout
  import opened HashBuckets
  import opened HashSplitting

  // a primary record with its whole chain
  ghost predicate SlotOk(p: Bucket, chain: seq<Bucket>, l: Lay, c: Capacity)
    reads p, chain
  {
    && Linked(p, chain) && Distinct(chain) && p !in chain && First(CellOf(p), l, c)
    && Holds(Cells(chain), l, c) && |l.parts| == |chain| && Roomy(Cells(chain), c) && Shaped(l, c)
  }

  // the two records of a split, while their chains are being written
  datatype Halves = Halves(lo: Lay, ln: Lay, newChain: seq<Bucket>)

  ghost predicate OldHalf(p: Bucket, chain: seq<Bucket>, l: Lay, c: Capacity)
    reads p, chain
  {
    && Linked(p, chain) && Distinct(chain) && p !in chain && First(CellOf(p), l, c)
    && Holds(Cells(chain), l, c) && Roomy(Cells(chain), c) && Shaped(l, c)
  }

  ghost predicate Separate(p: Bucket, chain: seq<Bucket>, q: Bucket, other: seq<Bucket>)
  {
    p != q && p !in other && q !in chain && forall b :: b in chain ==> b !in other
  }

  lemma FirstMore(p: Cell, x: Item, l: Lay, c: Capacity)
    requires First(p, l, c) && |l.first| < c.primary
    ensures p.size < |p.slots| && First(Cell(p.size + 1, p.slots[p.size := x]), Put(l, x, c), c)
    ensures Put(l, x, c).parts == l.parts && |Put(l, x, c).first| == |l.first| + 1
  {
  }

  lemma FirstFull(p: Cell, x: Item, l: Lay, c: Capacity)
    requires First(p, l, c) && Shaped(l, c)
    ensures p.size == |p.slots| <==> |l.first| == c.primary
    ensures |l.first| <= c.primary && (|l.first| == c.primary ==>
      First(p, Put(l, x, c), c) && |Put(l, x, c).first| == |l.first|)
  {
  }

  lemma LastIs(chain: seq<Bucket>, l: Lay)
    ensures l.parts != [] && |l.parts| <= |chain| ==> LastOf(chain, l) == chain[|l.parts| - 1]
    ensures forall t: Lay :: t.parts == l.parts ==> LastOf(chain, t) == LastOf(chain, l)
  {
  }

  lemma HoldsSame(cs: seq<Cell>, l: Lay, t: Lay, c: Capacity)
    requires Holds(cs, l, c) && t.parts == l.parts
    ensures Holds(cs, t, c)
  {
    forall k | 0 <= k < |t.parts| ensures PartAt(cs, t, c, k) { assert PartAt(cs, l, c, k); }
  }

  lemma CellIs(b: Bucket)
    ensures CellOf(b) == Cell(b.size, b.slots)
  {
  }

  lemma OpenHalf(p: Bucket, chain: seq<Bucket>, l: Lay, c: Capacity)
    requires OldHalf(p, chain, l, c)
    ensures Linked(p, chain) && Distinct(chain) && p !in chain && First(CellOf(p), l, c)
    ensures Holds(Cells(chain), l, c) && Roomy(Cells(chain), c) && Shaped(l, c) && |Cells(chain)| == |chain|
  {
  }

  lemma CloseHalf(p: Bucket, chain: seq<Bucket>, l: Lay, c: Capacity)
    requires Linked(p, chain) && Distinct(chain) && p !in chain && First(CellOf(p), l, c)
    requires Holds(Cells(chain), l, c) && Roomy(Cells(chain), c) && Shaped(l, c)
    ensures OldHalf(p, chain, l, c)
  {
  }

  // one more item in a primary record that has room
  method AddFirst(p: Bucket, x: Item, ghost chain: seq<Bucket>, ghost l: Lay, ghost c: Capacity)
    requires OldHalf(p, chain, l, c) && |l.first| < c.primary && c.overflow > 0
    modifies p`size, p`slots
    ensures OldHalf(p, chain, Put(l, x, c), c) && Cells(chain) == old(Cells(chain))
    ensures |Put(l, x, c).first| == |l.first| + 1 && Put(l, x, c).parts == l.parts
  {
    hide *;
    OpenHalf(p, chain, l, c);
    CellIs(p);
    FirstMore(CellOf(p), x, l, c);
    PutOk(l, x, c);
    HoldsSame(Cells(chain), l, Put(l, x, c), c);
    p.Add(x);
    CellIs(p);
    CloseHalf(p, chain, Put(l, x, c), c);
  }

  // keys that stay in slot s when the level grows
  ghost function StaysIn(hash: int -> nat, level: nat, s: nat): int -> bool
  {
    k => HashLevel(hash(k), level + 1) == s
  }

  lemma StaysIs(hash: int -> nat, level: nat, s: nat, key: int)
    ensures StaysIn(hash, level, s)(key) <==> HashLevel(hash(key), level + 1) == s
  {
  }

  // the state of a split at item i of record j: read has been shared out
  ghost predicate Mid(p: Bucket, q: Bucket, oldOverflow: Bucket?, newOverflow: Bucket?, chain: seq<Bucket>, h: Halves,
                      l0: Lay, read: seq<Item>, stays: int -> bool, c: Capacity, j: nat, i: nat)
    reads p, q, chain, h.newChain
  {
    && OldHalf(p, chain, h.lo, c) && OldHalf(q, h.newChain, h.ln, c) && |h.ln.parts| == |h.newChain|
      && Separate(p, chain, q, h.newChain)
    && oldOverflow == LastOf(chain, h.lo) && newOverflow == LastOf(h.newChain, h.ln)
    && Unread(Cells(chain), l0, h.lo, c, j, i) && Shares(h.lo, h.ln, read, stays, c)
  }

  // the item read next, and that it has not been counted as placed
  lemma ReadNext(chain: seq<Bucket>, h: Halves, l0: Lay, read: seq<Item>, stays: int -> bool, c: Capacity, j: nat,
      i: nat)
    requires Unread(Cells(chain), l0, h.lo, c, j, i) && Shares(h.lo, h.ln, read, stays, c) && j < |chain|
    ensures j < |l0.parts| && i <= |l0.parts[j]|
      && (i < |l0.parts[j]| ==> i < |chain[j].slots| && chain[j].slots[i] == l0.parts[j][i])
    ensures i == 0 && (h.lo.parts == [] || |h.lo.parts| - 1 < j) ==> chain[j].size == |l0.parts[j]|
    ensures |h.lo.first| + |h.ln.first| <= |read|
  {
    assert Cells(chain)[j] == CellOf(chain[j]);
    SharesSize(h.lo, h.ln, read, stays, c);
  }

  lemma MidStarts(p: Bucket, q: Bucket, oldOverflow: Bucket?, newOverflow: Bucket?, chain: seq<Bucket>, h: Halves,
                  l0: Lay, read: seq<Item>, stays: int -> bool, c: Capacity, j: nat, i: nat)
    requires Mid(p, q, oldOverflow, newOverflow, chain, h, l0, read, stays, c, j, i) && j < |chain|
    ensures j < |l0.parts| && i <= |l0.parts[j]|
      && (i < |l0.parts[j]| ==> i < |chain[j].slots| && chain[j].slots[i] == l0.parts[j][i])
    ensures i == 0 ==> chain[j].size == |l0.parts[j]|
    ensures |h.lo.first| + |h.ln.first| <= |read|
  {
    ReadNext(chain, h, l0, read, stays, c, j, i);
    hide Cells;
    OpenHalf(p, chain, h.lo, c);
    hide OldHalf, Shares, Separate, LastOf;
    if i == 0 && h.lo.parts != [] { HeadOfUnread(Cells(chain), l0, h.lo, c, j); }
  }

  lemma HeadOfUnread(cs: seq<Cell>, l0: Lay, lo: Lay, c: Capacity, j: nat)
    requires Unread(cs, l0, lo, c, j, 0) && Holds(cs, lo, c) && Shaped(lo, c) && j < |cs|
    ensures lo.parts == [] || |lo.parts| - 1 < j
  {
  }

  lemma MidNext(p: Bucket, q: Bucket, oldOverflow: Bucket?, newOverflow: Bucket?, chain: seq<Bucket>, h: Halves,
                l0: Lay, read: seq<Item>, stays: int -> bool, c: Capacity, j: nat)
    requires j < |chain| && j < |l0.parts| && |l0.parts| == |chain| && Shaped(l0, c)
    requires Mid(p, q, oldOverflow, newOverflow, chain, h, l0, read, stays, c, j, |l0.parts[j]|)
    ensures Mid(p, q, oldOverflow, newOverflow, chain, h, l0, read, stays, c, j + 1, 0)
  {
    hide OldHalf, Shares, Separate, LastOf, Unread, Shaped, Cells;
    UnreadNext(Cells(chain), l0, h.lo, c, j);
  }

  lemma ReadSoFar(l0: Lay, j: nat)
    requires j <= |l0.parts|
    ensures j < |l0.parts| ==> l0.first + Concat(l0.parts[..j + 1]) == l0.first + Concat(l0.parts[..j]) + l0.parts[j]
    ensures |l0.first + Concat(l0.parts[..j])| + (if j < |l0.parts| then |l0.parts[j]| else 0) <= |All(l0)|
    ensures Concat(l0.parts[..0]) == [] && l0.first + Concat(l0.parts[..0]) == l0.first
    ensures l0.first + Concat(l0.parts[..|l0.parts|]) == All(l0)
  {
    if j < |l0.parts| {
      assert l0.parts[..j + 1][..j] == l0.parts[..j];
      ConcatGrows(l0.parts, j + 1);
    }
    ConcatGrows(l0.parts, j);
    assert l0.parts[..|l0.parts|] == l0.parts;
  }

  lemma {:induction false} ConcatGrows(parts: seq<seq<Item>>, j: nat)
    requires j <= |parts|
    ensures |Concat(parts[..j])| <= |Concat(parts)|
    decreases |parts| - j
  {
    if j == |parts| {
      assert parts[..j] == parts;
    } else {
      assert parts[..j + 1][..j] == parts[..j];
      ConcatGrows(parts, j + 1);
    }
  }

  lemma ChainHead(p: Bucket, q: Bucket, oldOverflow: Bucket?, newOverflow: Bucket?, chain: seq<Bucket>, h: Halves,
                  l0: Lay, read: seq<Item>, stays: int -> bool, c: Capacity, j: nat)
    requires exists k: nat :: Mid(p, q, oldOverflow, newOverflow, chain, h, l0, read, stays, c, k, 0)
    ensures p.link == if chain == [] then null else chain[0]
    ensures j < |chain| ==> chain[j].link == if j + 1 < |chain| then chain[j + 1] else null
  {
    var k: nat :| Mid(p, q, oldOverflow, newOverflow, chain, h, l0, read, stays, c, k, 0);
    hide Unread, Shares, Separate, LastOf, First, Holds, Roomy, Shaped;
    if j < |chain| { assert LinkOk(chain, j); }
  }

  lemma NothingRead(q: seq<Item>, stays: int -> bool)
    ensures q[..0] == [] && Chosen(q[..0], stays) == []
  {
  }

  lemma AllRead(q: seq<Item>)
    ensures q[..|q|] == q
  {
  }

  // after the primary record has been shared out, before any overflow record is read
  lemma MidBegins(p: Bucket, q: Bucket, chain: seq<Bucket>, l0: Lay, kept: seq<Item>, gone: seq<Item>,
      stays: int -> bool, c: Capacity)
    requires Linked(p, chain) && Distinct(chain) && p !in chain && Holds(Cells(chain), l0, c) && Roomy(Cells(chain), c)
      && Shaped(l0, c)
    requires |l0.parts| == |chain| && p != q && q !in chain && q.link == null && q.size <= |q.slots| == c.primary
      && p.size <= |p.slots| == c.primary
    requires p.Items() == kept && q.Items() == gone && kept == Chosen(l0.first, stays)
      && gone == Chosen(l0.first, Others(stays))
    ensures Mid(p, q, null, null, chain, Halves(Lay(kept, []), Lay(gone, []), []), l0, l0.first, stays, c, 0, 0)
  {
    UnreadStart(Cells(chain), l0, Lay(kept, []), c);
    hide Unread, Chosen;
  }

  lemma TrimmedCells(chain: seq<Bucket>, w: nat)
    requires w <= |chain|
    ensures Cells(chain[..w]) == Cells(chain)[..w]
  {
  }

  lemma TrimmedHolds(cs: seq<Cell>, l: Lay, c: Capacity, w: nat)
    requires Holds(cs, l, c) && Roomy(cs, c) && |l.parts| == w <= |cs|
    ensures Holds(cs[..w], l, c) && Roomy(cs[..w], c)
  {
    forall k | 0 <= k < w ensures PartAt(cs[..w], l, c, k) { assert PartAt(cs, l, c, k); }
  }

  lemma HalfParts(p: Bucket, chain: seq<Bucket>, l: Lay, c: Capacity)
    requires OldHalf(p, chain, l, c)
    ensures |l.parts| <= |chain| && p.link == (if chain == [] then null else chain[0])
    ensures forall k :: 0 <= k < |chain| ==> LinkOk(chain, k)
    ensures p !in chain && Distinct(chain)
  {
  }

  lemma TrimmedLinks(p: Bucket, chain: seq<Bucket>, w: nat)
    requires w <= |chain| && (if w == 0 then p.link == null else p.link == chain[0] && chain[w - 1].link == null)
    requires forall k :: 0 <= k < w - 1 ==> LinkOk(chain, k)
    ensures Linked(p, chain[..w])
  {
    forall k | 0 <= k < w ensures LinkOk(chain[..w], k) {
      if k < w - 1 { assert LinkOk(chain, k); }
    }
  }

  lemma CloseSlot(p: Bucket, chain: seq<Bucket>, l: Lay, c: Capacity)
    requires Linked(p, chain) && Distinct(chain) && p !in chain && First(CellOf(p), l, c)
    requires Holds(Cells(chain), l, c) && |l.parts| == |chain| && Roomy(Cells(chain), c) && Shaped(l, c)
    ensures SlotOk(p, chain, l, c)
  {
  }

  lemma OpenSlot(p: Bucket, chain: seq<Bucket>, l: Lay, c: Capacity)
    requires SlotOk(p, chain, l, c)
    ensures OldHalf(p, chain, l, c) && |l.parts| == |chain| && Distinct(chain)
    ensures Linked(p, chain) && Distinct(chain) && p !in chain && First(CellOf(p), l, c)
    ensures Holds(Cells(chain), l, c) && Roomy(Cells(chain), c) && Shaped(l, c) && |Cells(chain)| == |chain|
  {
  }

  lemma FreshSlot(record: Bucket, c: Capacity)
    requires record.size == 0 && record.link == null && |record.slots| == c.primary
    ensures SlotOk(record, [], Lay([], []), c) && Owned([record], [[]], map[record := 0])
  {
  }

  lemma FreshTotals(lays: seq<Lay>, hash: int -> nat)
    requires lays == [Lay([], [])]
    ensures FirstTotal(lays) == 0 && OverTotal(lays) == 0 && PartTotal(lays) == 0 && Stored(lays, map[], hash, 0, 0)
      && Pow2(0) == 1
  {
    assert lays[..0] == [] && Concat([]) == [];
    hide HashSlot;
  }

  // a slot whose records are sound, whatever their sizes
  ghost predicate SlotFormed(p: Bucket, chain: seq<Bucket>, l: Lay, c: Capacity)
    reads p, chain
  {
    && Linked(p, chain) && Distinct(chain) && p !in chain && First(CellOf(p), l, c)
    && Holds(Cells(chain), l, c) && |l.parts| == |chain| && Roomy(Cells(chain), c)
  }

  lemma SlotFormedParts(p: Bucket, chain: seq<Bucket>, l: Lay, c: Capacity)
    requires SlotFormed(p, chain, l, c)
    ensures |l.parts| == |chain| && Distinct(chain) && Linked(p, chain) && First(CellOf(p), l, c)
      && Holds(Cells(chain), l, c)
    ensures |l.first| <= c.primary && forall k :: 0 <= k < |l.parts| ==> |l.parts[k]| <= c.overflow
  {
    forall k | 0 <= k < |l.parts| ensures |l.parts[k]| <= c.overflow { assert PartAt(Cells(chain), l, c, k); }
  }

  lemma SlotIs(p: Bucket, chain: seq<Bucket>, l: Lay, c: Capacity)
    requires SlotFormed(p, chain, l, c)
    ensures SlotOk(p, chain, l, c) <==> Shaped(l, c)
  {
    hide Linked, Distinct, Holds, First, Roomy, Shaped;
  }

  ghost predicate NoneEmpty(l: Lay) { forall k :: 0 <= k < |l.parts| ==> l.parts[k] != [] }

  // no key twice, and every item is in the map with its value
  ghost predicate Recorded(q: seq<Item>, model: map<int, int>)
  {
    DistinctKeys(q) && forall i {:trigger q[i]} :: 0 <= i < |q| ==> q[i].key in model && model[q[i].key] == q[i].value
  }

  lemma SlotFromHalf(p: Bucket, chain: seq<Bucket>, l: Lay, c: Capacity)
    requires OldHalf(p, chain, l, c) && |l.parts| == |chain|
    ensures SlotOk(p, chain, l, c)
  {
  }

  lemma FirstIs(p: Bucket, l: Lay, c: Capacity)
    requires First(CellOf(p), l, c) && Shaped(l, c)
    ensures p.size <= |p.slots| == c.primary && p.Items() == l.first && p.size == |l.first|
  {
  }

  lemma AllSize(l: Lay)
    ensures |All(l)| == |l.first| + |Concat(l.parts)|
  {
  }

  lemma ChosenSize(q: seq<Item>, stays: int -> bool)
    ensures |Chosen(q, stays)| + |Chosen(q, Others(stays))| == |q|
  {
    ChosenAll(q, stays);
    hide Chosen;
    assert |multiset(Chosen(q, stays)) + multiset(Chosen(q, Others(stays)))| == |multiset(q)|;
  }

  lemma MidEnds(p: Bucket, q: Bucket, oldOverflow: Bucket?, newOverflow: Bucket?, chain: seq<Bucket>, h: Halves,
                l0: Lay, read: seq<Item>, stays: int -> bool, c: Capacity, j: nat)
    requires Mid(p, q, oldOverflow, newOverflow, chain, h, l0, read, stays, c, j, 0)
    ensures OldHalf(p, chain, h.lo, c) && OldHalf(q, h.newChain, h.ln, c) && |h.ln.parts| == |h.newChain|
      && oldOverflow == LastOf(chain, h.lo)
    ensures Separate(p, chain, q, h.newChain) && |h.lo.parts| <= |chain| && p != q && q !in chain && p !in h.newChain
    ensures forall b :: b in h.newChain ==> b !in chain
    ensures All(h.lo) == Chosen(read, stays) && All(h.ln) == Chosen(read, Others(stays))
  {
    hide Unread, Shaped, All, Chosen, Linked, Roomy, First, Distinct;
  }

  // ---------- the whole file

  // every record belongs to one slot
  ghost predicate Owned(primary: seq<Bucket>, chains: seq<seq<Bucket>>, owner: map<Bucket, nat>)
    requires |chains| == |primary|
  {
    forall s {:trigger primary[s]} {:trigger chains[s]} :: 0 <= s < |primary| ==>
      primary[s] in owner && owner[primary[s]] == s && forall b :: b in chains[s] ==> b in owner && owner[b] == s
  }

  // all slots, against the layouts
  ghost predicate SlotsOk(primary: seq<Bucket>, chains: seq<seq<Bucket>>, lays: seq<Lay>, c: Capacity,
      owner: map<Bucket, nat>)
    requires |chains| == |primary| == |lays| && Owned(primary, chains, owner)
    reads owner.Keys
  {
    forall s {:trigger chains[s]} {:trigger lays[s]} :: 0 <= s < |primary| ==> SlotOk(primary[s], chains[s], lays[s], c)
  }

  ghost function FirstTotal(lays: seq<Lay>): nat
  {
    if lays == [] then 0 else FirstTotal(lays[..|lays| - 1]) + |lays[|lays| - 1].first|
  }

  ghost function OverTotal(lays: seq<Lay>): nat
  {
    if lays == [] then 0 else OverTotal(lays[..|lays| - 1]) + |Concat(lays[|lays| - 1].parts)|
  }

  ghost function PartTotal(lays: seq<Lay>): nat
  {
    if lays == [] then 0 else PartTotal(lays[..|lays| - 1]) + |lays[|lays| - 1].parts|
  }

  lemma {:induction false} Totals(lays: seq<Lay>, s: nat, l: Lay)
    requires s < |lays|
    ensures FirstTotal(lays[s := l]) + |lays[s].first| == FirstTotal(lays) + |l.first|
    ensures OverTotal(lays[s := l]) + |Concat(lays[s].parts)| == OverTotal(lays) + |Concat(l.parts)|
    ensures PartTotal(lays[s := l]) + |lays[s].parts| == PartTotal(lays) + |l.parts|
    ensures |Concat(lays[s].parts)| <= OverTotal(lays) && |lays[s].parts| <= PartTotal(lays)
      && |lays[s].first| <= FirstTotal(lays)
  {
    var n := |lays| - 1;
    var t := lays[s := l];
    if s < n {
      Totals(lays[..n], s, l);
      assert t[..n] == lays[..n][s := l] && t[n] == lays[n];
    } else {
      assert t[..n] == lays[..n];
    }
  }

  lemma TotalsMore(lays: seq<Lay>, l: Lay)
    ensures FirstTotal(lays + [l]) == FirstTotal(lays) + |l.first|
    ensures OverTotal(lays + [l]) == OverTotal(lays) + |Concat(l.parts)|
    ensures PartTotal(lays + [l]) == PartTotal(lays) + |l.parts|
  {
    assert (lays + [l])[..|lays|] == lays;
  }

  // the items of slot s, against the map of all items
  ghost predicate ItemsOk(q: seq<Item>, s: nat, model: map<int, int>, hash: int -> nat, level: nat, splitSlot: nat)
  {
    && DistinctKeys(q)
    && forall i {:trigger q[i]} :: 0 <= i < |q| ==>
         q[i].key in model && model[q[i].key] == q[i].value && HashSlot(hash(q[i].key), level, splitSlot) == s
  }

  ghost predicate HasItem(q: seq<Item>, key: int) { exists i :: 0 <= i < |q| && q[i].key == key }

  ghost predicate Stored(lays: seq<Lay>, model: map<int, int>, hash: int -> nat, level: nat, splitSlot: nat)
  {
    && (forall s {:trigger lays[s]} :: 0 <= s < |lays| ==> ItemsOk(All(lays[s]), s, model, hash, level, splitSlot))
    && (forall key {:trigger model[key]} :: key in model ==>
          var s := HashSlot(hash(key), level, splitSlot); s < |lays| && HasItem(All(lays[s]), key))
  }

  lemma PartHere(chain: seq<Bucket>, l: Lay, c: Capacity, k: nat)
    requires Holds(Cells(chain), l, c) && |l.parts| == |chain| && k < |chain|
    ensures chain[k].size == |l.parts[k]| <= |chain[k].slots| == c.overflow && forall i ::
      0 <= i < chain[k].size ==> chain[k].slots[i] == l.parts[k][i]
  {
    assert PartAt(Cells(chain), l, c, k);
    assert Cells(chain)[k] == CellOf(chain[k]);
  }

  lemma FirstHere(p: Bucket, l: Lay, c: Capacity)
    requires First(CellOf(p), l, c)
    ensures p.size == |l.first| <= |p.slots| == c.primary && forall i :: 0 <= i < p.size ==> p.slots[i] == l.first[i]
  {
  }

  lemma LinksHere(p: Bucket, chain: seq<Bucket>, k: nat)
    requires Linked(p, chain)
    ensures p.link == (if chain == [] then null else chain[0])
    ensures k < |chain| ==> chain[k].link == if k + 1 < |chain| then chain[k + 1] else null
  {
    if k < |chain| { assert LinkOk(chain, k); }
  }

  // an item is in the map exactly when it lies in the slot of its key
  lemma StoredHere(lays: seq<Lay>, model: map<int, int>, hash: int -> nat, level: nat, splitSlot: nat, key: int)
    requires Stored(lays, model, hash, level, splitSlot) && splitSlot < Pow2(level) && |lays| == Pow2(level) + splitSlot
    ensures var s := HashSlot(hash(key), level, splitSlot);
      && s < |lays| && ItemsOk(All(lays[s]), s, model, hash, level, splitSlot)
      && (key in model <==> HasItem(All(lays[s]), key))
      && forall i ::
        0 <= i < |All(lays[s])| && All(lays[s])[i].key == key ==> key in model && model[key] == All(lays[s])[i].value
  {
    SlotInRange(hash(key), level, splitSlot);
    var s := HashSlot(hash(key), level, splitSlot);
    hide HashSlot, All;
    assert ItemsOk(All(lays[s]), s, model, hash, level, splitSlot);
    if key in model { assert model[key] == model[key]; }
  }

  lemma FreeHas(l: Lay, key: int)
    requires Free(l.first, key) && forall k :: 0 <= k < |l.parts| ==> Free(l.parts[k], key)
    ensures !HasItem(All(l), key)
  {
    ConcatFree(l.parts, key);
  }

  // the place of an item in the records of its slot
  ghost predicate Found(b: Bucket, i: nat, place: Place, l: Lay, p: Bucket, chain: seq<Bucket>)
    reads b
  {
    && PlaceOk(l, place) && i == place.i && i < b.size <= |b.slots| && b.slots[i] == ItemAt(l, place)
    && match place { case InFirst(_) => b == p case InPart(k, _) => k < |chain| && b == chain[k] }
  }

  // ---------- one item changes or enters, seen from the whole file

  lemma ItemsElse(q: seq<Item>, t: nat, model: map<int, int>, hash: int -> nat, level: nat, splitSlot: nat, key: int,
      value: int)
    requires ItemsOk(q, t, model, hash, level, splitSlot) && HashSlot(hash(key), level, splitSlot) != t
    ensures ItemsOk(q, t, model[key := value], hash, level, splitSlot)
  {
    hide HashSlot;
  }

  lemma HasMore(q: seq<Item>, r: seq<Item>, key: int)
    requires HasItem(q, key) && |q| <= |r| && forall i :: 0 <= i < |q| ==> r[i].key == q[i].key
    ensures HasItem(r, key)
  {
    var i :| 0 <= i < |q| && q[i].key == key;
    assert r[i].key == key;
  }

  // slot s gets the items r, which tell the same keys but for one that is set to value
  lemma SetStored(lays: seq<Lay>, model: map<int, int>, hash: int -> nat, level: nat, splitSlot: nat, s: nat, l: Lay,
      key: int, value: int)
    requires Stored(lays, model, hash, level, splitSlot) && s < |lays| && s == HashSlot(hash(key), level, splitSlot)
    requires |All(lays[s])| <= |All(l)| && forall i :: 0 <= i < |All(lays[s])| ==> All(l)[i].key == All(lays[s])[i].key
    requires ItemsOk(All(l), s, model[key := value], hash, level, splitSlot) && HasItem(All(l), key)
    ensures Stored(lays[s := l], model[key := value], hash, level, splitSlot)
  {
    var u, m := lays[s := l], model[key := value];
    hide All, HashSlot, ItemsOk, HasItem;
    forall t | 0 <= t < |u| ensures ItemsOk(All(u[t]), t, m, hash, level, splitSlot) {
      if t != s { ItemsElse(All(lays[t]), t, model, hash, level, splitSlot, key, value); }
    }
    forall k | k in m ensures var t := HashSlot(hash(k), level, splitSlot); t < |u| && HasItem(All(u[t]), k) {
      if k != key {
        assert model[k] == m[k];
        if HashSlot(hash(k), level, splitSlot) == s { HasMore(All(lays[s]), All(l), k); }
      }
    }
  }

  lemma SetItems(q: seq<Item>, s: nat, model: map<int, int>, hash: int -> nat, level: nat, splitSlot: nat, n: nat,
      value: int)
    requires ItemsOk(q, s, model, hash, level, splitSlot) && n < |q|
    ensures var x := Item(q[n].key, value);
      ItemsOk(q[n := x], s, model[x.key := value], hash, level, splitSlot) && HasItem(q[n := x], x.key)
  {
    hide HashSlot;
    assert q[n := Item(q[n].key, value)][n].key == q[n].key;
  }

  lemma MoreItems(q: seq<Item>, s: nat, model: map<int, int>, hash: int -> nat, level: nat, splitSlot: nat, x: Item)
    requires ItemsOk(q, s, model, hash, level, splitSlot) && x.key !in model
      && s == HashSlot(hash(x.key), level, splitSlot)
    ensures ItemsOk(q + [x], s, model[x.key := x.value], hash, level, splitSlot) && HasItem(q + [x], x.key)
  {
    hide HashSlot;
    assert (q + [x])[|q|] == x;
  }

  // ---------- a split seen from the whole file

  lemma SplitItems(q: seq<Item>, s: nat, model: map<int, int>, hash: int -> nat, level: nat, stays: int -> bool,
      r: seq<Item>, t: nat, goes: bool)
    requires ItemsOk(q, s, model, hash, level, s) && s < Pow2(level) && stays == StaysIn(hash, level, s)
    requires r == Chosen(q, if goes then Others(stays) else stays) && t == if goes then Pow2(level) + s else s
    ensures var (l, n) := Advanced(level, s); ItemsOk(r, t, model, hash, l, n)
  {
    var pick := if goes then Others(stays) else stays;
    var (l, n) := Advanced(level, s);
    ChosenDistinct(q, pick);
    forall i | 0 <= i < |r|
      ensures r[i].key in model && model[r[i].key] == r[i].value && HashSlot(hash(r[i].key), l, n) == t
    {
      ChosenFrom(q, pick, i);
      var k :| 0 <= k < |q| && q[k] == r[i];
      var h := hash(r[i].key);
      StaysIs(hash, level, s, r[i].key);
      SlotAfterAdvance(h, level, s);
      NextLevel(h, level);
      assert HashSlot(h, level, s) == s;
      LevelOf(h, level, s);
    }
  }

  // an item in the slot that is split has that slot as its address in the level
  lemma LevelOf(h: nat, level: nat, s: nat)
    requires HashSlot(h, level, s) == s && s < Pow2(level)
    ensures HashLevel(h, level) == s
  {
    NextLevel(h, level);
  }

  lemma OtherItems(q: seq<Item>, t: nat, s: nat, model: map<int, int>, hash: int -> nat, level: nat)
    requires ItemsOk(q, t, model, hash, level, s) && s < Pow2(level) && t != s
    ensures var (l, n) := Advanced(level, s); ItemsOk(q, t, model, hash, l, n)
  {
    forall i | 0 <= i < |q| ensures var (l, n) := Advanced(level, s); HashSlot(hash(q[i].key), l, n) == t {
      SlotAfterAdvance(hash(q[i].key), level, s);
    }
  }

  lemma SplitKey(lays: seq<Lay>, key: int, hash: int -> nat, level: nat, s: nat, lo: Lay, ln: Lay)
    requires s < Pow2(level) && |lays| == Pow2(level) + s
    requires var t := HashSlot(hash(key), level, s); t < |lays| && HasItem(All(lays[t]), key)
    requires All(lo) == Chosen(All(lays[s]), StaysIn(hash, level, s))
      && All(ln) == Chosen(All(lays[s]), Others(StaysIn(hash, level, s)))
    ensures var (l, n) := Advanced(level, s); var t := HashSlot(hash(key), l, n); var u := lays[s := lo] + [ln];
      t < |u| && HasItem(All(u[t]), key)
  {
    var h := hash(key);
    var t := HashSlot(h, level, s);
    SlotAfterAdvance(h, level, s);
    StaysIs(hash, level, s, key);
    if t == s {
      LevelOf(h, level, s);
      NextLevel(h, level);
      var q := All(lays[s]);
      var i :| 0 <= i < |q| && q[i].key == key;
      hide HashLevel, HashSlot, Advanced, Chosen, StaysIn, All;
      if HashLevel(h, level + 1) == s {
        ChosenHas(q, StaysIn(hash, level, s), i);
      } else {
        ChosenHas(q, Others(StaysIn(hash, level, s)), i);
      }
    }
  }

  lemma SplitStored(lays: seq<Lay>, model: map<int, int>, hash: int -> nat, level: nat, s: nat, lo: Lay, ln: Lay)
    requires Stored(lays, model, hash, level, s) && s < Pow2(level) && |lays| == Pow2(level) + s
    requires All(lo) == Chosen(All(lays[s]), StaysIn(hash, level, s))
      && All(ln) == Chosen(All(lays[s]), Others(StaysIn(hash, level, s)))
    ensures var (l, n) := Advanced(level, s); Stored(lays[s := lo] + [ln], model, hash, l, n)
  {
    var u := lays[s := lo] + [ln];
    var (l, n) := Advanced(level, s);
    hide All, Chosen, HashSlot, Advanced, StaysIn, ItemsOk, HasItem;
    forall t | 0 <= t < |u| ensures ItemsOk(All(u[t]), t, model, hash, l, n) {
      if t == s || t == |lays| {
        SplitItems(All(lays[s]), s, model, hash, level, StaysIn(hash, level, s), All(u[t]), t, t == |lays|);
      } else {
        OtherItems(All(lays[t]), t, s, model, hash, level);
      }
    }
    forall key | key in model ensures var t := HashSlot(hash(key), l, n); t < |u| && HasItem(All(u[t]), key) {
      assert model[key] == model[key];
      SplitKey(lays, key, hash, level, s, lo, ln);
    }
  }

  lemma SplitTotals(lays: seq<Lay>, s: nat, lo: Lay, ln: Lay, stays: int -> bool)
    requires s < |lays| && All(lo) == Chosen(All(lays[s]), stays) && All(ln) == Chosen(All(lays[s]), Others(stays))
    ensures var u := lays[s := lo] + [ln]; var l0 := lays[s];
      && FirstTotal(u) + |l0.first| == FirstTotal(lays) + |lo.first| + |ln.first|
      && OverTotal(u) + |lo.first| + |ln.first| == OverTotal(lays) + |l0.first|
      && PartTotal(u) + |l0.parts| == PartTotal(lays) + |lo.parts| + |ln.parts|
  {
    hide Chosen, All, FirstTotal, OverTotal, PartTotal;
    Totals(lays, s, lo);
    TotalsMore(lays[s := lo], ln);
    AllSize(lo);
    AllSize(ln);
    AllSize(lays[s]);
    ChosenSize(All(lays[s]), stays);
  }

  lemma AdvancedIs(level: nat, s: nat)
    requires s < Pow2(level)
    ensures var (l, n) := Advanced(level, s); n < Pow2(l) && Pow2(l) + n == Pow2(level) + s + 1
    ensures Advanced(level, s) == if s + 1 == Pow2(level) then (level + 1, 0) else (level, s + 1)
  {
    SlotAfterAdvance(0, level, s);
  }

  // ---------- who owns which record

  lemma OwnedApart(primary: seq<Bucket>, chains: seq<seq<Bucket>>, owner: map<Bucket, nat>, s: nat, t: nat)
    requires |chains| == |primary| && Owned(primary, chains, owner) && s < |primary| && t < |primary| && s != t
    ensures primary[t] != primary[s] && primary[t] !in chains[s] && primary[s] !in chains[t] && forall b ::
      b in chains[t] ==> b !in chains[s]
  {
    assert primary[s] in owner && primary[t] in owner;
  }

  lemma OwnedIn(primary: seq<Bucket>, chains: seq<seq<Bucket>>, owner: map<Bucket, nat>, s: nat)
    requires |chains| == |primary| && Owned(primary, chains, owner) && s < |primary|
    ensures primary[s] in owner && forall b :: b in chains[s] ==> b in owner
  {
  }

  lemma SlotHere(primary: seq<Bucket>, chains: seq<seq<Bucket>>, lays: seq<Lay>, c: Capacity, owner: map<Bucket, nat>,
      s: nat)
    requires |chains| == |primary| == |lays| && Owned(primary, chains, owner)
      && SlotsOk(primary, chains, lays, c, owner) && s < |primary|
    ensures SlotOk(primary[s], chains[s], lays[s], c)
  {
  }

  lemma FoldSlots(primary: seq<Bucket>, chains: seq<seq<Bucket>>, lays: seq<Lay>, c: Capacity, owner: map<Bucket, nat>)
    requires |chains| == |primary| == |lays| && Owned(primary, chains, owner)
    requires forall s {:trigger chains[s]} {:trigger lays[s]} ::
      0 <= s < |primary| ==> SlotOk(primary[s], chains[s], lays[s], c)
    ensures SlotsOk(primary, chains, lays, c, owner)
  {
  }

  lemma OwnedMore(primary: seq<Bucket>, chains: seq<seq<Bucket>>, owner: map<Bucket, nat>, s: nat, grown: seq<Bucket>)
    requires |chains| == |primary| && Owned(primary, chains, owner) && s < |primary| && chains[s] <= grown
    requires forall b :: b in grown && b !in chains[s] ==> b !in owner
    ensures var more := set b | b in grown && b !in chains[s];
      Owned(primary, chains[s := grown], owner + map b | b in more :: s)
  {
    var more := set b | b in grown && b !in chains[s];
    var k, o := chains[s := grown], owner + map b | b in more :: s;
    forall t | 0 <= t < |primary| ensures primary[t] in o && o[primary[t]] == t && forall b ::
        b in k[t] ==> b in o && o[b] == t {
      OwnedIn(primary, chains, owner, t);
    }
  }

  // the owners after slot s has kept the first w records of its chain and slot |primary| has been made
  ghost function SplitOwner(owner: map<Bucket, nat>, tail: seq<Bucket>, p: Bucket, chain: seq<Bucket>,
      n: nat): map<Bucket, nat>
  {
    var grown := {p} + (set d | d in chain);
    (owner - (set b | b in tail)) + (map b | b in grown :: n)
  }

  lemma TailApart(chain: seq<Bucket>, w: nat)
    requires Distinct(chain) && w <= |chain|
    ensures forall b :: b in chain[..w] ==> b !in chain[w..]
  {
    forall i, j | 0 <= i < w && 0 <= j < |chain| - w ensures chain[..w][i] != chain[w..][j] {
      assert chain[i] != chain[w + j];
    }
  }

  lemma SplitOwned(primary: seq<Bucket>, chains: seq<seq<Bucket>>, owner: map<Bucket, nat>, s: nat, w: nat, p: Bucket,
      chain: seq<Bucket>)
    requires |chains| == |primary| && Owned(primary, chains, owner) && s < |primary| && w <= |chains[s]|
      && Distinct(chains[s])
    requires primary[s] !in chains[s] && p !in owner && forall b :: b in chain ==> b !in owner
    ensures Owned(primary + [p], chains[s := chains[s][..w]] + [chain],
      SplitOwner(owner, chains[s][w..], p, chain, |primary|))
    ensures SplitOwner(owner, chains[s][w..], p, chain, |primary|).Keys <= owner.Keys + {p} + (set b | b in chain)
  {
    var tail := chains[s][w..];
    var u, k, o := primary + [p], chains[s := chains[s][..w]] + [chain], SplitOwner(owner, tail, p, chain, |primary|);
    forall t | 0 <= t < |u| ensures u[t] in o && o[u[t]] == t && forall b :: b in k[t] ==> b in o && o[b] == t {
      if t < |primary| {
        OwnedIn(primary, chains, owner, t);
        if t != s {
          OwnedApart(primary, chains, owner, s, t);
        } else {
          TailApart(chains[s], w);
        }
      }
    }
  }

  class LinearHash {
    const capacity: Capacity
    const hash: int -> nat
    const crowded: (nat, nat, nat) -> bool  // primary_size, primary_count, PRIMARY_CAPACITY against the threshold
    var size: nat
    var level: nat
    var splitSlot: nat
    var primaryCount: nat
    var overflowCount: nat
    var primarySize: nat
    var overflowSize: nat
    var primary: seq<Bucket>
    ghost var chains: seq<seq<Bucket>>
    ghost var lays: seq<Lay>
    ghost var owner: map<Bucket, nat>
    ghost var model: map<int, int>

    ghost predicate Valid()
      reads this, owner.Keys
    {
      && capacity.primary > 0 && capacity.overflow > 0
      && |chains| == |primary| == |lays| && Owned(primary, chains, owner)
        && SlotsOk(primary, chains, lays, capacity, owner)
      && splitSlot < Pow2(level) && primaryCount == |primary| == Pow2(level) + splitSlot
      && primarySize == FirstTotal(lays) && overflowSize == OverTotal(lays) && overflowCount == PartTotal(lays)
      && Stored(lays, model, hash, level, splitSlot) && size == |model| && size == primarySize + overflowSize
    }

    // Open on an empty file: a cleared header and one primary record
    constructor (capacity: Capacity, hash: int -> nat, crowded: (nat, nat, nat) -> bool)
      requires capacity.primary > 0 && capacity.overflow > 0
      ensures this.capacity == capacity && this.hash == hash && this.crowded == crowded
      ensures Valid() && model == map[] && fresh(owner.Keys) && (primaryCount, level, splitSlot) == (1, 0, 0)
    {
      hide *;
      this.capacity, this.hash, this.crowded := capacity, hash, crowded;
      size, level, splitSlot, primaryCount, overflowCount, primarySize, overflowSize := 0, 0, 0, 1, 0, 0, 0;
      var record := new Bucket(capacity.primary);
      primary := [record];
      chains, lays, owner, model := [[]], [Lay([], [])], map[record := 0], map[];
      new;
      FreshSlot(record, capacity);
      FoldSlots(primary, chains, lays, capacity, owner);
      FreshTotals(lays, hash);
      Closed();
    }

    // an item that stays in the old slot
    method Stay(x: Item, oldRecord: Bucket, oldOverflow: Bucket?, ghost chain: seq<Bucket>, ghost lo: Lay,
        ghost l0: Lay, ghost j: nat, ghost i: nat)
      returns (last: Bucket?)
      requires capacity.primary > 0 && capacity.overflow > 0 && OldHalf(oldRecord, chain, lo, capacity)
        && oldOverflow == LastOf(chain, lo)
      requires Unread(Cells(chain), l0, lo, capacity, j, i) && j < |chain| && j < |l0.parts| && i < |l0.parts[j]|
        && overflowSize > 0
      modifies this`primarySize, this`overflowSize, oldRecord`size, oldRecord`slots
      modifies (set b | b in chain)`size
      modifies (set b | b in chain)`slots
      ensures var t := Put(lo, x, capacity);
        && OldHalf(oldRecord, chain, t, capacity) && last == LastOf(chain, t)
          && Unread(Cells(chain), l0, t, capacity, j, i + 1)
        && primarySize == old(primarySize) + |t.first| - |lo.first|
          && overflowSize + |t.first| == old(overflowSize) + |lo.first|
    {
      hide *;
      OpenHalf(oldRecord, chain, lo, capacity);
      CellIs(oldRecord);
      FirstFull(CellOf(oldRecord), x, lo, capacity);
      ghost var t := Put(lo, x, capacity);
      ghost var cs := Cells(chain);
      if oldRecord.size != |oldRecord.slots| {
        AddFirst(oldRecord, x, chain, lo, capacity);
        primarySize := primarySize + 1;
        overflowSize := overflowSize - 1;
        last := oldOverflow;
        UnreadSkip(cs, l0, lo, t, capacity, j, i);
        LastIs(chain, lo);
      } else {
        UnreadWrite(cs, l0, lo, capacity, j, i, x);
        PutOk(lo, x, capacity);
        last := WriteNext(oldRecord, oldOverflow, x, chain, lo, capacity);
        WrittenHolds(cs, lo, x, capacity);
        LastIs(chain, t);
        CloseHalf(oldRecord, chain, t, capacity);
      }
    }

    // an item that goes to the new slot
    method Go(x: Item, newRecord: Bucket, newOverflow: Bucket?, ghost newChain: seq<Bucket>, ghost ln: Lay)
      returns (last: Bucket?, ghost grown: seq<Bucket>)
      requires capacity.primary > 0 && capacity.overflow > 0 && OldHalf(newRecord, newChain, ln, capacity)
        && |ln.parts| == |newChain|
      requires newOverflow == LastOf(newChain, ln) && overflowSize > 0
      modifies this`primarySize, this`overflowSize, this`overflowCount, newRecord`size, newRecord`slots, newRecord`link
      modifies (set b | b in newChain)`link
      modifies (set b | b in newChain)`size
      modifies (set b | b in newChain)`slots
      ensures var t := Put(ln, x, capacity);
        && OldHalf(newRecord, grown, t, capacity) && |t.parts| == |grown| && last == LastOf(grown, t)
        && primarySize == old(primarySize) + |t.first| - |ln.first|
          && overflowSize + |t.first| == old(overflowSize) + |ln.first|
      ensures |newChain| <= |grown| && overflowCount == old(overflowCount) + |grown| - |newChain|
      ensures forall b :: b in grown ==> b in newChain || fresh(b)
    {
      hide *;
      OpenHalf(newRecord, newChain, ln, capacity);
      CellIs(newRecord);
      FirstFull(CellOf(newRecord), x, ln, capacity);
      ghost var t := Put(ln, x, capacity);
      if newRecord.size != |newRecord.slots| {
        AddFirst(newRecord, x, newChain, ln, capacity);
        primarySize := primarySize + 1;
        overflowSize := overflowSize - 1;
        last := newOverflow;
        grown := newChain;
        LastIs(newChain, ln);
      } else {
        PutOk(ln, x, capacity);
        var created;
        last, created, grown := WriteNew(newRecord, newOverflow, x, newChain, ln, capacity);
        if created {
          overflowCount := overflowCount + 1;
        }
        LastIs(grown, t);
        CloseHalf(newRecord, grown, t, capacity);
      }
    }

    // one item of an overflow record is read and placed
    method ReadItem(x: Item, oldRecord: Bucket, newRecord: Bucket, oldOverflow: Bucket?, newOverflow: Bucket?,
        ghost chain: seq<Bucket>,
                    ghost h: Halves, ghost l0: Lay, ghost read: seq<Item>, ghost j: nat, ghost i: nat)
      returns (o: Bucket?, n: Bucket?, ghost g: Halves)
      requires capacity.primary > 0 && capacity.overflow > 0 && overflowSize > 0 && j < |chain| && j < |l0.parts|
        && i < |l0.parts[j]|
      requires Mid(oldRecord, newRecord, oldOverflow, newOverflow, chain, h, l0, read, StaysIn(hash, level, splitSlot),
        capacity, j, i)
      modifies this`primarySize, this`overflowSize, this`overflowCount
      modifies oldRecord`size, oldRecord`slots, newRecord`size, newRecord`slots, newRecord`link
      modifies (set b | b in chain)`size
      modifies (set b | b in chain)`slots
      modifies (set b | b in h.newChain)`link
      modifies (set b | b in h.newChain)`size
      modifies (set b | b in h.newChain)`slots
      ensures Mid(oldRecord, newRecord, o, n, chain, g, l0, read + [x], StaysIn(hash, level, splitSlot), capacity, j,
        i + 1)
      ensures primarySize - |g.lo.first| - |g.ln.first| == old(primarySize) - |h.lo.first| - |h.ln.first|
      ensures overflowSize + |g.lo.first| + |g.ln.first| == old(overflowSize) + |h.lo.first| + |h.ln.first|
      ensures overflowCount - |g.newChain| == old(overflowCount) - |h.newChain|
      ensures forall b :: b in g.newChain ==> b in h.newChain || fresh(b)
    {
      hide OldHalf, LastOf, Unread, Shares, Put, StaysIn, Cells;
      UnreadSkip(Cells(chain), l0, h.lo, h.lo, capacity, j, i);
      o, n, g := oldOverflow, newOverflow, h;
      SharesNext(h.lo, h.ln, read, x, StaysIn(hash, level, splitSlot), capacity);
      StaysIs(hash, level, splitSlot, x.key);
      if HashLevel(hash(x.key), level + 1) == splitSlot {
        o := Stay(x, oldRecord, oldOverflow, chain, h.lo, l0, j, i);
        g := h.(lo := Put(h.lo, x, capacity));
      } else {
        ghost var grown;
        n, grown := Go(x, newRecord, newOverflow, h.newChain, h.ln);
        g := h.(ln := Put(h.ln, x, capacity), newChain := grown);
      }
    }

    // one overflow record is read from its first item to the size it had when it was reached
    method ReadRecord(overflowPtr: Bucket, oldRecord: Bucket, newRecord: Bucket, oldOverflow: Bucket?,
        newOverflow: Bucket?,
                      ghost chain: seq<Bucket>, ghost h: Halves, ghost l0: Lay, ghost read: seq<Item>, ghost j: nat,
                          ghost unplaced: nat)
      returns (o: Bucket?, n: Bucket?, ghost g: Halves)
      requires capacity.primary > 0 && capacity.overflow > 0 && j < |chain| && chain[j] == overflowPtr
        && |l0.parts| == |chain| && Shaped(l0, capacity)
      requires Mid(oldRecord, newRecord, oldOverflow, newOverflow, chain, h, l0, read, StaysIn(hash, level, splitSlot),
        capacity, j, 0)
      requires overflowSize + |h.lo.first| + |h.ln.first| >= unplaced && |read| + |l0.parts[j]| <= unplaced
      modifies this`primarySize, this`overflowSize, this`overflowCount
      modifies oldRecord`size, oldRecord`slots, newRecord`size, newRecord`slots, newRecord`link
      modifies (set b | b in chain)`size
      modifies (set b | b in chain)`slots
      modifies (set b | b in h.newChain)`link
      modifies (set b | b in h.newChain)`size
      modifies (set b | b in h.newChain)`slots
      ensures Mid(oldRecord, newRecord, o, n, chain, g, l0, read + l0.parts[j], StaysIn(hash, level, splitSlot),
        capacity, j + 1, 0)
      ensures primarySize - |g.lo.first| - |g.ln.first| == old(primarySize) - |h.lo.first| - |h.ln.first|
      ensures overflowSize + |g.lo.first| + |g.ln.first| == old(overflowSize) + |h.lo.first| + |h.ln.first|
      ensures overflowCount - |g.newChain| == old(overflowCount) - |h.newChain|
      ensures forall b :: b in g.newChain ==> b in h.newChain || fresh(b)
    {
      hide *;
      ghost var stays := StaysIn(hash, level, splitSlot);
      MidStarts(oldRecord, newRecord, oldOverflow, newOverflow, chain, h, l0, read, stays, capacity, j, 0);
      var overflowSize_ := overflowPtr.size;
      o, n, g := oldOverflow, newOverflow, h;
      ghost var done := read;
      assert read + l0.parts[j][..0] == read;
      for i := 0 to overflowSize_
        invariant done == read + l0.parts[j][..i] && i <= |l0.parts[j]|
        invariant Mid(oldRecord, newRecord, o, n, chain, g, l0, done, stays, capacity, j, i)
        invariant primarySize - |g.lo.first| - |g.ln.first| == old(primarySize) - |h.lo.first| - |h.ln.first|
        invariant overflowSize + |g.lo.first| + |g.ln.first| == old(overflowSize) + |h.lo.first| + |h.ln.first|
        invariant overflowCount - |g.newChain| == old(overflowCount) - |h.newChain|
        invariant forall b :: b in g.newChain ==> b in h.newChain || fresh(b)
      {
        MidStarts(oldRecord, newRecord, o, n, chain, g, l0, done, stays, capacity, j, i);
        o, n, g := ReadItem(overflowPtr.slots[i], oldRecord, newRecord, o, n, chain, g, l0, done, j, i);
        done := done + [l0.parts[j][i]];
        assert l0.parts[j][..i + 1] == l0.parts[j][..i] + [l0.parts[j][i]];
      }
      assert l0.parts[j][..overflowSize_] == l0.parts[j];
      MidNext(oldRecord, newRecord, o, n, chain, g, l0, done, stays, capacity, j);
    }

    // all overflow records of the old slot are read, in the order of the chain
    method ReadChain(oldRecord: Bucket, newRecord: Bucket, ghost chain: seq<Bucket>, ghost h: Halves, ghost l0: Lay,
        ghost unplaced: nat)
      returns (o: Bucket?, n: Bucket?, ghost g: Halves)
      requires capacity.primary > 0 && capacity.overflow > 0 && |l0.parts| == |chain| && Shaped(l0, capacity)
      requires Mid(oldRecord, newRecord, null, null, chain, h, l0, l0.first, StaysIn(hash, level, splitSlot), capacity,
        0, 0)
      requires h.newChain == [] && overflowSize + |h.lo.first| + |h.ln.first| >= unplaced && |All(l0)| <= unplaced
      modifies this`primarySize, this`overflowSize, this`overflowCount
      modifies oldRecord`size, oldRecord`slots, newRecord`size, newRecord`slots, newRecord`link
      modifies (set b | b in chain)`size
      modifies (set b | b in chain)`slots
      ensures Mid(oldRecord, newRecord, o, n, chain, g, l0, All(l0), StaysIn(hash, level, splitSlot), capacity, |chain|,
        0)
      ensures primarySize - |g.lo.first| - |g.ln.first| == old(primarySize) - |h.lo.first| - |h.ln.first|
      ensures overflowSize + |g.lo.first| + |g.ln.first| == old(overflowSize) + |h.lo.first| + |h.ln.first|
      ensures overflowCount == old(overflowCount) + |g.newChain|
      ensures forall b :: b in g.newChain ==> fresh(b)
    {
      hide *;
      ghost var stays := StaysIn(hash, level, splitSlot);
      o, n, g := null, null, h;
      ghost var done := l0.first;
      ghost var j := 0;
      ReadSoFar(l0, 0);
      ChainHead(oldRecord, newRecord, o, n, chain, g, l0, done, stays, capacity, 0);
      var overflowAddress := oldRecord.link;
      while overflowAddress != null
        invariant j <= |chain| && overflowAddress == (if j < |chain| then chain[j] else null)
          && done == l0.first + Concat(l0.parts[..j])
        invariant Mid(oldRecord, newRecord, o, n, chain, g, l0, done, stays, capacity, j, 0)
        invariant primarySize - |g.lo.first| - |g.ln.first| == old(primarySize) - |h.lo.first| - |h.ln.first|
        invariant overflowSize + |g.lo.first| + |g.ln.first| == old(overflowSize) + |h.lo.first| + |h.ln.first|
        invariant overflowCount == old(overflowCount) + |g.newChain|
        invariant forall b :: b in g.newChain ==> fresh(b)
        decreases |chain| - j
      {
        var overflowPtr := overflowAddress;
        ReadSoFar(l0, j);
        o, n, g := ReadRecord(overflowPtr, oldRecord, newRecord, o, n, chain, g, l0, done, j, unplaced);
        done := done + l0.parts[j];
        ChainHead(oldRecord, newRecord, o, n, chain, g, l0, done, stays, capacity, j);
        j := j + 1;
        overflowAddress := overflowPtr.link;
      }
      ReadSoFar(l0, |chain|);
    }

    // the items of the old primary record are shared out in place
    method SplitPrimary(oldRecord: Bucket, newRecord: Bucket, ghost first: seq<Item>)
      requires oldRecord != newRecord && oldRecord.size <= |oldRecord.slots| && oldRecord.Items() == first
      requires newRecord.size == 0 && |newRecord.slots| == |oldRecord.slots|
      modifies oldRecord`size, oldRecord`slots, newRecord`size, newRecord`slots
      ensures oldRecord.size <= |oldRecord.slots| == old(|oldRecord.slots|)
        && newRecord.size <= |newRecord.slots| == old(|newRecord.slots|)
      ensures oldRecord.Items() == Chosen(first, StaysIn(hash, level, splitSlot))
      ensures newRecord.Items() == Chosen(first, Others(StaysIn(hash, level, splitSlot)))
    {
      hide Chosen, StaysIn;
      ghost var stays := StaysIn(hash, level, splitSlot);
      var oldRecordSize := oldRecord.size;
      oldRecord.size := 0;
      NothingRead(first, stays);
      NothingRead(first, Others(stays));
      for i := 0 to oldRecordSize
        invariant |oldRecord.slots| == |newRecord.slots| == old(|oldRecord.slots|) && oldRecord.size <= i
          && newRecord.size <= i
        invariant forall m :: i <= m < oldRecordSize ==> oldRecord.slots[m] == first[m]
        invariant oldRecord.Items() == Chosen(first[..i], stays)
          && newRecord.Items() == Chosen(first[..i], Others(stays))
      {
        var x := oldRecord.slots[i];
        ChosenNext(first, i, stays);
        ChosenNext(first, i, Others(stays));
        StaysIs(hash, level, splitSlot, x.key);
        if HashLevel(hash(x.key), level + 1) == splitSlot {
          oldRecord.Add(x);
        } else {
          newRecord.Add(x);
        }
      }
      AllRead(first);
    }

    // the records behind the written part go back to the pool
    method FreeFrom(first: Bucket?, ghost tail: seq<Bucket>)
      requires (first == null <==> tail == []) && (tail != [] ==> tail[0] == first) && |tail| <= overflowCount
      requires forall k :: 0 <= k < |tail| ==> LinkOk(tail, k)
      modifies this`overflowCount
      ensures overflowCount == old(overflowCount) - |tail|
    {
      var overflowAddress := first;
      ghost var k := 0;
      while overflowAddress != null
        invariant k <= |tail| && overflowAddress == (if k < |tail| then tail[k] else null)
        invariant overflowCount == old(overflowCount) - k
        decreases |tail| - k
      {
        assert LinkOk(tail, k);
        var nextOverflowAddress := overflowAddress.link;
        overflowCount := overflowCount - 1;
        overflowAddress := nextOverflowAddress;
        k := k + 1;
      }
    }

    // the chain of the old slot ends with the record written last
    method Trim(oldRecord: Bucket, oldOverflow: Bucket?, ghost chain: seq<Bucket>, ghost lo: Lay)
      requires OldHalf(oldRecord, chain, lo, capacity) && oldOverflow == LastOf(chain, lo)
      requires |lo.parts| <= |chain| && |chain| - |lo.parts| <= overflowCount
      modifies this`overflowCount, oldRecord`link
      modifies (set b | b in chain)`link
      ensures SlotOk(oldRecord, chain[..|lo.parts|], lo, capacity)
      ensures overflowCount == old(overflowCount) - (|chain| - |lo.parts|)
    {
      hide First, Holds, Roomy, Shaped, Cells, SlotOk, OldHalf, Linked;
      ghost var w := |lo.parts|;
      OpenHalf(oldRecord, chain, lo, capacity);
      HalfParts(oldRecord, chain, lo, capacity);
      TrimmedHolds(Cells(chain), lo, capacity, w);
      TrimmedCells(chain, w);
      ghost var tail := chain[w..];
      forall k | 0 <= k < |tail| ensures LinkOk(tail, k) { assert LinkOk(chain, w + k); }
      if oldRecord.link != null {
        if oldOverflow == null {
          var overflowAddress := oldRecord.link;
          oldRecord.link := null;
          FreeFrom(overflowAddress, tail);
        } else {
          assert LinkOk(chain, w - 1);
          var overflowAddress := oldOverflow.link;
          oldOverflow.link := null;
          assert forall k :: 0 <= k < |tail| ==> LinkOk(tail, k);
          FreeFrom(overflowAddress, tail);
        }
      }
      forall k | 0 <= k < w - 1 ensures LinkOk(chain, k) { assert old(LinkOk(chain, k)); }
      TrimmedLinks(oldRecord, chain, w);
      CloseSlot(oldRecord, chain[..w], lo, capacity);
    }

    lemma Opened()
      requires Valid()
      ensures capacity.primary > 0 && capacity.overflow > 0
      ensures |chains| == |primary| == |lays| && Owned(primary, chains, owner)
        && SlotsOk(primary, chains, lays, capacity, owner)
      ensures splitSlot < Pow2(level) && primaryCount == |primary| == Pow2(level) + splitSlot
      ensures primarySize == FirstTotal(lays) && overflowSize == OverTotal(lays) && overflowCount == PartTotal(lays)
      ensures Stored(lays, model, hash, level, splitSlot) && size == |model| && size == primarySize + overflowSize
    {
    }

    lemma Closed()
      requires capacity.primary > 0 && capacity.overflow > 0
      requires |chains| == |primary| == |lays| && Owned(primary, chains, owner)
        && SlotsOk(primary, chains, lays, capacity, owner)
      requires splitSlot < Pow2(level) && primaryCount == |primary| == Pow2(level) + splitSlot
      requires primarySize == FirstTotal(lays) && overflowSize == OverTotal(lays) && overflowCount == PartTotal(lays)
      requires Stored(lays, model, hash, level, splitSlot) && size == |model| && size == primarySize + overflowSize
      ensures Valid()
    {
    }

    // Split of one slot, from its layout l0 to the layouts of the two slots
    method SplitSlot(oldRecord: Bucket, newRecord: Bucket, ghost chain: seq<Bucket>, ghost l0: Lay)
        returns (ghost g: Halves)
      requires capacity.primary > 0 && capacity.overflow > 0 && SlotOk(oldRecord, chain, l0, capacity)
      requires newRecord != oldRecord && newRecord !in chain && newRecord.size == 0 && newRecord.link == null
        && |newRecord.slots| == capacity.primary
      requires |Concat(l0.parts)| <= overflowSize && |chain| <= overflowCount
      modifies this`primarySize, this`overflowSize, this`overflowCount
      modifies oldRecord, newRecord, set b | b in chain
      ensures var stays := StaysIn(hash, level, splitSlot);
        All(g.lo) == Chosen(All(l0), stays) && All(g.ln) == Chosen(All(l0), Others(stays))
      ensures |g.lo.parts| <= |chain| && SlotOk(oldRecord, chain[..|g.lo.parts|], g.lo, capacity)
      ensures SlotOk(newRecord, g.newChain, g.ln, capacity) && |g.ln.parts| == |g.newChain| && forall b ::
        b in g.newChain ==> fresh(b)
      ensures primarySize + |l0.first| == old(primarySize) + |g.lo.first| + |g.ln.first|
      ensures overflowSize + |g.lo.first| + |g.ln.first| == old(overflowSize) + |l0.first|
      ensures overflowCount == old(overflowCount) + |g.newChain| - (|chain| - |g.lo.parts|)
    {
      hide *;
      ghost var stays := StaysIn(hash, level, splitSlot);
      OpenSlot(oldRecord, chain, l0, capacity);
      FirstIs(oldRecord, l0, capacity);
      AllSize(l0);
      SplitPrimary(oldRecord, newRecord, l0.first);
      ghost var h := Halves(Lay(oldRecord.Items(), []), Lay(newRecord.Items(), []), []);
      MidBegins(oldRecord, newRecord, chain, l0, oldRecord.Items(), newRecord.Items(), stays, capacity);
      ChosenSize(l0.first, stays);
      var o, n;
      o, n, g := ReadChain(oldRecord, newRecord, chain, h, l0, |All(l0)|);
      MidEnds(oldRecord, newRecord, o, n, chain, g, l0, All(l0), stays, capacity, |chain|);
      Trim(oldRecord, o, chain, g.lo);
      SlotFromHalf(newRecord, g.newChain, g.ln, capacity);
    }

    // the records of a split; the lists of chains and layouts, and the address, are brought up to date after it
    method SplitRecords() returns (newRecord: Bucket, ghost g: Halves)
      requires Valid()
      modifies this`primaryCount, this`primary, this`primarySize, this`overflowSize, this`overflowCount, owner.Keys
      ensures capacity.primary > 0 && capacity.overflow > 0 && splitSlot < old(|primary|) == |chains| == |lays|
      ensures Owned(old(primary), chains, old(owner)) && fresh(newRecord) && forall b :: b in g.newChain ==> fresh(b)
      ensures primary == old(primary) + [newRecord] && primaryCount == old(primaryCount) + 1
      ensures forall t {:trigger chains[t]} ::
        0 <= t < |chains| && t != splitSlot ==> SlotOk(primary[t], chains[t], lays[t], capacity)
      ensures var s, w := splitSlot, |g.lo.parts|; var l0 := lays[s];
        && w <= |chains[s]| && |l0.parts| == |chains[s]| && Distinct(chains[s]) && primary[s] !in chains[s]
        && SlotOk(primary[s], chains[s][..w], g.lo, capacity) && SlotOk(newRecord, g.newChain, g.ln, capacity)
          && |g.ln.parts| == |g.newChain|
        && All(g.lo) == Chosen(All(l0), StaysIn(hash, level, s))
          && All(g.ln) == Chosen(All(l0), Others(StaysIn(hash, level, s)))
        && primarySize + |l0.first| == old(primarySize) + |g.lo.first| + |g.ln.first|
        && overflowSize + |g.lo.first| + |g.ln.first| == old(overflowSize) + |l0.first|
        && overflowCount + |l0.parts| == old(overflowCount) + |g.lo.parts| + |g.ln.parts|
    {
      hide *;
      Opened();
      ghost var s, n := splitSlot, |primary|;
      ghost var chain, l0 := chains[s], lays[s];
      forall t {:trigger chains[t]} | 0 <= t < n ensures SlotOk(primary[t], chains[t], lays[t], capacity) {
        SlotHere(primary, chains, lays, capacity, owner, t);
      }
      OwnedIn(primary, chains, owner, s);
      OpenSlot(primary[s], chain, l0, capacity);
      Totals(lays, s, l0);
      var oldRecord := primary[splitSlot];
      newRecord := new Bucket(capacity.primary);
      primary := primary + [newRecord];
      primaryCount := primaryCount + 1;
      g := SplitSlot(oldRecord, newRecord, chain, l0);
      forall t {:trigger chains[t]} | 0 <= t < n && t != s ensures SlotOk(primary[t], chains[t], lays[t], capacity) {
        OwnedApart(old(primary), chains, old(owner), s, t);
        OwnedIn(old(primary), chains, old(owner), t);
        assert old(SlotOk(primary[t], chains[t], lays[t], capacity));
      }
    }

    // the ghost lists take in the two halves of the split slot
    ghost method Install(before: seq<Bucket>, newRecord: Bucket, g: Halves)
      requires splitSlot < |before| == |chains| == |lays| && primary == before + [newRecord]
        && Owned(before, chains, owner)
      requires newRecord !in owner && forall b :: b in g.newChain ==> b !in owner
      requires forall t {:trigger chains[t]} ::
        0 <= t < |chains| && t != splitSlot ==> SlotOk(primary[t], chains[t], lays[t], capacity)
      requires var s, w := splitSlot, |g.lo.parts|;
        && w <= |chains[s]| && Distinct(chains[s]) && primary[s] !in chains[s]
        && SlotOk(primary[s], chains[s][..w], g.lo, capacity) && SlotOk(newRecord, g.newChain, g.ln, capacity)
      modifies this`chains, this`lays, this`owner
      ensures lays == old(lays)[splitSlot := g.lo] + [g.ln] && |chains| == |primary| == |lays|
      ensures Owned(primary, chains, owner) && SlotsOk(primary, chains, lays, capacity, owner)
      ensures owner.Keys <= old(owner.Keys) + {newRecord} + (set b | b in g.newChain)
    {
      hide *;
      var s, w := splitSlot, |g.lo.parts|;
      var chain, keeps := chains[s], owner;
      chains := chains[s := chain[..w]] + [g.newChain];
      lays := lays[s := g.lo] + [g.ln];
      owner := SplitOwner(owner, chain[w..], newRecord, g.newChain, |before|);
      SplitOwned(before, old(chains), keeps, s, w, newRecord, g.newChain);
      FoldSlots(primary, chains, lays, capacity, owner);
    }

    // the records, layouts and counters after a split; the header still names the old split slot
    method SplitFile() returns (ghost g: Halves)
      requires Valid()
      modifies this`primaryCount, this`primary, this`primarySize, this`overflowSize, this`overflowCount
      modifies this`chains, this`lays, this`owner, owner.Keys
      ensures splitSlot < old(|lays|) && lays == old(lays)[splitSlot := g.lo] + [g.ln]
        && fresh(owner.Keys - old(owner.Keys))
      ensures |chains| == |primary| == |lays| && primaryCount == |primary| == old(primaryCount) + 1
      ensures Owned(primary, chains, owner) && SlotsOk(primary, chains, lays, capacity, owner)
      ensures primarySize == FirstTotal(lays) && overflowSize == OverTotal(lays) && overflowCount == PartTotal(lays)
      ensures primarySize + overflowSize == old(primarySize + overflowSize)
      ensures var l0 := old(lays)[splitSlot]; var stays := StaysIn(hash, level, splitSlot);
        All(g.lo) == Chosen(All(l0), stays) && All(g.ln) == Chosen(All(l0), Others(stays))
    {
      hide *;
      Opened();
      var newRecord;
      newRecord, g := SplitRecords();
      Install(old(primary), newRecord, g);
      SplitTotals(old(lays), splitSlot, g.lo, g.ln, StaysIn(hash, level, splitSlot));
    }

    // Splits the slot at splitSlot: its items are shared between it and a new slot at the end of the file.
    method Split()
      requires Valid()
      modifies this`primaryCount, this`primary, this`primarySize, this`overflowSize, this`overflowCount, this`level,
        this`splitSlot
      modifies this`chains, this`lays, this`owner, owner.Keys
      ensures Valid() && model == old(model) && size == old(size) && fresh(owner.Keys - old(owner.Keys))
      ensures primaryCount == old(primaryCount) + 1 && (level, splitSlot) == Advanced(old(level), old(splitSlot))
      ensures var s := old(splitSlot); var stays := StaysIn(hash, old(level), s);
        && |lays| == old(|lays|) + 1 && s < old(|lays|)
        && (forall t :: 0 <= t < old(|lays|) && t != s ==> lays[t] == old(lays[t]))
        && All(lays[s]) == Chosen(All(old(lays[s])), stays)
          && All(lays[old(|lays|)]) == Chosen(All(old(lays[s])), Others(stays))
    {
      hide *;
      Opened();
      ghost var g := SplitFile();
      SplitStored(old(lays), model, hash, level, splitSlot, g.lo, g.ln);
      AdvancedIs(level, splitSlot);
      splitSlot := splitSlot + 1;
      if splitSlot == Pow2(level) {
        splitSlot := 0;
        level := level + 1;
      }
      Closed();
    }

    // the record and slot an item with this key lies in
    method Locate(key: int) returns (b: Bucket?, i: nat, ghost place: Place)
      requires Valid()
      ensures var s := HashSlot(hash(key), level, splitSlot); s < |primary| == |lays| == |chains|
      ensures (b != null) <==> key in model
      ensures b != null ==> i < b.size <= |b.slots|
      ensures b != null ==> var s := HashSlot(hash(key), level, splitSlot);
                Found(b, i, place, lays[s], primary[s], chains[s]) && b.slots[i].key == key
                    && b.slots[i].value == model[key] && b in owner
    {
      hide *;
      Opened();
      StoredHere(lays, model, hash, level, splitSlot, key);
      place := InFirst(0);
      var slot := HashSlot(hash(key), level, splitSlot);
      ghost var chain, l := chains[slot], lays[slot];
      SlotHere(primary, chains, lays, capacity, owner, slot);
      OwnedIn(primary, chains, owner, slot);
      OpenSlot(primary[slot], chain, l, capacity);
      FirstHere(primary[slot], l, capacity);
      LinksHere(primary[slot], chain, 0);
      var found;
      i, found := primary[slot].Search(key);
      if found {
        place := InFirst(i);
        b := primary[slot];
        FoundIs(b, i, place, l, primary[slot], chain);
        PlaceHas(l, place, capacity);
        return;
      }
      FreeIs(l.first, key);
      ghost var k := 0;
      var overflowAddress := primary[slot].link;
      while overflowAddress != null
        invariant k <= |chain| && overflowAddress == (if k < |chain| then chain[k] else null)
        invariant forall n :: 0 <= n < k ==> Free(l.parts[n], key)
        decreases |chain| - k
      {
        PartHere(chain, l, capacity, k);
        LinksHere(primary[slot], chain, k);
        i, found := overflowAddress.Search(key);
        if found {
          place := InPart(k, i);
          b := overflowAddress;
          FoundIs(b, i, place, l, primary[slot], chain);
          PlaceHas(l, place, capacity);
          return;
        }
        FreeIs(l.parts[k], key);
        overflowAddress := overflowAddress.link;
        k := k + 1;
      }
      FreeHas(l, key);
      b := null;
    }

    lemma FoundIs(b: Bucket, i: nat, place: Place, l: Lay, p: Bucket, chain: seq<Bucket>)
      requires match place { case InFirst(n) => n == i < |l.first| && b == p && i < b.size <= |b.slots|
        && b.slots[i] == l.first[i]
                             case InPart(k, n) => n == i && k < |chain| && k < |l.parts| && i < |l.parts[k]|
                                 && b == chain[k] && i < b.size <= |b.slots| && b.slots[i] == l.parts[k][i] }
      ensures PlaceOk(l, place) && ItemAt(l, place) == b.slots[i] && Found(b, i, place, l, p, chain)
    {
    }

    lemma PlaceHas(l: Lay, place: Place, c: Capacity)
      requires PlaceOk(l, place)
      ensures var n := IndexOf(l, place);
        n < |All(l)| && All(l)[n] == ItemAt(l, place) && HasItem(All(l), ItemAt(l, place).key)
    {
      SetAtOk(l, place, ItemAt(l, place), c);
      hide All, IndexOf;
    }

    lemma FreeIs(q: seq<Item>, key: int)
      ensures (forall n :: 0 <= n < |q| ==> q[n].key != key) <==> Free(q, key)
    {
    }

    method Get(key: int) returns (found: bool, value: int)
      requires Valid()
      ensures found <==> key in model
      ensures found ==> value == model[key]
    {
      hide *;
      var b, i, place := Locate(key);
      found := b != null;
      value := 0;
      if b != null {
        value := b.slots[i].value;
      }
    }

    // SavePrimary or SaveOverflow of a record in which one value was changed
    method WriteValue(b: Bucket, i: nat, value: int, ghost place: Place, ghost l: Lay, ghost p: Bucket,
        ghost chain: seq<Bucket>)
      requires SlotOk(p, chain, l, capacity) && Found(b, i, place, l, p, chain) && i < |b.slots|
      modifies b`slots
      ensures PlaceOk(l, place) && SlotOk(p, chain, SetAt(l, place, Item(ItemAt(l, place).key, value)), capacity)
    {
      ghost var x := Item(b.slots[i].key, value);
      ghost var t := SetAt(l, place, x);
      SetAtOk(l, place, x, capacity);
      OpenSlot(p, chain, l, capacity);
      hide SlotOk, Linked, Roomy, Holds, First, Shaped, Cells;
      ghost var cs := Cells(chain);
      FirstHere(p, l, capacity);
      if place.InPart? { PartHere(chain, l, capacity, place.k); }
      b.slots := b.slots[i := Item(b.slots[i].key, value)];
      if place.InFirst? {
        FirstSet(CellOf(p), l, t, capacity, i, x);
        HoldsSame(cs, l, t, capacity);
      } else {
        CellsOne(cs, chain, place.k);
        HoldsSet(cs, l, t, capacity, place.k, i, x);
        FirstKept(CellOf(p), l, t, capacity);
      }
      CloseSlot(p, chain, t, capacity);
    }

    lemma FirstSet(p: Cell, l: Lay, t: Lay, c: Capacity, i: nat, x: Item)
      requires |p.slots| == c.primary && p.size == |l.first| <= |p.slots| && i < |l.first| && t.first == l.first[i := x]
      requires p.slots[..p.size] == t.first
      ensures First(p, t, c)
    {
    }

    lemma FirstKept(p: Cell, l: Lay, t: Lay, c: Capacity)
      requires First(p, l, c) && t.first == l.first
      ensures First(p, t, c)
    {
    }

    lemma HoldsSet(cs: seq<Cell>, l: Lay, t: Lay, c: Capacity, k: nat, i: nat, x: Item)
      requires Holds(cs, l, c) && Roomy(cs, c) && k < |l.parts| && i < |l.parts[k]| && i < |cs[k].slots|
      requires t.parts == l.parts[k := l.parts[k][i := x]]
      ensures var u := cs[k := Cell(cs[k].size, cs[k].slots[i := x])]; Holds(u, t, c) && Roomy(u, c)
    {
      var u := cs[k := Cell(cs[k].size, cs[k].slots[i := x])];
      forall n | 0 <= n < |t.parts| ensures PartAt(u, t, c, n) { assert PartAt(cs, l, c, n); }
    }

    lemma SlotsSeen()
      requires |chains| == |primary| == |lays| && Owned(primary, chains, owner)
        && SlotsOk(primary, chains, lays, capacity, owner)
      ensures forall t {:trigger chains[t]} :: 0 <= t < |primary| ==> SlotOk(primary[t], chains[t], lays[t], capacity)
    {
      hide SlotOk;
      forall t {:trigger chains[t]} | 0 <= t < |primary| ensures SlotOk(primary[t], chains[t], lays[t], capacity) {
        SlotHere(primary, chains, lays, capacity, owner, t);
      }
    }

    // an item that is there gets a new value
    method Update(key: int, b: Bucket, i: nat, value: int, ghost place: Place)
      requires Valid() && i < |b.slots| && key in model
      requires var s := HashSlot(hash(key), level, splitSlot);
        s < |primary| == |lays| == |chains| && Found(b, i, place, lays[s], primary[s], chains[s])
            && b.slots[i].key == key && b in owner
      modifies this`lays, this`model, b`slots
      ensures Valid() && model == old(model)[key := value]
    {
      hide *;
      Opened();
      ghost var s := HashSlot(hash(key), level, splitSlot);
      ghost var l := lays[s];
      SlotsSeen();
      ghost var x := Item(key, value);
      FoundAt(b, i, place, l, primary[s], chains[s]);
      StoredHere(lays, model, hash, level, splitSlot, key);
      WriteValue(b, i, value, place, l, primary[s], chains[s]);
      ghost var t := SetAt(l, place, x);
      SetAtOk(l, place, x, capacity);
      SetItems(All(l), s, model, hash, level, splitSlot, IndexOf(l, place), value);
      SetStored(lays, model, hash, level, splitSlot, s, t, key, value);
      Totals(lays, s, t);
      forall n {:trigger chains[n]} | 0 <= n < |primary| && n != s
          ensures SlotOk(primary[n], chains[n], lays[n], capacity) {
        OwnedApart(primary, chains, owner, s, n);
        OwnedIn(primary, chains, owner, n);
        assert old(SlotOk(primary[n], chains[n], lays[n], capacity));
      }
      lays := lays[s := t];
      model := model[key := value];
      FoldSlots(primary, chains, lays, capacity, owner);
      SameCount(old(model), key, value);
      Closed();
    }

    lemma SameCount(m: map<int, int>, key: int, value: int)
      ensures key in m ==> |m[key := value]| == |m|
      ensures key !in m ==> |m[key := value]| == |m| + 1
    {
      var n := m[key := value];
      if key in m { assert n.Keys == m.Keys; } else { assert n.Keys == m.Keys + {key}; }
      assert |n| == |n.Keys| && |m| == |m.Keys|;
    }

    lemma FoundAt(b: Bucket, i: nat, place: Place, l: Lay, p: Bucket, chain: seq<Bucket>)
      requires Found(b, i, place, l, p, chain)
      ensures PlaceOk(l, place) && i < |b.slots| && b.slots[i] == ItemAt(l, place) && (b == p || b in chain)
    {
    }

    // the last record of a chain
    method LastRecord(p: Bucket, ghost chain: seq<Bucket>, ghost l: Lay) returns (last: Bucket?)
      requires SlotOk(p, chain, l, capacity)
      ensures last == LastOf(chain, l)
    {
      hide *;
      OpenSlot(p, chain, l, capacity);
      LinksHere(p, chain, 0);
      last := null;
      ghost var k := 0;
      var overflowAddress := p.link;
      while overflowAddress != null
        invariant k <= |chain| && overflowAddress == (if k < |chain| then chain[k] else null)
          && last == if k == 0 then null else chain[k - 1]
        decreases |chain| - k
      {
        LinksHere(p, chain, k);
        last := overflowAddress;
        overflowAddress := last.link;
        k := k + 1;
      }
      LastIs(chain, l);
      LastNone(chain, l);
    }

    lemma LastNone(chain: seq<Bucket>, l: Lay)
      ensures l.parts == [] ==> LastOf(chain, l) == null
    {
    }

    // the end of Insert: x goes behind the items of the slot
    method Append(p: Bucket, x: Item, ghost chain: seq<Bucket>, ghost l: Lay) returns (ghost grown: seq<Bucket>)
      requires capacity.primary > 0 && capacity.overflow > 0 && SlotOk(p, chain, l, capacity)
      modifies this`primarySize, this`overflowSize, this`overflowCount, p
      modifies set b | b in chain
      ensures var t := Put(l, x, capacity);
        && SlotOk(p, grown, t, capacity) && All(t) == All(l) + [x]
        && primarySize + |l.first| == old(primarySize) + |t.first|
        && overflowSize + |Concat(l.parts)| == old(overflowSize) + |Concat(t.parts)|
        && overflowCount + |l.parts| == old(overflowCount) + |t.parts|
      ensures chain <= grown && forall b :: b in grown && b !in chain ==> fresh(b)
      ensures primarySize + overflowSize == old(primarySize + overflowSize) + 1
    {
      hide *;
      OpenSlot(p, chain, l, capacity);
      FirstHere(p, l, capacity);
      FirstFull(CellOf(p), x, l, capacity);
      PutOk(l, x, capacity);
      ghost var t := Put(l, x, capacity);
      AllSize(l);
      AllSize(t);
      if p.size != |p.slots| {
        AddFirst(p, x, chain, l, capacity);
        grown := chain;
        primarySize := primarySize + 1;
      } else {
        var overflowRecord := LastRecord(p, chain, l);
        var last, created;
        last, created, grown := WriteNew(p, overflowRecord, x, chain, l, capacity);
        if created {
          overflowCount := overflowCount + 1;
        }
        overflowSize := overflowSize + 1;
        CloseHalf(p, grown, t, capacity);
      }
      SlotFromHalf(p, grown, t, capacity);
    }

    // the records of a new item; the lists are brought up to date after it
    method EnterRecords(slot: nat, x: Item) returns (ghost grown: seq<Bucket>)
      requires Valid() && slot < |primary|
      modifies this`primarySize, this`overflowSize, this`overflowCount, owner.Keys
      ensures slot < |chains| == |primary| == |lays| && Owned(primary, chains, owner)
      ensures forall t {:trigger chains[t]} ::
        0 <= t < |chains| && t != slot ==> SlotOk(primary[t], chains[t], lays[t], capacity)
      ensures var l := lays[slot]; var t := Put(l, x, capacity);
        && SlotOk(primary[slot], grown, t, capacity) && All(t) == All(l) + [x]
        && primarySize + |l.first| == old(primarySize) + |t.first|
        && overflowSize + |Concat(l.parts)| == old(overflowSize) + |Concat(t.parts)|
        && overflowCount + |l.parts| == old(overflowCount) + |t.parts|
      ensures chains[slot] <= grown && forall b :: b in grown && b !in chains[slot] ==> fresh(b)
      ensures primarySize + overflowSize == old(primarySize + overflowSize) + 1
    {
      hide *;
      Opened();
      SlotsSeen();
      ghost var chain := chains[slot];
      OwnedIn(primary, chains, owner, slot);
      OpenSlot(primary[slot], chain, lays[slot], capacity);
      grown := Append(primary[slot], x, chain, lays[slot]);
      forall n {:trigger chains[n]} | 0 <= n < |primary| && n != slot
          ensures SlotOk(primary[n], chains[n], lays[n], capacity) {
        OwnedApart(primary, chains, owner, slot, n);
        OwnedIn(primary, chains, owner, n);
        assert old(SlotOk(primary[n], chains[n], lays[n], capacity));
      }
    }

    ghost method Replace(slot: nat, grown: seq<Bucket>, t: Lay)
      requires slot < |chains| == |primary| == |lays| && Owned(primary, chains, owner) && chains[slot] <= grown
      requires forall n {:trigger chains[n]} ::
        0 <= n < |chains| && n != slot ==> SlotOk(primary[n], chains[n], lays[n], capacity)
      requires SlotOk(primary[slot], grown, t, capacity) && forall b :: b in grown && b !in chains[slot] ==> b !in owner
      modifies this`chains, this`lays, this`owner
      ensures lays == old(lays)[slot := t] && |chains| == |primary| == |lays|
      ensures Owned(primary, chains, owner) && SlotsOk(primary, chains, lays, capacity, owner)
      ensures owner.Keys <= old(owner.Keys) + (set b | b in grown && b !in old(chains[slot]))
    {
      hide *;
      OwnedMore(primary, chains, owner, slot, grown);
      var more := set b | b in grown && b !in chains[slot];
      owner := owner + map b | b in more :: slot;
      chains := chains[slot := grown];
      lays := lays[slot := t];
      FoldSlots(primary, chains, lays, capacity, owner);
    }

    // a new key at the slot its hash leads to
    method Enter(key: int, value: int)
      requires Valid() && key !in model
      modifies this`primarySize, this`overflowSize, this`overflowCount, this`size, this`chains, this`lays, this`owner,
        this`model, owner.Keys
      ensures Valid() && model == old(model)[key := value] && size == old(size) + 1
        && fresh(owner.Keys - old(owner.Keys))
    {
      hide *;
      Opened();
      StoredHere(lays, model, hash, level, splitSlot, key);
      var slot := HashSlot(hash(key), level, splitSlot);
      ghost var l, x := lays[slot], Item(key, value);
      ghost var t := Put(l, x, capacity);
      ghost var grown := EnterRecords(slot, Item(key, value));
      Replace(slot, grown, t);
      EnterModel(old(lays), model, slot, l, t, x);
      model := model[key := value];
      size := size + 1;
      Closed();
    }

    lemma EnterModel(lays: seq<Lay>, model: map<int, int>, slot: nat, l: Lay, t: Lay, x: Item)
      requires Stored(lays, model, hash, level, splitSlot) && slot < |lays| && lays[slot] == l && All(t) == All(l) + [x]
      requires slot == HashSlot(hash(x.key), level, splitSlot) && x.key !in model
        && ItemsOk(All(l), slot, model, hash, level, splitSlot)
      ensures Stored(lays[slot := t], model[x.key := x.value], hash, level, splitSlot)
        && |model[x.key := x.value]| == |model| + 1
      ensures FirstTotal(lays[slot := t]) + |l.first| == FirstTotal(lays) + |t.first|
      ensures OverTotal(lays[slot := t]) + |Concat(l.parts)| == OverTotal(lays) + |Concat(t.parts)|
      ensures PartTotal(lays[slot := t]) + |l.parts| == PartTotal(lays) + |t.parts|
    {
      hide *;
      MoreItems(All(l), slot, model, hash, level, splitSlot, x);
      SetStored(lays, model, hash, level, splitSlot, slot, t, x.key, x.value);
      Totals(lays, slot, t);
      SameCount(model, x.key, x.value);
    }

    // The handler sees the key and the value and returns whether to save, and the value to save.
    // A new item starts with value 0 and is saved whatever the handler returns.
    method Insert(key: int, handler: (int, int) -> (bool, int)) returns (inserted: bool)
      requires Valid()
      modifies this, owner.Keys
      ensures Valid() && fresh(owner.Keys - old(owner.Keys)) && (inserted <==> key !in old(model))
      ensures inserted ==> model == old(model)[key := handler(key, 0).1] && size == old(size) + 1
      ensures !inserted ==> size == old(size)
      ensures var splits := inserted && old(crowded(primarySize, primaryCount, capacity.primary));
        && primaryCount == old(primaryCount) + (if splits then 1 else 0)
        && (level, splitSlot) == if splits then Advanced(old(level), old(splitSlot)) else (old(level), old(splitSlot))
      ensures !inserted ==> var (save, v) := handler(key, old(model)[key]);
        model == if save then old(model)[key := v] else old(model)
    {
      hide *;
      var b, i, place := Locate(key);
      if b != null {
        var (save, value) := handler(b.slots[i].key, b.slots[i].value);
        if save {
          Opened();
          Update(key, b, i, value, place);
          Opened();
        }
        return false;
      }
      if crowded(primarySize, primaryCount, capacity.primary) {
        Split();
      }
      var (_, value) := handler(key, 0);
      Enter(key, value);
      inserted := true;
    }

    // ---------- the self-test, on any file whose chains are sound

    // Every record belongs to one slot, the links form chains that end, and the layouts say what is in the records.
    // Nothing is said about sizes, places and counters.
    ghost predicate Formed()
      reads this, owner.Keys
    {
      && capacity.primary > 0 && capacity.overflow > 0
      && |chains| == |primary| == |lays| && Owned(primary, chains, owner)
      && forall s {:trigger chains[s]} :: 0 <= s < |primary| ==> SlotFormed(primary[s], chains[s], lays[s], capacity)
    }

    ghost predicate Here(q: seq<Item>, s: nat)
      reads `level, `splitSlot
    {
      forall i {:trigger q[i]} :: 0 <= i < |q| ==> HashSlot(hash(q[i].key), level, splitSlot) == s
    }

    ghost predicate PartFine(l: Lay, s: nat, k: nat)
      reads `level, `splitSlot
    {
      k < |l.parts| && Here(l.parts[k], s) && (k + 1 < |l.parts| ==> |l.parts[k]| == capacity.overflow)
    }

    // all items of the slot belong there, and every record with a successor is full
    ghost predicate SlotFine(l: Lay, s: nat)
      reads `level, `splitSlot
    {
      && Here(l.first, s) && (l.parts != [] ==> |l.first| == capacity.primary)
      && forall k {:trigger PartFine(l, s, k)} :: 0 <= k < |l.parts| ==> PartFine(l, s, k)
    }

    // what the self-test looks at
    ghost predicate Fine()
      reads this
    {
      && primaryCount == |primary| && primaryCount == Pow2(level) + splitSlot && size == primarySize + overflowSize
      && (forall s {:trigger lays[s]} :: 0 <= s < |lays| ==> SlotFine(lays[s], s))
      && FirstTotal(lays) + OverTotal(lays) == size && PartTotal(lays) == overflowCount
    }

    // what it does not look at: the split slot, the share of the primary records in the size, empty overflow records,
    // and the keys and values themselves
    ghost predicate Unseen()
      reads this
    {
      && splitSlot < Pow2(level) && primarySize == FirstTotal(lays) && size == |model|
      && (forall s {:trigger lays[s]} :: 0 <= s < |lays| ==> NoneEmpty(lays[s]) && Recorded(All(lays[s]), model))
      && forall key {:trigger model[key]} :: key in model ==>
           var s := HashSlot(hash(key), level, splitSlot); s < |lays| && HasItem(All(lays[s]), key)
    }

    lemma FormedParts(slot: nat)
      requires Formed() && slot < |primary|
      ensures capacity.primary > 0 && capacity.overflow > 0 && |chains| == |primary| == |lays|
      ensures SlotFormed(primary[slot], chains[slot], lays[slot], capacity)
    {
      hide SlotFormed, Owned;
    }

    lemma SlotFineParts(l: Lay, s: nat)
      ensures SlotFine(l, s) <==>
                && (forall i :: 0 <= i < |l.first| ==> HashSlot(hash(l.first[i].key), level, splitSlot) == s)
                && (l.parts != [] ==> |l.first| == capacity.primary)
                && forall k {:trigger PartFine(l, s, k)} :: 0 <= k < |l.parts| ==> PartFine(l, s, k)
    {
      hide HashSlot, PartFine;
    }

    lemma PartFineParts(l: Lay, s: nat, k: nat)
      requires k < |l.parts|
      ensures PartFine(l, s, k) <==>
                && (forall i :: 0 <= i < |l.parts[k]| ==> HashSlot(hash(l.parts[k][i].key), level, splitSlot) == s)
                && (k + 1 < |l.parts| ==> |l.parts[k]| == capacity.overflow)
    {
      hide HashSlot;
    }

    // the part of SelfTest that looks at one slot: its items and overflow records are counted, or a fault is found
    method TestSlot(slot: nat) returns (ok: bool, items: nat, overflows: nat)
      requires Formed() && slot < |primary|
      ensures slot < |lays| && (ok <==> SlotFine(lays[slot], slot))
      ensures ok ==> items == |All(lays[slot])| && overflows == |lays[slot].parts|
    {
      hide *;
      FormedParts(slot);
      ghost var chain, l := chains[slot], lays[slot];
      var record := primary[slot];
      SlotFormedParts(record, chain, l, capacity);
      FirstHere(record, l, capacity);
      LinksHere(record, chain, 0);
      SlotFineParts(l, slot);
      AllSize(l);
      ok, items, overflows := true, record.size, 0;
      ReadSoFar(l, 0);
      for i := 0 to record.size
        invariant ok && forall n :: 0 <= n < i ==> HashSlot(hash(l.first[n].key), level, splitSlot) == slot
      {
        if HashSlot(hash(record.slots[i].key), level, splitSlot) != slot {
          assert record.slots[i] == l.first[i];
          ok := false;
          return;
        }
      }
      var overflowAddress := record.link;
      if overflowAddress != null && record.size != |record.slots| {
        ok := false;
        return;
      }
      ghost var k := 0;
      while overflowAddress != null
        invariant k <= |chain| && overflowAddress == (if k < |chain| then chain[k] else null)
        invariant ok && overflows == k && items == |l.first + Concat(l.parts[..k])|
        invariant forall n {:trigger PartFine(l, slot, n)} :: 0 <= n < k ==> PartFine(l, slot, n)
        decreases |chain| - k
      {
        PartHere(chain, l, capacity, k);
        LinksHere(record, chain, k);
        ReadSoFar(l, k);
        PartFineParts(l, slot, k);
        for i := 0 to overflowAddress.size
          invariant ok && forall n :: 0 <= n < i ==> HashSlot(hash(l.parts[k][n].key), level, splitSlot) == slot
        {
          if HashSlot(hash(overflowAddress.slots[i].key), level, splitSlot) != slot {
            assert overflowAddress.slots[i] == l.parts[k][i];
            ok := false;
            return;
          }
        }
        items := items + overflowAddress.size;
        overflows := overflows + 1;
        if overflowAddress.link != null && overflowAddress.size != |overflowAddress.slots| {
          ok := false;
          return;
        }
        overflowAddress := overflowAddress.link;
        k := k + 1;
      }
      SlotFineParts(l, slot);
      ReadSoFar(l, |chain|);
    }

    // The test passes exactly when everything it looks at is right; the length of the primary file is that of
    // `primary`.
    method SelfTest() returns (ok: bool)
      requires Formed()
      ensures ok <==> Fine()
      ensures ok && Unseen() <==> Valid()
    {
      hide *;
      FineParts();
      ValidIs();
      if |primary| != primaryCount {
        return false;
      }
      if primaryCount != Pow2(level) + splitSlot {
        return false;
      }
      if size != primarySize + overflowSize {
        return false;
      }
      var items, overflows := 0, 0;
      TotalsOf(lays);
      for slot := 0 to primaryCount
        invariant items == FirstTotal(lays[..slot]) + OverTotal(lays[..slot]) && overflows == PartTotal(lays[..slot])
        invariant forall s {:trigger lays[s]} :: 0 <= s < slot ==> SlotFine(lays[s], s)
      {
        var good, n, m := TestSlot(slot);
        if !good {
          return false;
        }
        assert lays[..slot + 1] == lays[..slot] + [lays[slot]];
        TotalsMore(lays[..slot], lays[slot]);
        AllSize(lays[slot]);
        items := items + n;
        overflows := overflows + m;
      }
      assert lays[..primaryCount] == lays;
      ok := items == size && overflows == overflowCount;
    }

    lemma FineParts()
      requires Formed()
      ensures |chains| == |primary| == |lays|
      ensures Fine() <==>
                && primaryCount == |primary| && primaryCount == Pow2(level) + splitSlot
                  && size == primarySize + overflowSize
                && (forall s {:trigger lays[s]} :: 0 <= s < |lays| ==> SlotFine(lays[s], s))
                && FirstTotal(lays) + OverTotal(lays) == size && PartTotal(lays) == overflowCount
    {
      hide SlotFine, SlotFormed, Owned, Pow2;
    }

    // the invariant is what the test looks at and what it does not look at
    lemma ValidIs()
      requires Formed()
      ensures Valid() <==> Fine() && Unseen()
    {
      hide *;
      FineParts();
      UnseenParts();
      ValidParts();
      forall s | 0 <= s < |lays|
        ensures SlotOk(primary[s], chains[s], lays[s], capacity) <==> Shaped(lays[s], capacity)
        ensures Shaped(lays[s], capacity) && ItemsOk(All(lays[s]), s, model, hash, level, splitSlot) <==>
                  SlotFine(lays[s], s) && NoneEmpty(lays[s]) && Recorded(All(lays[s]), model)
      {
        FormedParts(s);
        SlotFormedParts(primary[s], chains[s], lays[s], capacity);
        SlotIs(primary[s], chains[s], lays[s], capacity);
        FineIs(lays[s], s);
      }
      StoredParts();
    }

    lemma FineIs(l: Lay, s: nat)
      requires |l.first| <= capacity.primary && forall k :: 0 <= k < |l.parts| ==> |l.parts[k]| <= capacity.overflow
      ensures Shaped(l, capacity) && ItemsOk(All(l), s, model, hash, level, splitSlot) <==>
                SlotFine(l, s) && NoneEmpty(l) && Recorded(All(l), model)
    {
      hide *;
      HereAll(l, s);
      ShapedParts(l, s);
      ItemsOkParts(All(l), s);
    }

    lemma ShapedParts(l: Lay, s: nat)
      requires |l.first| <= capacity.primary && forall k :: 0 <= k < |l.parts| ==> |l.parts[k]| <= capacity.overflow
      ensures SlotFine(l, s) && NoneEmpty(l) <==>
                Shaped(l, capacity) && Here(l.first, s) && forall k {:trigger l.parts[k]} ::
                    0 <= k < |l.parts| ==> Here(l.parts[k], s)
    {
      hide Here;
      if SlotFine(l, s) && NoneEmpty(l) {
        forall k | 0 <= k < |l.parts|
          ensures 0 < |l.parts[k]| && Here(l.parts[k], s) && (k + 1 < |l.parts| ==> |l.parts[k]| == capacity.overflow)
        {
          assert PartFine(l, s, k);
        }
      }
    }

    lemma ItemsOkParts(q: seq<Item>, s: nat)
      ensures ItemsOk(q, s, model, hash, level, splitSlot) <==> Here(q, s) && Recorded(q, model)
    {
      hide HashSlot, DistinctKeys;
    }

    // the items of a slot belong there when those of its records do
    lemma HereAll(l: Lay, s: nat)
      ensures Here(All(l), s) <==>
        Here(l.first, s) && forall k {:trigger l.parts[k]} :: 0 <= k < |l.parts| ==> Here(l.parts[k], s)
    {
      hide Here, Concat;
      HereConcat(l.parts, s);
      HereBoth(l.first, Concat(l.parts), s);
    }

    lemma HereBoth(p: seq<Item>, q: seq<Item>, s: nat)
      ensures Here(p + q, s) <==> Here(p, s) && Here(q, s)
    {
      hide HashSlot;
      if Here(p + q, s) {
        forall i | 0 <= i < |p| ensures HashSlot(hash(p[i].key), level, splitSlot) == s { assert (p + q)[i] == p[i]; }
        forall i | 0 <= i < |q| ensures HashSlot(hash(q[i].key), level, splitSlot)
            == s { assert (p + q)[|p| + i] == q[i]; }
      }
    }

    lemma {:induction false} HereConcat(parts: seq<seq<Item>>, s: nat)
      ensures Here(Concat(parts), s) <==> forall k {:trigger parts[k]} :: 0 <= k < |parts| ==> Here(parts[k], s)
    {
      if parts == [] {
        assert Concat(parts) == [];
      } else {
        var init, last := parts[..|parts| - 1], parts[|parts| - 1];
        HereConcat(init, s);
        HereBoth(Concat(init), last, s);
        hide Here;
        assert forall k {:trigger parts[k]} :: 0 <= k < |init| ==> parts[k] == init[k];
        assert forall k {:trigger init[k]} :: 0 <= k < |init| ==> parts[k] == init[k];
      }
    }

    lemma UnseenParts()
      ensures Unseen() <==>
                && splitSlot < Pow2(level) && primarySize == FirstTotal(lays) && size == |model|
                && (forall s {:trigger lays[s]} ::
                  0 <= s < |lays| ==> NoneEmpty(lays[s]) && Recorded(All(lays[s]), model))
                && forall key {:trigger model[key]} :: key in model ==>
                     var s := HashSlot(hash(key), level, splitSlot); s < |lays| && HasItem(All(lays[s]), key)
    {
      hide NoneEmpty, Recorded, HashSlot, HasItem, Pow2;
    }

    lemma StoredParts()
      ensures Stored(lays, model, hash, level, splitSlot) <==>
                && (forall s {:trigger lays[s]} ::
                  0 <= s < |lays| ==> ItemsOk(All(lays[s]), s, model, hash, level, splitSlot))
                && forall key {:trigger model[key]} :: key in model ==>
                     var s := HashSlot(hash(key), level, splitSlot); s < |lays| && HasItem(All(lays[s]), key)
    {
      hide ItemsOk, HashSlot, HasItem;
    }

    lemma ValidParts()
      requires Formed()
      ensures |chains| == |primary| == |lays|
      ensures Valid() <==>
                && (forall s {:trigger lays[s]} :: 0 <= s < |lays| ==> SlotOk(primary[s], chains[s], lays[s], capacity))
                && splitSlot < Pow2(level) && primaryCount == |primary| && primaryCount == Pow2(level) + splitSlot
                && primarySize == FirstTotal(lays) && overflowSize == OverTotal(lays)
                  && overflowCount == PartTotal(lays)
                && Stored(lays, model, hash, level, splitSlot) && size == |model| && size == primarySize + overflowSize
    {
      hide SlotOk, SlotFormed, Owned, Stored, Pow2;
    }

    lemma TotalsOf(q: seq<Lay>)
      ensures FirstTotal(q[..0]) == 0 && OverTotal(q[..0]) == 0 && PartTotal(q[..0]) == 0
    {
    }
  }

  // the map after the items have been put in, one after the other
  ghost function PutInto(items: seq<Item>): map<int, int>
  {
    if items == [] then map[]
    else
      var init, last := items[..|items| - 1], items[|items| - 1];
      PutInto(init)[last.key := last.value]
  }

  // Any run of insertions, each setting the value of its key, leaves the last value put in for every key.
  method PutAll(capacity: Capacity, hash: int -> nat, crowded: (nat, nat, nat) -> bool, items: seq<Item>)
      returns (table: LinearHash)
    requires capacity.primary > 0 && capacity.overflow > 0
    ensures fresh(table) && table.Valid() && table.model == PutInto(items) && table.hash == hash
      && table.capacity == capacity
  {
    hide *;
    table := new LinearHash(capacity, hash, crowded);
    PutNone(items[..0]);
    for i := 0 to |items|
      invariant fresh(table) && fresh(table.owner.Keys) && table.hash == hash && table.capacity == capacity
      invariant table.Valid() && table.model == PutInto(items[..i])
    {
      var item := items[i];
      PutNext(items, i);
      var inserted := table.Insert(item.key, (key, value) => (true, item.value));
    }
    assert items[..|items|] == items;
  }

  lemma PutNone(items: seq<Item>)
    requires items == []
    ensures PutInto(items) == map[]
  {
  }

  lemma PutNext(items: seq<Item>, n: nat)
    requires n < |items|
    ensures PutInto(items[..n + 1]) == PutInto(items[..n])[items[n].key := items[n].value]
  {
    assert items[..n + 1][..n] == items[..n];
  }
}
