// The two ends of a split: where an item that stays and an item that goes are written.
module HashSplitting {
  import opened HashLayout
  import opened HashBuckets

  // the record the last overflow item of a layout lies in
  ghost function LastOf(chain: seq<Bucket>, l: Lay): Bucket?
  {
    if l.parts == [] || |l.parts| > |chain| then null else chain[|l.parts| - 1]
  }

  lemma NextRecord(p: Bucket, chain: seq<Bucket>, l: Lay, c: Capacity)
    requires Linked(p, chain) && Holds(Cells(chain), l, c) && At(l, c) < |chain|
    ensures LastOf(chain, l) == null ==> p.link == chain[At(l, c)] && SlotAt(l, c) == 0
    ensures var b := LastOf(chain, l); b != null ==>
              && (b.size == |b.slots| <==> |l.parts[|l.parts| - 1]| == c.overflow)
              && (b.size == |b.slots| ==> b.link == chain[At(l, c)] && SlotAt(l, c) == 0)
              && (b.size != |b.slots| ==> b == chain[At(l, c)] && SlotAt(l, c) == b.size)
  {
    var n := |l.parts|;
    if n > 0 {
      assert PartAt(Cells(chain), l, c, n - 1) && LinkOk(chain, n - 1);
      assert Cells(chain)[n - 1] == CellOf(chain[n - 1]);
    }
  }

  // writes x as the overflow item behind the layout's
  method WriteNext(p: Bucket, oldOverflow: Bucket?, x: Item, ghost chain: seq<Bucket>, ghost l: Lay, ghost c: Capacity)
      returns (last: Bucket)
    requires Linked(p, chain) && Distinct(chain) && Holds(Cells(chain), l, c) && At(l, c) < |chain|
      && oldOverflow == LastOf(chain, l)
    requires Roomy(Cells(chain), c) && SlotAt(l, c) < c.overflow
    modifies (set b | b in chain)`size
    modifies (set b | b in chain)`slots
    ensures last == chain[At(l, c)] && Cells(chain) == Written(old(Cells(chain)), l, x, c)
  {
    hide Linked, Holds, At, SlotAt, Live;
    NextRecord(p, chain, l, c);
    ghost var cs := Cells(chain);
    ghost var w := At(l, c);
    if oldOverflow == null {
      last := p.link;
      last.size := 0;
    } else if oldOverflow.Full() {
      last := oldOverflow.link;
      last.size := 0;
    } else {
      last := oldOverflow;
    }
    assert cs[w] == old(CellOf(chain[w]));
    last.Add(x);
    CellsOne(cs, chain, w);
  }

  // links a new record behind the chain
  method Extend(p: Bucket, newOverflow: Bucket?, ghost chain: seq<Bucket>, c: Capacity) returns (last: Bucket)
    requires Linked(p, chain) && Distinct(chain) && p !in chain
    requires newOverflow == (if chain == [] then null else chain[|chain| - 1])
    modifies p`link, (if newOverflow == null then {} else {newOverflow})`link
    ensures fresh(last) && |last.slots| == c.overflow && last.size == 0 && last !in chain
    ensures Linked(p, chain + [last]) && Distinct(chain + [last])
  {
    last := new Bucket(c.overflow);
    if newOverflow == null {
      p.link := last;
    } else {
      newOverflow.link := last;
    }
    ghost var grown := chain + [last];
    forall k | 0 <= k < |grown| ensures LinkOk(grown, k) {
      if k < |chain| { assert old(LinkOk(chain, k)); }
    }
  }

  lemma CellsMore(chain: seq<Bucket>, b: Bucket)
    ensures Cells(chain + [b]) == Cells(chain) + [CellOf(b)]
  {
  }

  lemma HoldsMore(cs: seq<Cell>, cell: Cell, l: Lay, c: Capacity)
    requires Holds(cs, l, c) && Roomy(cs, c) && |cell.slots| == c.overflow
    ensures Holds(cs + [cell], l, c) && Roomy(cs + [cell], c)
  {
    forall k | 0 <= k < |l.parts| ensures PartAt(cs + [cell], l, c, k) { assert PartAt(cs, l, c, k); }
  }

  // the last record of a chain that the layout fills exactly
  lemma LastHere(chain: seq<Bucket>, l: Lay, c: Capacity)
    requires Holds(Cells(chain), l, c) && |l.parts| == |chain| && Shaped(l, c) && c.overflow > 0
    ensures chain == [] ==> LastOf(chain, l) == null && At(l, c) == 0 && SlotAt(l, c) == 0
    ensures chain != [] ==>
              && LastOf(chain, l) == chain[|chain| - 1] && |chain[|chain| - 1].slots| == c.overflow
              && (chain[|chain| - 1].size == |chain[|chain| - 1].slots| ==> At(l, c) == |chain| && SlotAt(l, c) == 0)
              && (chain[|chain| - 1].size != |chain[|chain| - 1].slots| ==>
                    At(l, c) == |chain| - 1 && SlotAt(l, c) == chain[|chain| - 1].size
                        && 0 < chain[|chain| - 1].size < c.overflow)
  {
    var n := |l.parts|;
    if n > 0 {
      assert PartAt(Cells(chain), l, c, n - 1);
      assert Cells(chain)[n - 1] == CellOf(chain[n - 1]);
    }
  }

  // writes x as the overflow item behind the layout's, in a chain that grows by new records
  method WriteNew(p: Bucket, newOverflow: Bucket?, x: Item, ghost chain: seq<Bucket>, ghost l: Lay, c: Capacity)
    returns (last: Bucket, created: bool, ghost grown: seq<Bucket>)
    requires Linked(p, chain) && Distinct(chain) && p !in chain && Holds(Cells(chain), l, c) && |l.parts| == |chain|
    requires newOverflow == LastOf(chain, l) && Roomy(Cells(chain), c) && Shaped(l, c) && |l.first| == c.primary
      && c.overflow > 0
    modifies p`link
    modifies (set b | b in chain)`link
    modifies (set b | b in chain)`size
    modifies (set b | b in chain)`slots
    ensures created == (SlotAt(l, c) == 0) && (created ==> fresh(last))
      && grown == (if created then chain + [last] else chain)
    ensures Linked(p, grown) && Distinct(grown) && p !in grown && grown != [] && last == grown[|grown| - 1]
    ensures Roomy(Cells(grown), c) && Holds(Cells(grown), Put(l, x, c), c) && |Put(l, x, c).parts| == |grown|
  {
    hide Linked, Holds, At, SlotAt, Live, Put, Roomy, Written, Shaped;
    LastHere(chain, l, c);
    ghost var cs := Cells(chain);
    if newOverflow == null || newOverflow.Full() {
      created := true;
      last := Extend(p, newOverflow, chain, c);
      grown := chain + [last];
      assert Cells(chain) == cs;
      CellsMore(chain, last);
      HoldsMore(cs, CellOf(last), l, c);
    } else {
      created := false;
      last := newOverflow;
      grown := chain;
    }
    ghost var base := Cells(grown);
    WrittenHolds(base, l, x, c);
    last.Add(x);
    CellsOne(base, grown, |grown| - 1);
    WrittenIs(base, l, x, c, CellOf(last));
  }

  lemma WrittenIs(cs: seq<Cell>, l: Lay, x: Item, c: Capacity, cell: Cell)
    requires At(l, c) < |cs| && SlotAt(l, c) < |cs[At(l, c)].slots|
    requires cell == Cell(SlotAt(l, c) + 1, cs[At(l, c)].slots[SlotAt(l, c) := x])
    ensures Written(cs, l, x, c) == cs[At(l, c) := cell]
  {
  }

  // ---------- reading record j from slot i while the chain is being rewritten

  // What has not been read yet is still there: the writing, at the layout lo, never gets ahead of the reading.
  ghost predicate Unread(cs: seq<Cell>, l0: Lay, lo: Lay, c: Capacity, j: nat, i: nat)
  {
    && |l0.parts| == |cs| && j <= |cs|
    && (lo.parts == [] || |lo.parts| - 1 < j || (|lo.parts| - 1 == j && |lo.parts[j]| <= i))
    && (forall k {:trigger PartAt(cs, l0, c, k)} :: j < k < |cs| ==> PartAt(cs, l0, c, k))
    && (j < |cs| ==>
          && |cs[j].slots| == c.overflow && i <= |l0.parts[j]| <= c.overflow
          && (forall m :: i <= m < |l0.parts[j]| ==> cs[j].slots[m] == l0.parts[j][m])
          && (|lo.parts| <= j ==> cs[j].size == |l0.parts[j]|))
  }

  lemma UnreadStart(cs: seq<Cell>, l0: Lay, lo: Lay, c: Capacity)
    requires Holds(cs, l0, c) && |l0.parts| == |cs| && lo.parts == [] && Shaped(l0, c)
    ensures Unread(cs, l0, lo, c, 0, 0)
  {
    if |cs| > 0 { assert PartAt(cs, l0, c, 0); }
  }

  // an item goes elsewhere
  lemma UnreadSkip(cs: seq<Cell>, l0: Lay, lo: Lay, t: Lay, c: Capacity, j: nat, i: nat)
    requires Unread(cs, l0, lo, c, j, i) && j < |cs| && i < |l0.parts[j]| && t.parts == lo.parts
    ensures Unread(cs, l0, t, c, j, i + 1)
  {
  }

  // an item is written back into the chain: behind the reading, never over an unread item
  lemma UnreadWrite(cs: seq<Cell>, l0: Lay, lo: Lay, c: Capacity, j: nat, i: nat, x: Item)
    requires Unread(cs, l0, lo, c, j, i) && j < |cs| && i < |l0.parts[j]| && Shaped(lo, c) && |lo.first| == c.primary
      && c.overflow > 0
    ensures At(lo, c) <= j && SlotAt(lo, c) < c.overflow && (At(lo, c) == j ==> SlotAt(lo, c) <= i)
    ensures Roomy(cs, c) ==> Unread(Written(cs, lo, x, c), l0, Put(lo, x, c), c, j, i + 1)
  {
    var t, u := Written(cs, lo, x, c), Put(lo, x, c);
    if Roomy(cs, c) {
      forall k | j < k < |cs| ensures PartAt(t, l0, c, k) { assert PartAt(cs, l0, c, k); }
    }
  }

  lemma UnreadNext(cs: seq<Cell>, l0: Lay, lo: Lay, c: Capacity, j: nat)
    requires j < |cs| && |l0.parts| == |cs| && Unread(cs, l0, lo, c, j, |l0.parts[j]|) && Shaped(l0, c)
    ensures Unread(cs, l0, lo, c, j + 1, 0)
  {
    if j + 1 < |cs| { assert PartAt(cs, l0, c, j + 1); }
  }

  // ---------- the items read so far, shared out

  ghost predicate Shares(lo: Lay, ln: Lay, read: seq<Item>, stays: int -> bool, c: Capacity)
  {
    Shaped(lo, c) && Shaped(ln, c) && All(lo) == Chosen(read, stays) && All(ln) == Chosen(read, Others(stays))
  }

  lemma SharesNext(lo: Lay, ln: Lay, read: seq<Item>, x: Item, stays: int -> bool, c: Capacity)
    requires Shares(lo, ln, read, stays, c) && c.primary > 0 && c.overflow > 0
    ensures stays(x.key) ==> Shares(Put(lo, x, c), ln, read + [x], stays, c)
    ensures !stays(x.key) ==> Shares(lo, Put(ln, x, c), read + [x], stays, c)
  {
    PutOk(lo, x, c);
    PutOk(ln, x, c);
    assert (read + [x])[..|read|] == read;
    ChosenNext(read + [x], |read|, stays);
    ChosenNext(read + [x], |read|, Others(stays));
    hide Put, Shaped, Chosen;
    assert (read + [x])[..|read| + 1] == read + [x];
  }

  lemma SharesSize(lo: Lay, ln: Lay, read: seq<Item>, stays: int -> bool, c: Capacity)
    requires Shares(lo, ln, read, stays, c)
    ensures |All(lo)| + |All(ln)| == |read|
  {
    hide Shaped, All;
    ChosenAll(read, stays);
    assert |multiset(Chosen(read, stays)) + multiset(Chosen(read, Others(stays)))| == |multiset(read)|;
  }
}
