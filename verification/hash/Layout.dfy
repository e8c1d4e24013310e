// How the items of one slot lie in a primary record and its chain of overflow records.
module HashLayout {
  datatype Item = Item(key: int, value: int)

  // the items of the primary record, and those of each overflow record
  datatype Lay = Lay(first: seq<Item>, parts: seq<seq<Item>>)

  datatype Capacity = Capacity(primary: nat, overflow: nat)

  ghost function Concat(parts: seq<seq<Item>>): seq<Item>
  {
    if parts == [] then [] else Concat(parts[..|parts| - 1]) + parts[|parts| - 1]
  }

  ghost function All(l: Lay): seq<Item> { l.first + Concat(l.parts) }

  // every record but the last is full, and no overflow record is empty
  ghost predicate Shaped(l: Lay, c: Capacity)
  {
    && |l.first| <= c.primary && (l.parts != [] ==> |l.first| == c.primary)
    && (forall k :: 0 <= k < |l.parts| ==> 0 < |l.parts[k]| <= c.overflow)
    && (forall k :: 0 <= k < |l.parts| - 1 ==> |l.parts[k]| == c.overflow)
  }

  // one more item behind the others
  ghost function Put(l: Lay, x: Item, c: Capacity): Lay
  {
    if |l.first| < c.primary then l.(first := l.first + [x])
    else if l.parts == [] || |l.parts[|l.parts| - 1]| == c.overflow then l.(parts := l.parts + [[x]])
    else l.(parts := l.parts[..|l.parts| - 1] + [l.parts[|l.parts| - 1] + [x]])
  }

  lemma ConcatLast(parts: seq<seq<Item>>, q: seq<Item>)
    ensures Concat(parts + [q]) == Concat(parts) + q
  {
    assert (parts + [q])[..|parts|] == parts;
  }

  lemma PutOk(l: Lay, x: Item, c: Capacity)
    requires Shaped(l, c) && c.primary > 0 && c.overflow > 0
    ensures Shaped(Put(l, x, c), c) && All(Put(l, x, c)) == All(l) + [x]
  {
    PutShaped(l, x, c);
    hide Concat, Shaped;
    var n := |l.parts|;
    if |l.first| < c.primary {
      NoParts(l, c);
      ConcatNone();
      assert Put(l, x, c) == Lay(l.first + [x], []);
    } else if l.parts == [] || |l.parts[n - 1]| == c.overflow {
      ConcatLast(l.parts, [x]);
      assert l.first + (Concat(l.parts) + [x]) == All(l) + [x];
    } else {
      var init, last := l.parts[..n - 1], l.parts[n - 1];
      assert l.parts == init + [last];
      ConcatLast(init, last);
      ConcatLast(init, last + [x]);
      assert l.first + (Concat(init) + (last + [x])) == l.first + (Concat(init) + last) + [x];
    }
  }

  lemma ConcatNone()
    ensures Concat([]) == []
  {
  }

  lemma NoParts(l: Lay, c: Capacity)
    requires Shaped(l, c) && |l.first| < c.primary
    ensures l.parts == []
  {
  }

  lemma PutShaped(l: Lay, x: Item, c: Capacity)
    requires Shaped(l, c) && c.primary > 0 && c.overflow > 0
    ensures Shaped(Put(l, x, c), c)
  {
  }

  // ---------- the items that stay, and those that go, when a slot is split

  ghost function Chosen(q: seq<Item>, stays: int -> bool): (r: seq<Item>)
  {
    if q == [] then []
    else Chosen(q[..|q| - 1], stays) + if stays(q[|q| - 1].key) then [q[|q| - 1]] else []
  }

  ghost function Others(stays: int -> bool): int -> bool { k => !stays(k) }

  lemma ChosenNext(q: seq<Item>, n: nat, stays: int -> bool)
    requires n < |q|
    ensures Chosen(q[..n + 1], stays) == Chosen(q[..n], stays) + if stays(q[n].key) then [q[n]] else []
  {
    assert q[..n + 1][..n] == q[..n];
  }

  // nothing is lost and nothing appears
  lemma {:induction false} ChosenAll(q: seq<Item>, stays: int -> bool)
    ensures multiset(Chosen(q, stays)) + multiset(Chosen(q, Others(stays))) == multiset(q)
  {
    if q != [] {
      ChosenAll(q[..|q| - 1], stays);
      assert q == q[..|q| - 1] + [q[|q| - 1]];
    }
  }

  lemma {:induction false} ChosenFrom(q: seq<Item>, stays: int -> bool, i: nat)
    requires i < |Chosen(q, stays)|
    ensures Chosen(q, stays)[i] in q && stays(Chosen(q, stays)[i].key)
  {
    if q != [] {
      var p := Chosen(q[..|q| - 1], stays);
      if i < |p| { ChosenFrom(q[..|q| - 1], stays, i); }
    }
  }

  lemma {:induction false} ChosenHas(q: seq<Item>, stays: int -> bool, i: nat)
    requires i < |q| && stays(q[i].key)
    ensures q[i] in Chosen(q, stays)
  {
    if i < |q| - 1 { ChosenHas(q[..|q| - 1], stays, i); }
  }

  ghost predicate DistinctKeys(q: seq<Item>) { forall i, j :: 0 <= i < j < |q| ==> q[i].key != q[j].key }

  lemma {:induction false} ChosenDistinct(q: seq<Item>, stays: int -> bool)
    requires DistinctKeys(q)
    ensures DistinctKeys(Chosen(q, stays))
  {
    if q != [] {
      var p := q[..|q| - 1];
      ChosenDistinct(p, stays);
      forall i | 0 <= i < |Chosen(p, stays)| ensures Chosen(p, stays)[i].key != q[|q| - 1].key {
        ChosenFrom(p, stays, i);
      }
    }
  }

  // ---------- one place of a layout

  datatype Place = InFirst(i: nat) | InPart(k: nat, i: nat)

  ghost predicate PlaceOk(l: Lay, p: Place)
  {
    match p
    case InFirst(i) => i < |l.first|
    case InPart(k, i) => k < |l.parts| && i < |l.parts[k]|
  }

  ghost function ItemAt(l: Lay, p: Place): Item
    requires PlaceOk(l, p)
  {
    match p
    case InFirst(i) => l.first[i]
    case InPart(k, i) => l.parts[k][i]
  }

  ghost function SetAt(l: Lay, p: Place, x: Item): Lay
    requires PlaceOk(l, p)
  {
    match p
    case InFirst(i) => l.(first := l.first[i := x])
    case InPart(k, i) => l.(parts := l.parts[k := l.parts[k][i := x]])
  }

  ghost function IndexOf(l: Lay, p: Place): nat
    requires PlaceOk(l, p)
  {
    match p
    case InFirst(i) => i
    case InPart(k, i) => |l.first| + |Concat(l.parts[..k])| + i
  }

  lemma {:induction false} ConcatAt(parts: seq<seq<Item>>, k: nat, i: nat, x: Item)
    requires k < |parts| && i < |parts[k]|
    ensures var n := |Concat(parts[..k])| + i;
      n < |Concat(parts)| && Concat(parts)[n] == parts[k][i]
          && Concat(parts[k := parts[k][i := x]]) == Concat(parts)[n := x]
    decreases |parts|
  {
    var m := |parts| - 1;
    var t := parts[k := parts[k][i := x]];
    var n := |Concat(parts[..k])| + i;
    if k < m {
      ConcatAt(parts[..m], k, i, x);
      assert parts[..m][..k] == parts[..k] && t[..m] == parts[..m][k := parts[k][i := x]];
    } else {
      assert t[..m] == parts[..m];
    }
  }

  lemma SetAtOk(l: Lay, p: Place, x: Item, c: Capacity)
    requires PlaceOk(l, p)
    ensures IndexOf(l, p) < |All(l)| && All(l)[IndexOf(l, p)] == ItemAt(l, p)
    ensures All(SetAt(l, p, x)) == All(l)[IndexOf(l, p) := x]
    ensures Shaped(l, c) ==> Shaped(SetAt(l, p, x), c)
    ensures |SetAt(l, p, x).first| == |l.first| && |SetAt(l, p, x).parts| == |l.parts|
    ensures |Concat(SetAt(l, p, x).parts)| == |Concat(l.parts)|
  {
    if p.InPart? { ConcatAt(l.parts, p.k, p.i, x); }
  }

  ghost predicate Free(q: seq<Item>, key: int) { forall i :: 0 <= i < |q| ==> q[i].key != key }

  lemma {:induction false} ConcatFree(parts: seq<seq<Item>>, key: int)
    requires forall k :: 0 <= k < |parts| ==> Free(parts[k], key)
    ensures Free(Concat(parts), key)
  {
    if parts != [] { ConcatFree(parts[..|parts| - 1], key); }
  }
}
