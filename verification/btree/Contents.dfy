// The items of the leaves, read along the chain.
module BTreeContents {
  import opened BTreeNodes
  import opened BTreeStructure

  ghost predicate SameItemsAt(s: Store, t: Store, n: Node)
  {
    n in s && n in t && t[n].items == s[n].items
  }

  lemma FlatSame(s: Store, t: Store, chain: seq<Node>)
    requires forall j {:trigger chain[j]} :: 0 <= j < |chain| ==> SameItemsAt(s, t, chain[j])
    ensures forall m {:trigger FlatTo(t, chain, m)} {:trigger FlatTo(s, chain, m)} ::
      FlatTo(t, chain, m) == FlatTo(s, chain, m)
  {
    forall m: nat ensures FlatTo(t, chain, m) == FlatTo(s, chain, m) {
      FlatSameTo(s, t, chain, chain, m);
    }
  }

  // equal items on the first m leaves give equal contents
  lemma {:induction false} FlatSameTo(s: Store, t: Store, chain: seq<Node>, other: seq<Node>, m: nat)
    requires m > |chain| ==> m > |other|
    requires m <= |chain| ==> m <= |other|
    requires m <= |chain| ==> forall j {:trigger other[j]} {:trigger chain[j]} :: 0 <= j < m ==>
               other[j] == chain[j] && SameItemsAt(s, t, chain[j])
    ensures FlatTo(t, other, m) == FlatTo(s, chain, m)
  {
    if m > 0 && m <= |chain| {
      assert other[m - 1] == chain[m - 1];
      FlatSameTo(s, t, chain, other, m - 1);
    }
  }

  lemma {:induction false} FlatMono(s: Store, chain: seq<Node>, a: nat, b: nat)
    requires a <= b <= |chain|
    ensures |FlatTo(s, chain, a)| <= |FlatTo(s, chain, b)|
    ensures FlatTo(s, chain, b)[..|FlatTo(s, chain, a)|] == FlatTo(s, chain, a)
  {
    if a < b {
      FlatMono(s, chain, a, b - 1);
      var p, q := FlatTo(s, chain, a), FlatTo(s, chain, b - 1);
      assert FlatTo(s, chain, b)[..|q|] == q;
      assert FlatTo(s, chain, b)[..|p|] == q[..|p|];
    }
  }

  // the leaves chain[a + j] and other[b + j] are the same and hold the same items
  ghost predicate SameAt(s: Store, t: Store, chain: seq<Node>, other: seq<Node>, a: nat, b: nat, j: nat)
  {
    a + j < |chain| && b + j < |other| && other[b + j] == chain[a + j] && SameItemsAt(s, t, chain[a + j])
  }

  lemma FlatNext(s: Store, chain: seq<Node>, h: nat)
    requires h < |chain| && chain[h] in s
    ensures FlatTo(s, chain, h + 1) == FlatTo(s, chain, h) + s[chain[h]].items
  {
  }

  // two chains that agree from the positions a and b on
  lemma {:induction false} FlatTail(s: Store, t: Store, chain: seq<Node>, other: seq<Node>, a: nat, b: nat, k: nat)
    requires a + k <= |chain| && b + k <= |other|
    requires forall j: nat {:trigger SameAt(s, t, chain, other, a, b, j)} ::
      j < k ==> SameAt(s, t, chain, other, a, b, j)
    ensures |FlatTo(s, chain, a)| <= |FlatTo(s, chain, a + k)|
    ensures FlatTo(t, other, b + k) == FlatTo(t, other, b) + FlatTo(s, chain, a + k)[|FlatTo(s, chain, a)|..]
  {
    hide FlatTo;
    if k == 0 {
      assert FlatTo(s, chain, a)[|FlatTo(s, chain, a)|..] == [];
    } else {
      FlatTail(s, t, chain, other, a, b, k - 1);
      assert SameAt(s, t, chain, other, a, b, k - 1);
      FlatNext(s, chain, a + k - 1);
      FlatNext(t, other, b + k - 1);
      var x := s[chain[a + k - 1]].items;
      var p, q := FlatTo(s, chain, a), FlatTo(s, chain, a + k - 1);
      assert (q + x)[|p|..] == q[|p|..] + x;
    }
  }
}
