// Which nodes an insertion splits, told from the tree before it.
module BTreeGrowth {
  import opened BTreeArrays
  import opened BTreeNodes

  // the child a search for key goes down to
  ghost function Down(s: Store, b: Node, key: int): Node?
    requires b in s
  {
    var i := Probe(s[b].keys, key, 0, |s[b].keys|).0;
    if i < |s[b].childs| && s[b].childs[i] in s && s[s[b].childs[i]].level < s[b].level then s[b].childs[i] else null
  }

  // the leaf it ends at
  ghost function Landing(s: Store, n: Node, key: int): Node?
    requires n in s
    decreases s[n].level
  {
    if s[n].level == 0 then n
    else
      var c := Down(s, n, key);
      if c == null then null else Landing(s, c, key)
  }

  // a neighbour that can take an item
  ghost predicate Roomy(s: Store, c: Capacity, n: Node?)
  {
    n != null && n in s && |s[n].items| < c.leaf
  }

  // a full leaf that stands alone or between full neighbours
  ghost predicate Packed(s: Store, c: Capacity, a: Node)
  {
    && a in s && |s[a].items| == c.leaf
    && (s[a].parent == null || (!Roomy(s, c, s[a].prev) && !Roomy(s, c, s[a].next)))
  }

  // inserting key splits n: a packed leaf, or a full branch above a node that is split
  ghost predicate Breaks(s: Store, c: Capacity, n: Node, key: int)
    requires n in s
    decreases s[n].level
  {
    if s[n].level == 0 then Packed(s, c, n)
    else
      var d := Down(s, n, key);
      d != null && |s[n].keys| == c.branch && Breaks(s, c, d, key)
  }

  // how many branches are split below n, and with it
  ghost function Splits(s: Store, c: Capacity, n: Node, key: int): nat
    requires n in s
    decreases s[n].level
  {
    if s[n].level == 0 then 0
    else
      var d := Down(s, n, key);
      (if d == null then 0 else Splits(s, c, d, key)) + if Breaks(s, c, n, key) then 1 else 0
  }

  lemma AtLeaf(s: Store, c: Capacity, n: Node, key: int)
    requires n in s && s[n].level == 0
    ensures Landing(s, n, key) == n && (Breaks(s, c, n, key) <==> Packed(s, c, n)) && Splits(s, c, n, key) == 0
  {
    hide Packed;
  }

  lemma AtBranch(s: Store, c: Capacity, n: Node, d: Node, key: int)
    requires n in s && s[n].level > 0 && Down(s, n, key) == d
    ensures d in s && Landing(s, n, key) == Landing(s, d, key)
    ensures Breaks(s, c, n, key) <==> |s[n].keys| == c.branch && Breaks(s, c, d, key)
    ensures Splits(s, c, n, key) == Splits(s, c, d, key) + if Breaks(s, c, n, key) then 1 else 0
  {
    hide Probe;
  }

  lemma DownTo(s: Store, b: Node, key: int, i: nat, found: bool)
    requires b in s && (i, found) == Probe(s[b].keys, key, 0, |s[b].keys|)
    requires i < |s[b].childs| && s[b].childs[i] in s && s[s[b].childs[i]].level < s[b].level
    ensures Down(s, b, key) == s[b].childs[i]
  {
  }

  // Only the leaf a search ends at decides whether anything is split.
  lemma {:induction false} LandingPacked(s: Store, c: Capacity, n: Node, key: int)
    requires n in s && Breaks(s, c, n, key)
    ensures var a := Landing(s, n, key); a != null && Packed(s, c, a)
    decreases s[n].level
  {
    hide Packed, Probe;
    if s[n].level > 0 {
      LandingPacked(s, c, Down(s, n, key), key);
    }
  }

  lemma PackedParts(s: Store, c: Capacity, a: Node)
    requires a in s
    ensures Packed(s, c, a) <==>
      |s[a].items| == c.leaf && (s[a].parent == null || (!Roomy(s, c, s[a].prev) && !Roomy(s, c, s[a].next)))
  {
    hide Roomy;
  }

  lemma RoomyParts(s: Store, c: Capacity, n: Node?)
    ensures n == null ==> !Roomy(s, c, n)
    ensures n != null && n in s ==> (Roomy(s, c, n) <==> |s[n].items| < c.leaf)
  {
  }
}
