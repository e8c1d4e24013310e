// What the tree's self-test looks at, leaf by leaf and branch by branch, and that this is the invariant.
module BTreeTesterFacts {
  import opened BTreeNodes
  import opened BTreeStructure
  import opened BTreeLeafInserts
  import opened BTreeSearch
  import opened BTreeInsertSteps
  import opened BTreeTreeSteps

  // ---------- the branches below a node

  // the ancestor of n at a level
  ghost function Ancestor(s: Store, n: Node, level: nat): Node?
    requires n in s
    decreases if s[n].level <= level then level - s[n].level else 0
  {
    var p := s[n].parent;
    if s[n].level == level then n
    else if s[n].level > level || p == null || p !in s || s[p].level != s[n].level + 1 then null
    else Ancestor(s, p, level)
  }

  // the branches below and with n
  ghost function Sub(s: Store, n: Node): set<Node>
    requires n in s
  {
    set b | b in s && 0 < s[b].level <= s[n].level && Ancestor(s, b, s[n].level) == n
  }

  // those below the first i children of n
  ghost function SubTo(s: Store, n: Node, i: nat): set<Node>
    requires n in s && i <= |s[n].childs| && s[n].level > 0
  {
    set b | b in s && 0 < s[b].level < s[n].level && Ancestor(s, b, s[n].level - 1) in s[n].childs[..i]
  }

  lemma {:induction false} AncestorStep(v: View, b: Node, level: nat)
    requires Tree(v, Whole) && b in v.s && v.s[b].level <= level < v.s[v.root].level
    ensures var a := Ancestor(v.s, b, level);
      a != null && a in v.s && v.s[a].level == level && ParentOk(v.s, a) && Ancestor(v.s, b, level + 1) == v.s[a].parent
    decreases level - v.s[b].level
  {
    NodeAt(v, Whole, b);
    hide Nodes, Links, Slots, LeafOk, BranchOk;
    if v.s[b].level < level {
      AncestorStep(v, v.s[b].parent, level);
    } else {
      assert Ancestor(v.s, v.s[b].parent, level + 1) == v.s[b].parent;
    }
  }

  lemma {:induction false} AncestorRoot(v: View, b: Node)
    requires Tree(v, Whole) && b in v.s
    ensures v.root in v.s && v.s[b].level <= v.s[v.root].level && Ancestor(v.s, b, v.s[v.root].level) == v.root
    decreases if v.root in v.s && v.s[b].level <= v.s[v.root].level then v.s[v.root].level - v.s[b].level else 0
  {
    NodeAt(v, Whole, b);
    hide Nodes, Links, Slots, LeafOk, BranchOk;
    if b != v.root {
      NodeAt(v, Whole, v.s[b].parent);
      AncestorRoot(v, v.s[b].parent);
    }
  }

  lemma SubRoot(v: View)
    requires Tree(v, Whole) && v.root in v.s
    ensures Sub(v.s, v.root) == Branches(v.s)
  {
    hide Tree, Ancestor;
    forall b | b in v.s ensures v.s[b].level <= v.s[v.root].level && Ancestor(v.s, b, v.s[v.root].level) == v.root {
      AncestorRoot(v, b);
    }
  }

  lemma SubLeaf(s: Store, n: Node)
    requires n in s && s[n].level == 0
    ensures Sub(s, n) == {}
  {
  }

  lemma SubNone(s: Store, n: Node)
    requires n in s && s[n].level > 0
    ensures SubTo(s, n, 0) == {}
  {
  }

  lemma ChildTwice(v: View, n: Node, i: nat, k: nat)
    requires Tree(v, Whole) && n in v.s && i < |v.s[n].childs| && k < |v.s[n].childs|
      && v.s[n].childs[i] == v.s[n].childs[k]
    ensures i == k
  {
    LinkAt(v, Whole, n, i);
    LinkAt(v, Whole, n, k);
  }

  lemma SubNext(v: View, n: Node, i: nat)
    requires Tree(v, Whole) && n in v.s && v.s[n].level > 0 && i < |v.s[n].childs|
    ensures v.s[n].childs[i] in v.s
    ensures SubTo(v.s, n, i + 1) == SubTo(v.s, n, i) + Sub(v.s, v.s[n].childs[i])
    ensures |SubTo(v.s, n, i + 1)| == |SubTo(v.s, n, i)| + |Sub(v.s, v.s[n].childs[i])|
  {
    LinkAt(v, Whole, n, i);
    var s, c := v.s, v.s[n].childs[i];
    forall k | 0 <= k < i ensures s[n].childs[k] != c {
      if s[n].childs[k] == c {
        ChildTwice(v, n, i, k);
      }
    }
    hide Tree, Ancestor;
    assert s[n].childs[..i + 1] == s[n].childs[..i] + [c];
    assert SubTo(s, n, i + 1) == SubTo(s, n, i) + Sub(s, c);
    assert SubTo(s, n, i) !! Sub(s, c);
    Disjoint(SubTo(s, n, i), Sub(s, c));
  }

  lemma Disjoint<T>(a: set<T>, b: set<T>)
    requires a !! b
    ensures |a + b| == |a| + |b|
  {
  }

  lemma SubAll(v: View, n: Node)
    requires Tree(v, Whole) && n in v.s && v.s[n].level > 0
    ensures Sub(v.s, n) == SubTo(v.s, n, |v.s[n].childs|) + {n}
    ensures |Sub(v.s, n)| == 1 + |SubTo(v.s, n, |v.s[n].childs|)|
  {
    hide *;
    forall b | b in v.s && v.s[b].level < v.s[n].level
      ensures Ancestor(v.s, b, v.s[n].level) == n <==> Ancestor(v.s, b, v.s[n].level - 1) in v.s[n].childs
    {
      BelowChild(v, n, b);
    }
    SubIs(v.s, n);
    Disjoint(SubTo(v.s, n, |v.s[n].childs|), {n});
  }

  lemma SubIs(s: Store, n: Node)
    requires n in s && s[n].level > 0
    requires forall b :: b in s && s[b].level < s[n].level ==>
               (Ancestor(s, b, s[n].level) == n <==> Ancestor(s, b, s[n].level - 1) in s[n].childs)
    ensures Sub(s, n) == SubTo(s, n, |s[n].childs|) + {n} && n !in SubTo(s, n, |s[n].childs|)
  {
    assert s[n].childs[..|s[n].childs|] == s[n].childs;
    forall b | b in s && s[b].level == s[n].level ensures Ancestor(s, b, s[n].level) == b {
    }
    hide Ancestor;
  }

  lemma BelowChild(v: View, n: Node, b: Node)
    requires Tree(v, Whole) && n in v.s && b in v.s && v.s[b].level < v.s[n].level
    ensures Ancestor(v.s, b, v.s[n].level) == n <==> Ancestor(v.s, b, v.s[n].level - 1) in v.s[n].childs
  {
    NodeAt(v, Whole, n);
    AncestorStep(v, b, v.s[n].level - 1);
    var a := Ancestor(v.s, b, v.s[n].level - 1);
    if a in v.s[n].childs {
      var i :| 0 <= i < |v.s[n].childs| && v.s[n].childs[i] == a;
      LinkAt(v, Whole, n, i);
    }
  }

  predicate Follows(a: int, b: int, unique: bool)
  {
    a < b || (!unique && a == b)
  }

  lemma GoodParts(v: View, c: Capacity)
    requires Good(v, c, Whole, null)
    ensures Tree(v, Whole) && Keys(v, Whole, NoSkip) && Fill(v, c, Whole, null) && Chained(v.s, v.chain)
  {
    hide Tree, Keys, Fill, Chained;
  }

  lemma LeafOnChain(v: View, a: Node)
    requires IsLeafOf(v, a)
    ensures v.s[a].lo < |v.chain| && v.chain[v.s[a].lo] == a && v.s[a].hi == v.s[a].lo + 1
  {
  }

  lemma LeafMinimum(v: View, c: Capacity, a: Node)
    requires Tree(v, Whole) && Fill(v, c, Whole, null) && c.leaf >= 2 && IsLeafOf(v, a)
    ensures v.s[a].items != [] && (v.s[a].parent != null ==> |v.s[a].items| >= c.leaf / 2)
  {
    hide Nodes, Links, Slots;
    assert FillOk(v, c, null, a);
  }

  lemma ChainThere(v: View, j: nat)
    requires Tree(v, Whole) && j < |v.chain|
    ensures v.chain[j] in v.s
  {
    hide Nodes, Links;
    assert SlotOk(v, Whole, j);
  }

  lemma LastOfLeaf(v: View, a: Node)
    requires Tree(v, Whole) && IsLeafOf(v, a) && v.s[a].items != []
    ensures LastKey(v, v.s[a].lo + 1) == v.s[a].items[|v.s[a].items| - 1].key
    ensures |FlatTo(v.s, v.chain, v.s[a].lo + 1)| == |FlatTo(v.s, v.chain, v.s[a].lo)| + |v.s[a].items|
  {
    hide Tree, FlatTo, Contents;
    AroundLeaf(v, a);
  }

  lemma KeysFollow(v: View, a: Node, unique: bool)
    requires Tree(v, Whole) && Ordered(Contents(v), unique) && IsLeafOf(v, a) && v.s[a].items != []
    ensures var j, q := v.s[a].lo, v.s[a].items;
      && LastKey(v, j + 1) == q[|q| - 1].key
      && (FlatTo(v.s, v.chain, j) != [] ==> Follows(LastKey(v, j), q[0].key, unique))
      && forall i :: 0 < i < |q| ==> Follows(q[i - 1].key, q[i].key, unique)
  {
    hide Tree, FlatTo, Contents;
    AroundLeaf(v, a);
    var j, q := v.s[a].lo, v.s[a].items;
    var c, p := Contents(v), FlatTo(v.s, v.chain, j);
    forall i | 0 <= i < |q| ensures q[i] == c[|p| + i] {
      assert c[|p|..|p| + |q|][i] == c[|p| + i];
    }
    assert forall i :: 0 <= i < |p| ==> c[i] == p[i];
    assert (p + q)[|p + q| - 1] == q[|q| - 1];
  }

  // what a leaf looks like at the place where the test comes to it
  lemma LeafSeen(v: View, c: Capacity, a: Node, unique: bool)
    requires a in v.s && Good(v, c, Whole, null) && c.leaf >= 2 && Ordered(Contents(v), unique) && IsLeafOf(v, a)
    ensures var j, q := v.s[a].lo, v.s[a].items;
      && q != [] && (v.s[a].parent != null ==> |q| >= c.leaf / 2)
      && j < |v.chain| && v.chain[j] == a && v.s[a].hi == j + 1
      && (j == 0 ==> v.s[a].prev == null) && (j > 0 ==> v.s[a].prev == v.chain[j - 1])
      && v.s[a].next == (if j + 1 < |v.chain| then v.chain[j + 1] else null)
      && |FlatTo(v.s, v.chain, j + 1)| == |FlatTo(v.s, v.chain, j)| + |q| && LastKey(v, j + 1) == q[|q| - 1].key
      && (j > 0 ==> Follows(LastKey(v, j), q[0].key, unique))
      && forall i :: 0 < i < |q| ==> Follows(q[i - 1].key, q[i].key, unique)
  {
    hide *;
    GoodParts(v, c);
    FullOk(v, c);
    LeafOnChain(v, a);
    assert a in v.s;
    Neighbours(v, a);
    AroundLeaf(v, a);
    LeafMinimum(v, c, a);
    KeysFollow(v, a, unique);
    var j := v.s[a].lo;
    if j > 0 {
      FlatFull(v, j);
    }
  }

  // what a branch looks like: its children lie side by side, and each separator is the last key below its child
  lemma BranchSeen(v: View, c: Capacity, b: Node)
    requires Good(v, c, Whole, null) && c.leaf >= 2 && b in v.s && v.s[b].level > 0
    ensures var r := v.s[b];
      && |r.childs| == |r.keys| + 1 && (r.parent != null ==> |r.keys| >= c.branch / 2)
      && (forall i {:trigger r.childs[i]} :: 0 <= i < |r.childs| ==> r.childs[i] in v.s && ChildOk(v.s, b, i))
      && v.s[r.childs[0]].lo == r.lo && v.s[r.childs[|r.keys|]].hi == r.hi
      && (forall i {:trigger r.keys[i]} ::
        0 <= i < |r.keys| ==> v.s[r.childs[i]].hi > 0 && LastKey(v, v.s[r.childs[i]].hi) == r.keys[i])
  {
    hide Tree, Keys, Fill, FlatTo, KeyOk, EndsWith, ChildOk;
    GoodParts(v, c);
    NodeAt(v, Whole, b);
    assert FillOk(v, c, null, b) by { BranchMinimum(v, c, b); }
    RootParent(v, b);
    forall i | 0 <= i < |v.s[b].childs| ensures ChildOk(v.s, b, i) && v.s[b].childs[i] in v.s {
      LinkAt(v, Whole, b, i);
      ChildIn(v.s, b, i);
    }
    FullOk(v, c);
    forall i | 0 <= i < |v.s[b].keys|
        ensures v.s[v.s[b].childs[i]].hi > 0 && LastKey(v, v.s[v.s[b].childs[i]].hi) == v.s[b].keys[i] {
      ChildIn(v.s, b, i);
      SeparatorIs(v, b, i);
    }
  }

  // what the links alone say about a branch
  lemma BranchShape(v: View, b: Node)
    requires Tree(v, Whole) && b in v.s && v.s[b].level > 0
    ensures var r := v.s[b];
      && |r.childs| == |r.keys| + 1
      && (forall i {:trigger r.childs[i]} :: 0 <= i < |r.childs| ==> r.childs[i] in v.s && ChildOk(v.s, b, i))
      && v.s[r.childs[0]].lo == r.lo && v.s[r.childs[|r.keys|]].hi == r.hi
  {
    hide Tree, ChildOk;
    NodeAt(v, Whole, b);
    forall i | 0 <= i < |v.s[b].childs| ensures ChildOk(v.s, b, i) && v.s[b].childs[i] in v.s {
      LinkAt(v, Whole, b, i);
      ChildIn(v.s, b, i);
    }
  }

  // the span of a child, and the branches below it, are parts of its parent's
  lemma ChildWithin(v: View, b: Node, i: nat)
    requires Tree(v, Whole) && b in v.s && v.s[b].level > 0 && i < |v.s[b].childs|
    ensures v.s[b].childs[i] in v.s && v.s[v.s[b].childs[i]].hi <= v.s[b].hi
    ensures Sub(v.s, v.s[b].childs[i]) <= Sub(v.s, b)
  {
    hide *;
    BranchShape(v, b);
    WholeDead(b);
    ChildrenIn(v, Whole, b);
    var c := v.s[b].childs[i];
    var last := |v.s[b].childs| - 1;
    forall k | 0 <= k < |v.s[b].childs| ensures !IsDead(Whole, v.s[b].childs[k]) {
      WholeDead(v.s[b].childs[k]);
    }
    ChildOrder(v, Whole, b, i, last);
    NodeSpan(v, Whole, v.s[b].childs[last]);
    ChildParts(v.s, b, i);
    forall n | n in Sub(v.s, c) ensures n in Sub(v.s, b) {
      SubIn(v.s, c, n);
      BelowChild(v, b, n);
      SubIn(v.s, b, n);
    }
  }

  lemma SubIn(s: Store, n: Node, b: Node)
    requires n in s
    ensures b in Sub(s, n) <==> b in s && 0 < s[b].level <= s[n].level && Ancestor(s, b, s[n].level) == n
  {
    hide Ancestor;
  }

  lemma NoLeaves(v: View, c: Capacity, unique: bool)
    ensures LeavesFine(v, c, unique, 0)
  {
  }

  lemma ChildIn(s: Store, b: Node, i: nat)
    requires b in s && i < |s[b].childs| && ChildOk(s, b, i)
    ensures s[b].childs[i] in s
  {
  }

  lemma RootParent(v: View, b: Node)
    requires Tree(v, Whole) && b in v.s
    ensures b == v.root <==> v.s[b].parent == null
  {
    NodeAt(v, Whole, b);
  }

  lemma BranchMinimum(v: View, c: Capacity, b: Node)
    requires Fill(v, c, Whole, null) && b in v.s
    ensures FillOk(v, c, null, b)
  {
  }

  lemma SeparatorIs(v: View, b: Node, i: nat)
    requires Tree(v, Whole) && Keys(v, Whole, NoSkip) && Full(v) && b in v.s && v.s[b].level > 0 && i < |v.s[b].keys|
    requires |v.s[b].childs| == |v.s[b].keys| + 1 && v.s[b].childs[i] in v.s
    ensures v.s[v.s[b].childs[i]].hi > 0 && LastKey(v, v.s[v.s[b].childs[i]].hi) == v.s[b].keys[i]
  {
    var child := v.s[b].childs[i];
    NodeSpan(v, Whole, child);
    FlatFull(v, v.s[child].hi);
    hide Tree, FlatTo;
    assert KeyDue(v, Whole, NoSkip, b, i);
    assert KeyOk(v, b, i);
  }

  lemma FollowsIs(a: int, b: int, unique: bool)
    ensures Follows(a, b, unique) <==> a < b || (!unique && !(b < a))
  {
  }

  lemma ChildParts(s: Store, b: Node, i: nat)
    requires b in s && i < |s[b].childs| && ChildOk(s, b, i)
    ensures var c := s[b].childs[i];
      c in s && s[c].parent == b && s[c].slot == i && s[c].level + 1 == s[b].level
      && (i + 1 < |s[b].childs| ==> s[b].childs[i + 1] in s && s[c].hi == s[s[b].childs[i + 1]].lo)
  {
  }

  lemma SnapSpans(nodes: set<Node>)
    ensures forall n :: n in nodes ==> Snap(nodes)[n].lo == n.lo && Snap(nodes)[n].hi == n.hi
  {
  }

  lemma RootSpan(v: View)
    requires Tree(v, Whole)
    ensures v.root in v.s && v.s[v.root].parent == null && v.s[v.root].slot == 0 && v.s[v.root].lo == 0
      && v.s[v.root].hi == |v.chain|
  {
    hide Nodes, Links, Slots;
  }

  lemma ContentsIs(v: View)
    ensures Contents(v) == FlatTo(v.s, v.chain, |v.chain|)
  {
  }

  // ---------- what the test looks at

  // the leaf at position j: its fill, its links to the leaf before, and the order of the keys up to its end
  ghost predicate LeafFine(v: View, c: Capacity, unique: bool, j: nat)
  {
    j < |v.chain| && v.chain[j] in v.s &&
    var r := v.s[v.chain[j]];
    && r.items != [] && (r.parent != null ==> |r.items| >= c.leaf / 2)
    && r.prev == (if j == 0 then null else v.chain[j - 1])
    && (j > 0 ==>
      v.chain[j - 1] in v.s && v.s[v.chain[j - 1]].next == v.chain[j] && Follows(LastKey(v, j), r.items[0].key, unique))
    && forall i :: 0 < i < |r.items| ==> Follows(r.items[i - 1].key, r.items[i].key, unique)
  }

  ghost predicate LeavesFine(v: View, c: Capacity, unique: bool, h: nat)
  {
    forall j {:trigger LeafFine(v, c, unique, j)} :: 0 <= j < h ==> LeafFine(v, c, unique, j)
  }

  ghost predicate SeparatorFine(v: View, b: Node, i: nat)
    requires b in v.s && i < |v.s[b].keys|
  {
    i < |v.s[b].childs| && v.s[b].childs[i] in v.s && LastKey(v, v.s[v.s[b].childs[i]].hi) == v.s[b].keys[i]
  }

  // the fill of a branch, and its separators
  ghost predicate BranchFine(v: View, c: Capacity, b: Node)
  {
    b in v.s && (v.s[b].parent != null ==> |v.s[b].keys| >= c.branch / 2)
    && forall i {:trigger SeparatorFine(v, b, i)} :: 0 <= i < |v.s[b].keys| ==> SeparatorFine(v, b, i)
  }

  ghost predicate BranchesFine(v: View, c: Capacity, bs: set<Node>)
  {
    forall b {:trigger BranchFine(v, c, b)} :: b in bs ==> BranchFine(v, c, b)
  }

  ghost predicate AllFine(v: View, c: Capacity, unique: bool)
  {
    && LeavesFine(v, c, unique, |v.chain|) && BranchesFine(v, c, Branches(v.s))
    && |v.chain| > 0 && v.chain[|v.chain| - 1] in v.s && v.s[v.chain[|v.chain| - 1]].next == null
    && v.root in v.s && (v.s[v.root].level > 0 ==> v.s[v.root].keys != [])
  }

  // ---------- a good tree is fine

  lemma GoodFine(v: View, c: Capacity, unique: bool)
    requires Good(v, c, Whole, null) && c.leaf >= 2 && Ordered(Contents(v), unique)
    ensures AllFine(v, c, unique)
  {
    hide *;
    GoodParts(v, c);
    RootSpan(v);
    WholeDead(v.root);
    NodeSpan(v, Whole, v.root);
    RootFill(v, c);
    forall j | 0 <= j < |v.chain| ensures LeafFine(v, c, unique, j)
        && (j + 1 == |v.chain| ==> v.chain[j] in v.s && v.s[v.chain[j]].next == null) {
      GoodLeafFine(v, c, unique, j);
    }
    forall b | b in Branches(v.s) ensures BranchFine(v, c, b) {
      GoodBranchFine(v, c, b);
    }
    FoldAll(v, c, unique);
  }

  lemma WholeDead(n: Node)
    ensures !IsDead(Whole, n)
  {
  }

  lemma RootFill(v: View, c: Capacity)
    requires Tree(v, Whole) && Fill(v, c, Whole, null) && v.root in v.s
    ensures v.s[v.root].level > 0 ==> v.s[v.root].keys != []
  {
    hide Nodes, Links, Slots;
    assert FillOk(v, c, null, v.root);
  }

  lemma GoodLeafFine(v: View, c: Capacity, unique: bool, j: nat)
    requires Good(v, c, Whole, null) && c.leaf >= 2 && Ordered(Contents(v), unique) && j < |v.chain|
    ensures LeafFine(v, c, unique, j) && (j + 1 == |v.chain| ==> v.chain[j] in v.s && v.s[v.chain[j]].next == null)
  {
    hide Good, FlatTo, Contents, LastKey, Follows;
    GoodParts(v, c);
    hide Tree, Keys, Fill, Chained;
    LeafThere(v, j);
    LeafSeen(v, c, v.chain[j], unique);
    if j > 0 {
      LeafThere(v, j - 1);
      LeafSeen(v, c, v.chain[j - 1], unique);
    }
  }

  lemma GoodBranchFine(v: View, c: Capacity, b: Node)
    requires Good(v, c, Whole, null) && c.leaf >= 2 && b in Branches(v.s)
    ensures BranchFine(v, c, b)
  {
    hide Good, FlatTo, LastKey;
    BranchSeen(v, c, b);
  }

  lemma FoldAll(v: View, c: Capacity, unique: bool)
    requires forall j :: 0 <= j < |v.chain| ==> LeafFine(v, c, unique, j)
    requires forall b {:trigger BranchFine(v, c, b)} :: b in Branches(v.s) ==> BranchFine(v, c, b)
    requires |v.chain| > 0 && v.chain[|v.chain| - 1] in v.s && v.s[v.chain[|v.chain| - 1]].next == null
    requires v.root in v.s && (v.s[v.root].level > 0 ==> v.s[v.root].keys != [])
    ensures AllFine(v, c, unique)
  {
    hide LeafFine, BranchFine;
  }

  // ---------- a fine tree is good

  lemma FineFull(v: View, c: Capacity, unique: bool)
    requires LeavesFine(v, c, unique, |v.chain|)
    ensures Full(v)
  {
    hide FlatTo;
    forall j | 0 <= j < |v.chain| ensures v.chain[j] in v.s && |v.s[v.chain[j]].items| > 0 {
      assert LeafFine(v, c, unique, j);
    }
  }

  lemma {:induction false} FineOrdered(v: View, c: Capacity, unique: bool, h: nat)
    requires LeavesFine(v, c, unique, |v.chain|) && h <= |v.chain|
    ensures Ordered(FlatTo(v.s, v.chain, h), unique)
  {
    if h > 0 {
      FineOrdered(v, c, unique, h - 1);
      FineFull(v, c, unique);
      if h > 1 {
        FlatFull(v, h - 1);
      }
      assert LeafFine(v, c, unique, h - 1);
      var p, q := FlatTo(v.s, v.chain, h - 1), v.s[v.chain[h - 1]].items;
      assert h > 1 ==> LastKey(v, h - 1) == p[|p| - 1].key;
      assert FlatTo(v.s, v.chain, h) == p + q;
      OrderedJoin(p, q, unique);
    }
  }

  lemma {:induction false} OrderedRun(q: seq<Item>, i: nat, j: nat, unique: bool)
    requires i < j < |q| && forall k :: 0 < k < |q| ==> Follows(q[k - 1].key, q[k].key, unique)
    ensures Follows(q[i].key, q[j].key, unique)
    decreases j
  {
    if i < j - 1 {
      OrderedRun(q, i, j - 1, unique);
    }
  }

  lemma OrderedJoin(p: seq<Item>, q: seq<Item>, unique: bool)
    requires Ordered(p, unique) && q != [] && (p != [] ==> Follows(p[|p| - 1].key, q[0].key, unique))
    requires forall k :: 0 < k < |q| ==> Follows(q[k - 1].key, q[k].key, unique)
    ensures Ordered(p + q, unique)
  {
    forall i, j | 0 <= i < j < |p + q| ensures Follows((p + q)[i].key, (p + q)[j].key, unique) {
      if i >= |p| {
        OrderedRun(q, i - |p|, j - |p|, unique);
      } else if j >= |p| {
        assert i < |p| - 1 ==> Follows(p[i].key, p[|p| - 1].key, unique);
        if j > |p| {
          OrderedRun(q, 0, j - |p|, unique);
        }
      } else {
        assert Follows(p[i].key, p[j].key, unique);
      }
    }
  }

  lemma FineFill(v: View, c: Capacity, unique: bool)
    requires Tree(v, Whole) && AllFine(v, c, unique)
    ensures Fill(v, c, Whole, null)
  {
    hide Nodes, Links, Slots, FlatTo, LastKey, Follows;
    forall n | n in v.s ensures FillOk(v, c, null, n) {
      RootParent(v, n);
      if v.s[n].level == 0 {
        LeafPlace(v, n);
        assert LeafFine(v, c, unique, v.s[n].lo);
      } else {
        assert BranchFine(v, c, n);
      }
    }
  }

  lemma FineKeys(v: View, c: Capacity, unique: bool)
    requires Tree(v, Whole) && AllFine(v, c, unique)
    ensures Keys(v, Whole, NoSkip)
  {
    hide Links, Slots, FlatTo, LeavesFine;
    forall b: Node, i: nat | b in v.s && KeyDue(v, Whole, NoSkip, b, i) ensures KeyOk(v, b, i) {
      NodeAt(v, Whole, b);
      assert BranchFine(v, c, b);
      assert SeparatorFine(v, b, i);
    }
  }

  lemma FineChained(v: View, c: Capacity, unique: bool)
    requires AllFine(v, c, unique)
    ensures Chained(v.s, v.chain)
  {
    hide FlatTo, LastKey, Follows, BranchesFine;
    forall j: nat | 0 <= j < |v.chain| ensures NextOk(v.s, v.chain, j) {
      assert LeafFine(v, c, unique, j);
      if j + 1 < |v.chain| {
        assert LeafFine(v, c, unique, j + 1);
      }
    }
  }

  // What the test looks at is the invariant of a tree whose links are sound.
  lemma FineIsGood(v: View, c: Capacity, unique: bool)
    requires Tree(v, Whole) && c.leaf >= 2
    ensures AllFine(v, c, unique) <==> Good(v, c, Whole, null) && Ordered(Contents(v), unique)
  {
    hide *;
    if AllFine(v, c, unique) {
      FineFill(v, c, unique);
      FineKeys(v, c, unique);
      FineChained(v, c, unique);
      AllParts(v, c, unique);
      FineOrdered(v, c, unique, |v.chain|);
      ContentsIs(v);
      FoldGood(v, c);
    }
    if Good(v, c, Whole, null) && Ordered(Contents(v), unique) {
      GoodFine(v, c, unique);
    }
  }

  lemma AllParts(v: View, c: Capacity, unique: bool)
    requires AllFine(v, c, unique)
    ensures LeavesFine(v, c, unique, |v.chain|)
  {
    hide LeavesFine, BranchesFine;
  }

  lemma FoldGood(v: View, c: Capacity)
    requires Tree(v, Whole) && Keys(v, Whole, NoSkip) && Fill(v, c, Whole, null) && Chained(v.s, v.chain)
    ensures Good(v, c, Whole, null)
  {
    hide Tree, Keys, Fill, Chained;
  }
}
