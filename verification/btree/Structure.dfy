// The invariant of the tree on a snapshot of its nodes. Every node knows the span of leaf positions below it,
// so that each clause looks at one node and its neighbours only; a hole marks the place an operation is working on.
module BTreeStructure {
  import opened BTreeNodes

  datatype View = View(s: Store, root: Node, chain: seq<Node>)

  datatype Hole = Whole | Split(cut: Node, mid: nat, key: int, extra: Node) | Dead(node: Node)

  ghost predicate IsDead(h: Hole, n: Node) { h.Dead? && h.node == n }

  ghost predicate IsExtra(h: Hole, n: Node) { h.Split? && h.extra == n }

  // where n's own span ends (the cut node of a split hole still claims the extra node's span)
  ghost function Own(s: Store, h: Hole, n: Node): nat
    requires n in s
  {
    if h.Split? && h.cut == n then h.mid else s[n].hi
  }

  ghost predicate ParentOk(s: Store, n: Node)
    requires n in s
  {
    var p := s[n].parent;
    p != null && p in s && s[p].level == s[n].level + 1 &&
    s[n].slot < |s[p].childs| && s[p].childs[s[n].slot] == n
  }

  ghost predicate ChildOk(s: Store, b: Node, i: nat)
    requires b in s && i < |s[b].childs|
  {
    var c := s[b].childs[i];
    c in s && s[c].parent == b && s[c].slot == i && s[c].level + 1 == s[b].level &&
    (i + 1 < |s[b].childs| ==> s[b].childs[i + 1] in s && s[c].hi == s[s[b].childs[i + 1]].lo)
  }

  ghost predicate LeafOk(v: View, h: Hole, n: Node)
    requires n in v.s
  {
    var r := v.s[n];
    r.keys == [] && r.childs == [] && Own(v.s, h, n) == r.lo + 1 && r.lo < |v.chain| && v.chain[r.lo] == n
  }

  ghost predicate BranchOk(s: Store, h: Hole, b: Node)
    requires b in s
  {
    var r := s[b];
    r.items == [] && |r.childs| == |r.keys| + 1 &&
    r.childs[0] in s && r.childs[|r.keys|] in s &&
    r.lo == s[r.childs[0]].lo && Own(s, h, b) == s[r.childs[|r.keys|]].hi && r.lo < Own(s, h, b)
  }

  ghost predicate NodeOk(v: View, h: Hole, n: Node)
    requires n in v.s
  {
    var r := v.s[n];
    && v.root in v.s && r.level <= v.s[v.root].level
    && r.hi <= |v.chain|
    && (n == v.root || IsExtra(h, n) || ParentOk(v.s, n))
    && (h.Dead? ==> r.parent != h.node)
    && (if IsDead(h, n) then r.lo == r.hi else if r.level == 0 then LeafOk(v, h, n) else BranchOk(v.s, h, n))
  }

  ghost predicate Nodes(v: View, h: Hole)
  {
    forall n {:trigger NodeOk(v, h, n)} :: n in v.s ==> NodeOk(v, h, n)
  }

  ghost predicate Links(s: Store, h: Hole)
  {
    forall b, i {:trigger ChildOk(s, b, i)} :: b in s && !IsDead(h, b) && 0 <= i < |s[b].childs| ==> ChildOk(s, b, i)
  }

  ghost predicate SlotOk(v: View, h: Hole, j: nat)
    requires j < |v.chain|
  {
    v.chain[j] in v.s && v.s[v.chain[j]].level == 0 && v.s[v.chain[j]].lo == j && !IsDead(h, v.chain[j])
  }

  ghost predicate Slots(v: View, h: Hole)
  {
    forall j {:trigger SlotOk(v, h, j)} :: 0 <= j < |v.chain| ==> SlotOk(v, h, j)
  }

  ghost predicate RootOk(v: View)
  {
    v.root in v.s && v.s[v.root].parent == null && v.s[v.root].slot == 0 &&
    v.s[v.root].lo == 0 && v.s[v.root].hi == |v.chain|
  }

  ghost predicate HoleOk(v: View, h: Hole)
  {
    && (h.Split? ==>
          && h.cut in v.s && h.extra in v.s && h.cut != h.extra && h.extra != v.root
          && v.s[h.extra].parent == null && v.s[h.extra].level == v.s[h.cut].level
          && h.mid < v.s[h.cut].hi && v.s[h.extra].lo == h.mid && v.s[h.extra].hi == v.s[h.cut].hi)
    && (h.Dead? ==> h.node in v.s && h.node != v.root && v.s[h.node].slot > 0)
  }

  ghost predicate Tree(v: View, h: Hole)
  {
    Nodes(v, h) && Links(v.s, h) && Slots(v, h) && RootOk(v) && HoleOk(v, h)
  }

  // the items of the first h leaves
  ghost function FlatTo(s: Store, chain: seq<Node>, h: nat): seq<Item>
  {
    if h == 0 || h > |chain| then []
    else FlatTo(s, chain, h - 1) + (if chain[h - 1] in s then s[chain[h - 1]].items else [])
  }

  ghost function Contents(v: View): seq<Item> { FlatTo(v.s, v.chain, |v.chain|) }

  // key is the greatest key among the first h leaves
  ghost predicate EndsWith(s: Store, chain: seq<Node>, h: nat, key: int)
  {
    var q := FlatTo(s, chain, h);
    q != [] ==> q[|q| - 1].key == key
  }

  ghost predicate KeyOk(v: View, b: Node, i: nat)
    requires b in v.s && i < |v.s[b].keys| && i < |v.s[b].childs|
  {
    v.s[b].childs[i] in v.s && EndsWith(v.s, v.chain, v.s[v.s[b].childs[i]].hi, v.s[b].keys[i])
  }

  // a separator that must be exact: not one a hole is about to drop, not one at the boundary `skip`
  ghost predicate KeyDue(v: View, h: Hole, skip: int, b: Node, i: nat)
  {
    && b in v.s && !IsDead(h, b) && i < |v.s[b].keys| && i + 1 < |v.s[b].childs|
    && !IsDead(h, v.s[b].childs[i + 1])
    && (v.s[b].childs[i] in v.s ==> v.s[v.s[b].childs[i]].hi != skip)
  }

  // separator i of every branch is the greatest key below child i
  ghost predicate Keys(v: View, h: Hole, skip: int)
  {
    && (forall b, i {:trigger KeyOk(v, b, i)} :: b in v.s && KeyDue(v, h, skip, b, i) ==> KeyOk(v, b, i))
    && (h.Split? ==> EndsWith(v.s, v.chain, h.mid, h.key))
  }

  const NoSkip: int := -1


  ghost predicate FillOk(v: View, c: Capacity, under: Node?, n: Node)
    requires n in v.s
  {
    var r := v.s[n];
    if n == under then true
    else if n == v.root then (r.level == 0 ==> |r.items| > 0) && (r.level > 0 ==> |r.keys| > 0)
    else if r.level == 0 then c.leaf / 2 <= |r.items|
    else c.branch / 2 <= |r.keys|
  }

  ghost predicate Fill(v: View, c: Capacity, h: Hole, under: Node?)
  {
    forall n {:trigger FillOk(v, c, under, n)} :: n in v.s && !IsDead(h, n) ==> FillOk(v, c, under, n)
  }

  ghost predicate NextOk(s: Store, chain: seq<Node>, j: nat)
  {
    j < |chain| && chain[j] in s &&
    s[chain[j]].next == (if j + 1 < |chain| then chain[j + 1] else null) &&
    s[chain[j]].prev == (if 0 < j then chain[j - 1] else null)
  }

  // next and prev follow the order of the leaves
  ghost predicate Chained(s: Store, chain: seq<Node>)
  {
    forall j {:trigger NextOk(s, chain, j)} :: 0 <= j < |chain| ==> NextOk(s, chain, j)
  }

  ghost predicate Ordered(q: seq<Item>, unique: bool)
  {
    forall i, j :: 0 <= i < j < |q| ==> if unique then q[i].key < q[j].key else q[i].key <= q[j].key
  }

  // ---------- first consequences

  // children of a branch lie side by side
  lemma ChildOrder(v: View, h: Hole, b: Node, i: nat, j: nat)
    requires Tree(v, h) && b in v.s && !IsDead(h, b) && i <= j < |v.s[b].childs|
    requires forall k :: i <= k <= j ==> v.s[b].childs[k] in v.s && !IsDead(h, v.s[b].childs[k])
    ensures v.s[v.s[b].childs[i]].lo < v.s[v.s[b].childs[j]].hi
    ensures i < j ==> v.s[v.s[b].childs[i]].hi <= v.s[v.s[b].childs[j]].lo
    decreases j - i
  {
    hide Nodes, Links, Slots;
    NodeSpan(v, h, v.s[b].childs[i]);
    if i < j {
      LinkAt(v, h, b, i);
      NodeSpan(v, h, v.s[b].childs[i + 1]);
      ChildOrder(v, h, b, i + 1, j);
    }
  }

  lemma NodeSpan(v: View, h: Hole, n: Node)
    requires Tree(v, h) && n in v.s && !IsDead(h, n)
    ensures v.s[n].lo < v.s[n].hi <= |v.chain| && v.s[n].lo < Own(v.s, h, n) <= v.s[n].hi
  {
    assert NodeOk(v, h, n);
  }

  lemma LinkAt(v: View, h: Hole, b: Node, i: nat)
    requires Tree(v, h) && b in v.s && !IsDead(h, b) && i < |v.s[b].childs|
    ensures ChildOk(v.s, b, i)
  {
  }

  lemma NodeAt(v: View, h: Hole, n: Node)
    requires Tree(v, h) && n in v.s
    ensures NodeOk(v, h, n)
  {
  }

  lemma ChildrenIn(v: View, h: Hole, b: Node)
    requires Tree(v, h) && b in v.s && !IsDead(h, b)
    ensures forall k {:trigger v.s[b].childs[k]} :: 0 <= k < |v.s[b].childs| ==> v.s[b].childs[k] in v.s
  {
    hide Nodes, Slots;
    forall k | 0 <= k < |v.s[b].childs| ensures v.s[b].childs[k] in v.s {
      LinkAt(v, h, b, k);
    }
  }
}
