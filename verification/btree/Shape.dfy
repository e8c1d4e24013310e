// Trees as their children form them, whatever the nodes say about their parents, slots and levels. What the self-test
// of a tree finds out on the way down is that these links are right too.
module BTreeShape {
  import opened BTreeNodes
  import opened BTreeStructure

  // the spans of leaf positions follow the children
  ghost predicate ShapeAt(v: View, n: Node)
    requires n in v.s
  {
    var r := v.s[n];
    && r.lo < r.hi <= |v.chain|
    && if r.level == 0 then r.keys == [] && r.childs == [] && r.hi == r.lo + 1 && v.chain[r.lo] == n
       else
         && r.items == [] && |r.childs| == |r.keys| + 1
         && (forall i {:trigger r.childs[i]} :: 0 <= i < |r.childs| ==> r.childs[i] in v.s)
         && v.s[r.childs[0]].lo == r.lo && v.s[r.childs[|r.keys|]].hi == r.hi
         && forall i {:trigger r.childs[i]} :: 0 <= i < |r.keys| ==> v.s[r.childs[i]].hi == v.s[r.childs[i + 1]].lo
  }

  ghost predicate ClosedAt(s: Store, q: set<Node>, n: Node)
    requires n in s
  {
    s[n].level > 0 ==> forall i {:trigger s[n].childs[i]} :: 0 <= i < |s[n].childs| ==> s[n].childs[i] in q
  }

  // q holds the children of its nodes
  ghost predicate Closed(s: Store, q: set<Node>)
  {
    forall n {:trigger ClosedAt(s, q, n)} :: n in q && n in s ==> ClosedAt(s, q, n)
  }

  // every node is met by descending from the root
  ghost predicate Met(v: View)
  {
    forall q: set<Node> {:trigger Closed(v.s, q)} :: q <= v.s.Keys && v.root in q && Closed(v.s, q) ==> q == v.s.Keys
  }

  ghost predicate Shaped(v: View)
  {
    && v.root in v.s && v.s[v.root].lo == 0 && v.s[v.root].hi == |v.chain|
    && (forall n {:trigger ShapeAt(v, n)} :: n in v.s ==> ShapeAt(v, n))
    && (forall j {:trigger SlotOk(v, Whole, j)} :: 0 <= j < |v.chain| ==> SlotOk(v, Whole, j))
    && Met(v)
  }

  ghost predicate LinkedAt(s: Store, b: Node, i: nat)
    requires b in s && i < |s[b].childs|
  {
    var c := s[b].childs[i];
    c in s && s[c].parent == b && s[c].slot == i && s[c].level + 1 == s[b].level
  }

  // the links of all nodes below n are right
  ghost predicate LinkedBelow(s: Store, n: Node)
    requires n in s
    decreases s[n].level
  {
    s[n].level > 0 ==>
      forall i {:trigger s[n].childs[i]} ::
          0 <= i < |s[n].childs| ==> LinkedAt(s, n, i) && LinkedBelow(s, s[n].childs[i])
  }

  // a node whose own links are right, and those below it
  ghost predicate Settled(v: View, n: Node)
  {
    && n in v.s && v.root in v.s && v.s[n].level <= v.s[v.root].level && LinkedBelow(v.s, n)
      && (n == v.root || ParentOk(v.s, n))
  }

  lemma ChildSettled(v: View, b: Node, i: nat)
    requires Settled(v, b) && v.s[b].level > 0 && i < |v.s[b].childs|
    ensures Settled(v, v.s[b].childs[i]) && LinkedAt(v.s, b, i)
  {
    var c := v.s[b].childs[i];
    assert LinkedAt(v.s, b, i) && LinkedBelow(v.s, c);
  }

  lemma AllSettled(v: View)
    requires Shaped(v) && LinkedBelow(v.s, v.root)
    ensures forall n :: n in v.s ==> Settled(v, n)
  {
    hide ShapeAt;
    var q := set n | n in v.s && Settled(v, n);
    assert Closed(v.s, q) by {
      hide Settled;
      forall n | n in q ensures ClosedAt(v.s, q, n) {
        if v.s[n].level > 0 {
          forall i | 0 <= i < |v.s[n].childs| ensures v.s[n].childs[i] in q {
            ChildSettled(v, n, i);
          }
        }
      }
    }
    assert v.root in q;
    assert q <= v.s.Keys;
  }

  lemma NodeFormed(v: View, n: Node)
    requires Shaped(v) && n in v.s && Settled(v, n)
    ensures NodeOk(v, Whole, n)
  {
    hide Met, LinkedBelow;
    assert ShapeAt(v, n);
  }

  lemma LinkFormed(v: View, b: Node, i: nat)
    requires Shaped(v) && b in v.s && Settled(v, b) && i < |v.s[b].childs|
    ensures ChildOk(v.s, b, i)
  {
    hide Met, LinkedBelow;
    assert ShapeAt(v, b);
    ChildSettled(v, b, i);
    hide ShapeAt, Settled;
    if i + 1 < |v.s[b].childs| {
      ChildSettled(v, b, i + 1);
    }
  }

  // a tree by its children with all links right is a whole tree
  lemma TreeFormed(v: View)
    requires Shaped(v) && LinkedBelow(v.s, v.root) && v.s[v.root].parent == null && v.s[v.root].slot == 0
    ensures Tree(v, Whole)
  {
    AllSettled(v);
    hide Met, Settled, ShapeAt, NodeOk, ChildOk, SlotOk;
    forall n | n in v.s ensures NodeOk(v, Whole, n) {
      NodeFormed(v, n);
    }
    forall b, i | b in v.s && 0 <= i < |v.s[b].childs| ensures ChildOk(v.s, b, i) {
      LinkFormed(v, b, i);
    }
  }

  // and a whole tree is one by its children
  lemma WholeShaped(v: View)
    requires Tree(v, Whole)
    ensures Shaped(v)
  {
    hide Nodes, Links, Met, ShapeAt;
    forall n | n in v.s ensures ShapeAt(v, n) {
      NodeShaped(v, n);
    }
    AllMet(v);
  }

  lemma NodeShaped(v: View, n: Node)
    requires Tree(v, Whole) && n in v.s
    ensures ShapeAt(v, n)
  {
    NodeSpan(v, Whole, n);
    NodeAt(v, Whole, n);
    ChildrenIn(v, Whole, n);
    hide Nodes, Links, Slots;
    if v.s[n].level > 0 {
      forall i | 0 <= i < |v.s[n].keys| ensures v.s[v.s[n].childs[i]].hi == v.s[v.s[n].childs[i + 1]].lo {
        LinkAt(v, Whole, n, i);
      }
    }
  }

  lemma AllMet(v: View)
    requires Tree(v, Whole)
    ensures Met(v)
  {
    hide Nodes, Links, Slots, Closed;
    forall q: set<Node> | q <= v.s.Keys && v.root in q && Closed(v.s, q) ensures q == v.s.Keys {
      forall n | n in v.s ensures n in q {
        MetFrom(v, q, n);
      }
    }
  }

  lemma {:induction false} MetFrom(v: View, q: set<Node>, n: Node)
    requires Tree(v, Whole) && v.root in q && Closed(v.s, q) && n in v.s && q <= v.s.Keys
    ensures n in q
    decreases v.s[v.root].level - v.s[n].level
  {
    NodeAt(v, Whole, n);
    if n != v.root {
      var p := v.s[n].parent;
      NodeAt(v, Whole, p);
      MetFrom(v, q, p);
      assert ClosedAt(v.s, q, p);
      assert v.s[p].childs[v.s[n].slot] == n;
    }
  }
}
