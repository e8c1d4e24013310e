// The leaves met by descending through the children, and that the leaf chain lists them in that order.
module BTreeTraversal {
  import opened BTreeNodes
  import opened BTreeStructure

  ghost function InOrder(s: Store, n: Node): seq<Node>
    requires n in s
    decreases s[n].level, |s[n].childs| + 1
  {
    if s[n].level == 0 then [n] else InOrderTo(s, n, |s[n].childs|)
  }

  // the leaves below the first i children of b
  ghost function InOrderTo(s: Store, b: Node, i: nat): seq<Node>
    requires b in s && i <= |s[b].childs|
    decreases s[b].level, i
  {
    if i == 0 then []
    else
      var c := s[b].childs[i - 1];
      InOrderTo(s, b, i - 1) + (if c in s && s[c].level < s[b].level then InOrder(s, c) else [])
  }

  lemma OneLeaf(v: View, n: Node)
    requires Tree(v, Whole) && n in v.s && v.s[n].level == 0
    ensures v.s[n].hi == v.s[n].lo + 1 <= |v.chain| && v.chain[v.s[n].lo..v.s[n].hi] == [n]
  {
    NodeAt(v, Whole, n);
    hide Nodes, Links, Slots;
  }

  lemma ChildAfter(v: View, b: Node, i: nat)
    requires Tree(v, Whole) && b in v.s && v.s[b].level > 0 && i < |v.s[b].childs|
    ensures var c := v.s[b].childs[i];
      && c in v.s && v.s[c].level < v.s[b].level && v.s[b].lo <= v.s[c].lo < v.s[c].hi <= v.s[b].hi <= |v.chain|
      && (i == 0 ==> v.s[c].lo == v.s[b].lo) && (i + 1 == |v.s[b].childs| ==> v.s[c].hi == v.s[b].hi)
      && (i > 0 ==> v.s[b].childs[i - 1] in v.s && v.s[v.s[b].childs[i - 1]].hi == v.s[c].lo)
  {
    NodeAt(v, Whole, b);
    LinkAt(v, Whole, b, i);
    ChildrenIn(v, Whole, b);
    ChildOrder(v, Whole, b, i, |v.s[b].keys|);
    ChildOrder(v, Whole, b, 0, i);
    NodeSpan(v, Whole, v.s[b].childs[i]);
    NodeSpan(v, Whole, v.s[b].childs[0]);
    NodeSpan(v, Whole, v.s[b].childs[|v.s[b].keys|]);
    NodeSpan(v, Whole, b);
    hide Nodes, Links, Slots;
    if i > 0 { LinkAt(v, Whole, b, i - 1); }
  }

  lemma {:induction false} InOrderSpan(v: View, n: Node)
    requires Tree(v, Whole) && n in v.s
    ensures v.s[n].lo < v.s[n].hi <= |v.chain| && InOrder(v.s, n) == v.chain[v.s[n].lo..v.s[n].hi]
    decreases v.s[n].level, |v.s[n].childs| + 1
  {
    hide Tree;
    NodeSpan(v, Whole, n);
    if v.s[n].level == 0 {
      OneLeaf(v, n);
    } else {
      ChildCount(v, n);
      InOrderToSpan(v, n, |v.s[n].childs|);
      ChildAfter(v, n, |v.s[n].childs| - 1);
    }
  }

  lemma ChildCount(v: View, b: Node)
    requires Tree(v, Whole) && b in v.s && v.s[b].level > 0
    ensures |v.s[b].childs| > 0
  {
    NodeAt(v, Whole, b);
  }

  lemma {:induction false} InOrderToSpan(v: View, b: Node, i: nat)
    requires Tree(v, Whole) && b in v.s && v.s[b].level > 0 && 0 < i <= |v.s[b].childs|
    ensures v.s[b].childs[i - 1] in v.s
    ensures var hi := v.s[v.s[b].childs[i - 1]].hi;
      v.s[b].lo <= hi <= |v.chain| && InOrderTo(v.s, b, i) == v.chain[v.s[b].lo..hi]
    decreases v.s[b].level, i
  {
    hide Tree;
    var c := v.s[b].childs[i - 1];
    ChildAfter(v, b, i - 1);
    InOrderSpan(v, c);
    if i > 1 {
      InOrderToSpan(v, b, i - 1);
    }
  }

  // the chain of a whole tree is its traversal
  lemma ChainIsInOrder(v: View)
    requires Tree(v, Whole)
    ensures v.root in v.s && InOrder(v.s, v.root) == v.chain
  {
    hide Nodes, Links, Slots, InOrder;
    InOrderSpan(v, v.root);
  }
}
