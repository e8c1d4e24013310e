// The one separator between two neighbouring leaves, found by climbing.
module BTreeOwners {
  import opened BTreeNodes
  import opened BTreeStructure

  ghost function Top(v: View): nat { if v.root in v.s then v.s[v.root].level else 0 }

  lemma OwnerHere(s: Store, top: nat, b: Node, slot: nat)
    requires b in s && slot < |s[b].keys|
    ensures Owner(s, top, b, slot) == Place(b, slot)
  {
  }

  lemma OwnerUp(v: View, h: Hole, b: Node)
    requires Tree(v, h) && b in v.s && b != v.root && !IsExtra(h, b)
    ensures v.s[b].parent != null && v.s[b].parent in v.s
    ensures Owner(v.s, Top(v), b, |v.s[b].keys|) == Owner(v.s, Top(v), v.s[b].parent, v.s[b].slot)
  {
    NodeAt(v, h, b);
    NodeAt(v, h, v.s[b].parent);
  }

  // the place found separates at the end of child `slot`
  lemma {:induction false} OwnerEnd(v: View, b: Node, slot: nat)
    requires Tree(v, Whole) && b in v.s && v.s[b].level > 0 && slot < |v.s[b].childs|
    ensures v.s[b].childs[slot] in v.s
    ensures var o := Owner(v.s, Top(v), b, slot); var e := v.s[v.s[b].childs[slot]].hi;
      if o == NoPlace then e == |v.chain|
      else o.branch in v.s && v.s[o.branch].level > 0 && o.index < |v.s[o.branch].keys| &&
           o.index < |v.s[o.branch].childs| && v.s[o.branch].childs[o.index] in v.s &&
           v.s[v.s[o.branch].childs[o.index]].hi == e
    decreases Top(v) - v.s[b].level
  {
    NodeAt(v, Whole, b);
    LinkAt(v, Whole, b, slot);
    hide Nodes, Links, Slots;
    if slot >= |v.s[b].keys| && b != v.root {
      OwnerUp(v, Whole, b);
      var p := v.s[b].parent;
      NodeAt(v, Whole, p);
      OwnerEnd(v, p, v.s[b].slot);
    }
  }

  // every separator is the one found from the leaf before it
  lemma {:induction false} OwnerOfLeaf(v: View, b: Node, i: nat, c: Node)
    requires Tree(v, Whole) && b in v.s && i < |v.s[b].childs| && v.s[b].childs[i] == c && c in v.s
    ensures 0 < v.s[c].hi <= |v.chain| && v.chain[v.s[c].hi - 1] in v.s
    ensures var a := v.s[v.chain[v.s[c].hi - 1]];
      a.parent != null && a.parent in v.s && Owner(v.s, Top(v), a.parent, a.slot) == Owner(v.s, Top(v), b, i)
    decreases v.s[c].level
  {
    NodeAt(v, Whole, c);
    LinkAt(v, Whole, b, i);
    hide Nodes, Links, Slots;
    if v.s[c].level > 0 {
      var k := |v.s[c].keys|;
      var d := v.s[c].childs[k];
      LinkAt(v, Whole, c, k);
      OwnerOfLeaf(v, c, k, d);
      NodeAt(v, Whole, v.root);
      OwnerUp(v, Whole, c);
    }
  }

  // no two separators stand at one boundary
  lemma KeyUnique(v: View, b: Node, i: nat, d: Node, j: nat)
    requires Tree(v, Whole) && b in v.s && d in v.s && i < |v.s[b].keys| && j < |v.s[d].keys|
    requires i < |v.s[b].childs| && j < |v.s[d].childs| && v.s[b].childs[i] in v.s && v.s[d].childs[j] in v.s
    requires v.s[v.s[b].childs[i]].hi == v.s[v.s[d].childs[j]].hi
    ensures b == d && i == j
  {
    hide Tree;
    OwnerOfLeaf(v, b, i, v.s[b].childs[i]);
    OwnerOfLeaf(v, d, j, v.s[d].childs[j]);
  }
}
