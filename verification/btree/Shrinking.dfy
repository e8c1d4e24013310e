// Which branches a deletion drops, told from the tree before it.
module BTreeShrinking {
  import opened BTreeNodes

  // A branch left with n keys joins the sibling before it, or the one behind when it is the first, if one branch holds
  // the keys of both and the one between them.
  ghost predicate Joins(s: Store, c: Capacity, b: Node, n: int)
  {
    && b in s && s[b].parent != null && s[b].parent in s && s[b].level < s[s[b].parent].level
    && var q, k := s[s[b].parent].childs, if s[b].slot == 0 then 1 else s[b].slot - 1;
    && k < |q| && q[k] in s && q[k] != b && s[q[k]].level == s[b].level && n + |s[q[k]].keys| < c.branch
  }

  // How many branches go when b is left with n keys: none while it keeps its minimum; the root when it has no key; two
  // that join leave one less, and their parent loses a key.
  ghost function Drops(s: Store, c: Capacity, b: Node?, n: int, top: nat): nat
    decreases if b in s && s[b].level <= top then top - s[b].level else 0
  {
    if b == null || b !in s || s[b].level > top || n >= c.branch / 2 then 0
    else if s[b].parent == null then if n == 0 then 1 else 0
    else if Joins(s, c, b, n) && s[s[b].parent].level <= top then
      1 + Drops(s, c, s[b].parent, |s[s[b].parent].keys| - 1, top)
    else 0
  }

  lemma DropsParts(s: Store, c: Capacity, b: Node, n: int, top: nat)
    requires b in s && s[b].level <= top
    ensures n >= c.branch / 2 ==> Drops(s, c, b, n, top) == 0
    ensures n < c.branch / 2 && s[b].parent == null ==> Drops(s, c, b, n, top) == if n == 0 then 1 else 0
    ensures n < c.branch / 2 && s[b].parent != null && !Joins(s, c, b, n) ==> Drops(s, c, b, n, top) == 0
    ensures n < c.branch / 2 && Joins(s, c, b, n) && s[b].parent in s && s[s[b].parent].level <= top ==>
              Drops(s, c, b, n, top) == 1 + Drops(s, c, s[b].parent, |s[s[b].parent].keys| - 1, top)
  {
  }

  ghost predicate Alike(s: Store, t: Store, n: Node)
  {
    && n in s && n in t && t[n].level == s[n].level && |t[n].keys| == |s[n].keys|
    && t[n].parent == s[n].parent && t[n].slot == s[n].slot && t[n].childs == s[n].childs
  }

  // the same branches with as many keys, from a level on
  ghost predicate SameAbove(s: Store, t: Store, level: nat)
  {
    && (forall n {:trigger Alike(s, t, n)} :: n in s && s[n].level >= level ==> Alike(s, t, n))
    && forall n {:trigger Alike(s, t, n)} :: n in t && t[n].level >= level ==> Alike(s, t, n)
  }

  // the same, but for the keys and the children of b
  ghost predicate SameBut(s: Store, t: Store, b: Node)
  {
    && b in s && b in t && t[b].level == s[b].level && t[b].parent == s[b].parent && t[b].slot == s[b].slot
    && (forall n {:trigger Alike(s, t, n)} :: n in s && n != b && s[n].level >= s[b].level ==> Alike(s, t, n))
    && forall n {:trigger Alike(s, t, n)} :: n in t && n != b && t[n].level >= s[b].level ==> Alike(s, t, n)
  }

  lemma {:induction false} DropsSame(s: Store, t: Store, c: Capacity, b: Node, n: int, top: nat, level: nat)
    requires SameAbove(s, t, level) && b in s && s[b].level >= level
    ensures Drops(s, c, b, n, top) == Drops(t, c, b, n, top)
    decreases if s[b].level <= top then top - s[b].level else 0
  {
    assert Alike(s, t, b);
    if s[b].level <= top && s[b].parent != null {
      JoinsSame(s, t, c, b, n, level);
      if Joins(s, c, b, n) {
        assert Alike(s, t, s[b].parent);
        if s[s[b].parent].level <= top {
          DropsSame(s, t, c, s[b].parent, |s[s[b].parent].keys| - 1, top, level);
        }
      }
    }
  }

  lemma JoinsSame(s: Store, t: Store, c: Capacity, b: Node, n: int, level: nat)
    requires SameAbove(s, t, level) && b in s && s[b].level >= level
    ensures Joins(s, c, b, n) <==> Joins(t, c, b, n)
  {
    var p, k := s[b].parent, if s[b].slot == 0 then 1 else s[b].slot - 1;
    assert Alike(s, t, b);
    if p != null {
      assert p in s && s[p].level >= level ==> Alike(s, t, p);
      assert p in t && t[p].level >= level ==> Alike(s, t, p);
      if p in s && k < |s[p].childs| {
        var q := s[p].childs[k];
        assert q in s && s[q].level >= level ==> Alike(s, t, q);
        assert q in t && t[q].level >= level ==> Alike(s, t, q);
      }
    }
  }

  lemma DropsShrunk(s: Store, t: Store, c: Capacity, b: Node, n: int, top: nat)
    requires SameBut(s, t, b)
    ensures Drops(s, c, b, n, top) == Drops(t, c, b, n, top)
  {
    var p, k, level := s[b].parent, if s[b].slot == 0 then 1 else s[b].slot - 1, s[b].level;
    assert SameAbove(s, t, level + 1);
    if p != null && level <= top {
      assert p in s && s[p].level > level ==> Alike(s, t, p);
      assert p in t && t[p].level > level ==> Alike(s, t, p);
      if p in s && s[p].level > level {
        if k < |s[p].childs| {
          var q := s[p].childs[k];
          assert q != b && q in s && s[q].level >= level ==> Alike(s, t, q);
          assert q != b && q in t && t[q].level >= level ==> Alike(s, t, q);
        }
        DropsSame(s, t, c, p, |s[p].keys| - 1, top, level + 1);
      }
    }
  }

  lemma SameAboveAt(s: Store, t: Store, level: nat, n: Node)
    requires SameAbove(s, t, level) && n in t && t[n].level >= level
    ensures n in s && s[n].level == t[n].level && |s[n].keys| == |t[n].keys|
  {
    assert Alike(s, t, n);
  }
}
