// Over any run of operations the tree is a sorted multiset of keys, or a set when keys are unique.
module BTreeRuns {
  import opened BTreeArrays
  import opened BTreeNodes
  import opened BTreeStructure
  import opened BTreeSearch
  import opened BTreeTree

  datatype Op = Insert(key: int) | Delete(key: int) | Find(key: int)

  // ---------- the abstract collection

  ghost function After(m: multiset<int>, unique: bool, op: Op): multiset<int>
  {
    match op
    case Insert(k) => if unique && k in m then m else m + multiset{k}
    case Delete(k) => m - multiset{k}
    case Find(_) => m
  }

  ghost function Answer(m: multiset<int>, unique: bool, op: Op): bool
  {
    match op
    case Insert(k) => !(unique && k in m)
    case Delete(k) => k in m
    case Find(k) => k in m
  }

  ghost function Final(ops: seq<Op>, unique: bool): multiset<int>
  {
    if ops == [] then multiset{} else After(Final(ops[..|ops| - 1], unique), unique, ops[|ops| - 1])
  }

  ghost function Answers(ops: seq<Op>, unique: bool): seq<bool>
  {
    if ops == [] then []
    else
      var init, last := ops[..|ops| - 1], ops[|ops| - 1];
      Answers(init, unique) + [Answer(Final(init, unique), unique, last)]
  }

  // with unique keys the collection stays a set
  lemma {:induction false} FinalIsSet(ops: seq<Op>, key: int)
    ensures Final(ops, true)[key] <= 1
  {
    if ops != [] { FinalIsSet(ops[..|ops| - 1], key); }
  }

  // ---------- contents and keys

  ghost function KeyBag(q: seq<Item>): multiset<int> { multiset(ItemKeys(q)) }

  lemma InsertedBag(q: seq<Item>, pos: nat, x: Item)
    requires pos <= |q|
    ensures KeyBag(Inserted(q, pos, x)) == KeyBag(q) + multiset{x.key}
  {
    var ks := ItemKeys(q);
    assert ItemKeys(Inserted(q, pos, x)) == ks[..pos] + [x.key] + ks[pos..];
    assert ks == ks[..pos] + ks[pos..];
  }

  lemma RemovedBag(q: seq<Item>, pos: nat)
    requires pos < |q|
    ensures KeyBag(Removed(q, pos)) == KeyBag(q) - multiset{q[pos].key}
  {
    var ks := ItemKeys(q);
    assert ItemKeys(Removed(q, pos)) == ks[..pos] + ks[pos + 1..];
    assert ks == ks[..pos] + [ks[pos]] + ks[pos + 1..];
  }

  lemma BagHas(q: seq<Item>, key: int)
    ensures key in KeyBag(q) <==> HasKey(q, key)
  {
    var ks := ItemKeys(q);
    if HasKey(q, key) {
      var i :| 0 <= i < |q| && q[i].key == key;
      assert ks[i] == key;
    }
    if key in KeyBag(q) {
      assert key in ks;
      var i :| 0 <= i < |ks| && ks[i] == key;
    }
  }

  // ---------- sorted sequences of one bag

  ghost predicate SortedKeys(q: seq<int>) { forall i, j :: 0 <= i < j < |q| ==> q[i] <= q[j] }

  lemma LeastFirst(q: seq<int>, x: int)
    requires SortedKeys(q) && x in multiset(q)
    ensures q != [] && q[0] <= x
  {
    var i :| 0 <= i < |q| && q[i] == x;
  }

  lemma TailBag(q: seq<int>)
    requires q != [] && SortedKeys(q)
    ensures multiset(q[1..]) == multiset(q) - multiset{q[0]} && SortedKeys(q[1..]) && q == [q[0]] + q[1..]
  {
    assert q == [q[0]] + q[1..];
  }

  lemma SameHead(p: seq<int>, q: seq<int>)
    requires SortedKeys(p) && SortedKeys(q) && multiset(p) == multiset(q) && p != []
    ensures q != [] && p[0] == q[0]
  {
    hide SortedKeys;
    var m := multiset(p);
    assert p[0] in m;
    LeastFirst(q, p[0]);
    assert q[0] in multiset(q);
    LeastFirst(p, q[0]);
  }

  lemma {:induction false} SortedSame(p: seq<int>, q: seq<int>)
    requires SortedKeys(p) && SortedKeys(q) && multiset(p) == multiset(q)
    ensures p == q
  {
    hide SortedKeys;
    if p == [] || q == [] {
      if q != [] { SameHead(q, p); }
      if p != [] { SameHead(p, q); }
    } else {
      SameHead(p, q);
      TailBag(p);
      TailBag(q);
      SortedSame(p[1..], q[1..]);
    }
  }

  lemma OrderedKeys(q: seq<Item>, unique: bool)
    requires Ordered(q, unique)
    ensures SortedKeys(ItemKeys(q))
  {
  }

  // ---------- runs

  // any operation but a deletion that line 609 as written spoils
  method Step(tree: BTree, op: Op) returns (answer: bool)
    requires tree.Valid() && (op.Delete? ==> !tree.SpoilsKey(op.key))
    modifies tree, tree.nodes
    ensures tree.Valid() && fresh(tree.nodes - old(tree.nodes))
    ensures KeyBag(tree.Items()) == After(old(KeyBag(tree.Items())), tree.unique, op)
    ensures answer == Answer(old(KeyBag(tree.Items())), tree.unique, op)
  {
    hide BTree.Valid, BTree.Items, BTree.SpoilsKey, BTree.Place, BTree.LendsFor, KeyBag, HasKey, Inserted, Removed;
    ghost var q := tree.Items();
    BagHas(q, op.key);
    match op {
      case Insert(key) =>
        var at, atSlot, inserted, pos := tree.Insert(key);
        answer := inserted;
        if inserted { InsertedBag(q, pos, Item(key, 0)); }
      case Delete(key) =>
        var deleted, pos := tree.Delete(key);
        answer := deleted;
        if deleted { RemovedBag(q, pos); }
      case Find(key) =>
        var leaf, slot := tree.Find(key);
        answer := leaf != null;
    }
  }

  // Whether deleting key would make the left sibling of its leaf lend items through line 609 as written. With unique
  // keys such a deletion does lose items.
  method Lending(tree: BTree, key: int) returns (r: bool)
    requires tree.Valid()
    ensures !r ==> !tree.SpoilsKey(key)
    ensures r ==>
      tree.asWritten && HasKey(tree.Items(), key) && tree.LendsFor(key) && (tree.unique ==> tree.SpoilsKey(key))
  {
    hide *;
    var leaf, slot := tree.Find(key);
    if leaf == null {
      tree.SpoilsNothing(key);
      return false;
    }
    tree.SpoilsKeyIs(key, leaf, slot);
    tree.SpoilsLends(leaf, slot);
    tree.LendsIs(leaf);
    tree.HoldsIs(leaf, slot, key);
    if tree.Lends(leaf) { tree.LendsForSome(key, leaf, slot); }
    if tree.unique { tree.SpoilsWhenLending(leaf, slot); }
    r := tree.asWritten && leaf.size - 1 < tree.capacity.leaf / 2 && leaf.parent != null && leaf.slot > 0
         && tree.capacity.leaf < leaf.parent.childs[leaf.slot - 1].size + leaf.size - 1;
  }

  // Any run on an empty tree. With the range of line 609 as written it goes on until a deletion that would make a
  // left sibling lend.
  method Run(tree: BTree, ops: seq<Op>) returns (done: nat, answers: seq<bool>)
    requires tree.Valid() && tree.Items() == []
    modifies tree, tree.nodes
    ensures tree.Valid() && fresh(tree.nodes - old(tree.nodes)) && done <= |ops|
    ensures answers == Answers(ops[..done], tree.unique) && KeyBag(tree.Items()) == Final(ops[..done], tree.unique)
    ensures tree.size == |Final(ops[..done], tree.unique)|
    ensures SortedKeys(ItemKeys(tree.Items()))
    ensures done < |ops| ==> tree.asWritten && ops[done].Delete? && tree.LendsFor(ops[done].key)
    ensures done < |ops| && tree.unique ==> tree.SpoilsKey(ops[done].key)
  {
    hide BTree.Valid, BTree.Items, BTree.SpoilsKey, BTree.LendsFor, KeyBag, HasKey, After, Answer;
    done, answers := 0, [];
    EmptyBag();
    SizeOf(tree);
    while done < |ops|
      invariant tree.Valid() && fresh(tree.nodes - old(tree.nodes)) && done <= |ops|
      invariant answers == Answers(ops[..done], tree.unique) && KeyBag(tree.Items()) == Final(ops[..done], tree.unique)
      invariant tree.size == |KeyBag(tree.Items())| && SortedKeys(ItemKeys(tree.Items()))
    {
      if ops[done].Delete? {
        var stop := Lending(tree, ops[done].key);
        if stop {
          return;
        }
      }
      var answer := Step(tree, ops[done]);
      answers := answers + [answer];
      SizeOf(tree);
      assert ops[..done + 1][..|ops[..done + 1]| - 1] == ops[..done]
          && ops[..done + 1][|ops[..done + 1]| - 1] == ops[done];
      done := done + 1;
    }
  }

  lemma EmptyBag()
    ensures KeyBag([]) == multiset{}
  {
  }

  lemma SizeOf(tree: BTree)
    requires tree.Valid()
    ensures tree.size == |KeyBag(tree.Items())| && SortedKeys(ItemKeys(tree.Items()))
  {
    hide BTree.Inv, BTree.V, Contents, Ordered;
    OrderedNone(tree.unique);
    OrderedKeys([], tree.unique);
    if tree.root != null { OrderedKeys(tree.Items(), tree.unique); }
  }

  // Whatever the capacities and the paths taken, two trees that hold the same bag list the same keys.
  lemma SameBagSameKeys(a: BTree, b: BTree)
    requires a.Valid() && b.Valid() && KeyBag(a.Items()) == KeyBag(b.Items())
    ensures ItemKeys(a.Items()) == ItemKeys(b.Items())
  {
    hide BTree.Valid, BTree.Items;
    SizeOf(a);
    SizeOf(b);
    SortedSame(ItemKeys(a.Items()), ItemKeys(b.Items()));
  }
}
