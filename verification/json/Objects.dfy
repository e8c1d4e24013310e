// The object value: a list of cells in the order they were added, and an index of them by key.
module JsonObjects {
  import opened JsonValues

  // ---------- an object as its entries in order

  function Lookup(entries: seq<Entry>, key: string): Json
  {
    var at := SlotOf(entries, key);
    if at < |entries| then entries[at].value else Null
  }

  function RemoveEntry(entries: seq<Entry>, key: string): seq<Entry>
  {
    var at := SlotOf(entries, key);
    if at < |entries| then entries[..at] + entries[at + 1..] else entries
  }

  lemma SetEntryParts(entries: seq<Entry>, key: string, value: Json)
    ensures var at := SlotOf(entries, key);
      SetEntry(entries, key, value)
          == if at < |entries| then entries[at := Entry(key, value)] else entries + [Entry(key, value)]
  {
  }

  lemma RemoveEntryParts(entries: seq<Entry>, key: string)
    ensures var at := SlotOf(entries, key);
      RemoveEntry(entries, key) == if at < |entries| then entries[..at] + entries[at + 1..] else entries
  {
  }

  lemma SlotIs(entries: seq<Entry>, key: string, i: nat)
    requires DistinctKeys(entries) && i < |entries| && entries[i].key == key
    ensures SlotOf(entries, key) == i
  {
  }

  lemma SetThenLookup(entries: seq<Entry>, key: string, value: Json, other: string)
    requires DistinctKeys(entries)
    ensures DistinctKeys(SetEntry(entries, key, value))
    ensures Lookup(SetEntry(entries, key, value), other) == if other == key then value else Lookup(entries, other)
  {
    var out := SetEntry(entries, key, value);
    assert forall i :: 0 <= i < |entries| ==> out[i].key == entries[i].key;
    var at := SlotOf(entries, other);
    if at < |entries| {
      SlotIs(out, other, at);
    } else if other == key {
      SlotIs(out, other, |entries|);
    }
  }

  lemma RemoveThenLookup(entries: seq<Entry>, key: string, other: string)
    requires DistinctKeys(entries)
    ensures DistinctKeys(RemoveEntry(entries, key))
    ensures Lookup(RemoveEntry(entries, key), other) == if other == key then Null else Lookup(entries, other)
  {
    hide *;
    RemoveEntryParts(entries, key);
    var gone := SlotOf(entries, key);
    LookupParts(entries, other);
    var out := RemoveEntry(entries, key);
    LookupParts(out, other);
    if gone < |entries| {
      DropParts(entries, gone, out);
      var at := SlotOf(entries, other);
      if at < |entries| && other != key {
        SlotIs(out, other, if at < gone then at else at - 1);
      }
    }
  }

  lemma LookupParts(entries: seq<Entry>, key: string)
    ensures Lookup(entries, key) == if SlotOf(entries,
      key) < |entries| then entries[SlotOf(entries, key)].value else Null
  {
    hide SlotOf;
  }

  lemma DropParts(entries: seq<Entry>, gone: nat, out: seq<Entry>)
    requires DistinctKeys(entries) && gone < |entries| && out == entries[..gone] + entries[gone + 1..]
    ensures forall i :: 0 <= i < |out| ==> out[i] == entries[if i < gone then i else i + 1]
    ensures DistinctKeys(out)
    ensures forall i :: 0 <= i < |out| ==> out[i].key != entries[gone].key
  {
  }

  // ---------- the object itself

  class Cell {
    const key: string
    var value: Json

    constructor (key: string, value: Json)
      ensures this.key == key && this.value == value
    {
      this.key := key;
      this.value := value;
    }
  }

  // the list without the cell an iterator stands on
  function Erase(cells: seq<Cell>, cell: Cell): (r: seq<Cell>)
    ensures forall c :: c in r ==> c in cells
  {
    if cells == [] then []
    else if cells[0] == cell then cells[1..]
    else [cells[0]] + Erase(cells[1..], cell)
  }

  lemma {:induction false} EraseAt(cells: seq<Cell>, i: nat)
    requires i < |cells| && forall k :: 0 <= k < i ==> cells[k] != cells[i]
    ensures Erase(cells, cells[i]) == cells[..i] + cells[i + 1..]
  {
    if i > 0 {
      EraseAt(cells[1..], i - 1);
    }
  }

  class JsonObjectValue {
    var values: seq<Cell>
    var index: map<string, Cell>
    ghost var cells: set<Cell>

    constructor ()
      ensures Valid() && Entries() == [] && cells == {}
    {
      values := [];
      index := map[];
      cells := {};
    }

    // every cell is found in the index under its key, and there alone
    ghost predicate Valid()
      reads `values, `index, `cells
    {
      Indexed(values, index) && forall c :: c in values ==> c in cells
    }

    ghost function Entries(): (r: seq<Entry>)
      reads `values, values
      ensures |r| == |values| && r == EntriesOf(values)
      ensures forall i :: 0 <= i < |r| ==> r[i] == Entry(values[i].key, values[i].value)
    {
      EntriesOf(values)
    }

    static ghost function EntriesOf(cells: seq<Cell>): (r: seq<Entry>)
      reads cells
      ensures |r| == |cells|
      ensures forall i :: 0 <= i < |r| ==> r[i] == Entry(cells[i].key, cells[i].value)
    {
      if cells == [] then [] else [Entry(cells[0].key, cells[0].value)] + EntriesOf(cells[1..])
    }

    static ghost predicate Indexed(values: seq<Cell>, index: map<string, Cell>)
    {
      && (forall i :: 0 <= i < |values| ==> values[i].key in index && index[values[i].key] == values[i])
      && (forall i, j :: 0 <= i < j < |values| ==> values[i].key != values[j].key)
      && (forall key :: key in index ==> index[key] in values && index[key].key == key)
    }

    static lemma IndexedAdd(values: seq<Cell>, index: map<string, Cell>, cell: Cell)
      requires Indexed(values, index) && cell.key !in index
      ensures Indexed(values + [cell], index[cell.key := cell])
    {
      var more := values + [cell];
      assert more[|values|] == cell;
      forall key | key in index ensures index[key] in more {
        var i :| 0 <= i < |values| && values[i] == index[key];
        assert more[i] == index[key];
      }
    }

    static lemma IndexedErase(values: seq<Cell>, index: map<string, Cell>, at: nat)
      requires Indexed(values, index) && at < |values|
      ensures Erase(values, values[at]) == values[..at] + values[at + 1..]
      ensures Indexed(values[..at] + values[at + 1..], index - {values[at].key})
    {
      hide Erase;
      var less := values[..at] + values[at + 1..];
      forall cell | cell in values && cell != values[at] ensures cell in less {
        StillThere(values, at, cell);
      }
      assert forall i :: 0 <= i < |less| ==> less[i] == values[if i < at then i else i + 1];
      IndexedLess(values, index, at, less);
      EraseAt(values, at);
    }

    static lemma IndexedLess(values: seq<Cell>, index: map<string, Cell>, at: nat, less: seq<Cell>)
      requires Indexed(values, index) && at < |values| && |less| == |values| - 1
      requires forall i :: 0 <= i < |less| ==> less[i] == values[if i < at then i else i + 1]
      requires forall cell :: cell in values && cell != values[at] ==> cell in less
      ensures Indexed(less, index - {values[at].key})
    {
    }

    static lemma StillThere(values: seq<Cell>, at: nat, cell: Cell)
      requires at < |values| && cell in values && cell != values[at]
      ensures cell in values[..at] + values[at + 1..]
    {
      var i :| 0 <= i < |values| && values[i] == cell;
      assert (values[..at] + values[at + 1..])[if i < at then i else i - 1] == cell;
    }

    static lemma EntriesErased(cells: seq<Cell>, at: nat)
      requires at < |cells|
      ensures EntriesOf(cells[..at] + cells[at + 1..]) == EntriesOf(cells)[..at] + EntriesOf(cells)[at + 1..]
    {
      hide EntriesOf;
      var less := cells[..at] + cells[at + 1..];
      forall i | 0 <= i < |less| ensures EntriesOf(less)[i] == EntriesOf(cells)[if i < at then i else i + 1] {
        assert less[i] == cells[if i < at then i else i + 1];
      }
      Skipped(EntriesOf(cells), at, EntriesOf(less));
    }

    static lemma Skipped(q: seq<Entry>, at: nat, less: seq<Entry>)
      requires at < |q| == |less| + 1
      requires forall i :: 0 <= i < |less| ==> less[i] == q[if i < at then i else i + 1]
      ensures less == q[..at] + q[at + 1..]
    {
    }

    // the entries as they are iterated over
    method Contents() returns (r: seq<Entry>)
      ensures r == Entries()
    {
      r := [];
      var i := 0;
      while i < |values|
        invariant 0 <= i <= |values| && r == Entries()[..i]
      {
        r := r + [Entry(values[i].key, values[i].value)];
        i := i + 1;
      }
    }

    // the index and the order agree on where a key stands
    lemma IndexIsSlot(key: string)
      requires Valid()
      ensures DistinctKeys(Entries())
      ensures key in index <==> SlotOf(Entries(), key) < |values|
      ensures key in index ==> values[SlotOf(Entries(), key)] == index[key]
    {
      if key in index {
        var i :| 0 <= i < |values| && values[i] == index[key];
        SlotIs(Entries(), key, i);
      }
    }

    method Exists(key: string) returns (r: bool)
      requires Valid()
      ensures r <==> exists i :: 0 <= i < |Entries()| && Entries()[i].key == key
    {
      IndexIsSlot(key);
      r := key in index;
      assert forall i :: 0 <= i < |Entries()| ==> Entries()[i].key == values[i].key;
    }

    method Get(key: string) returns (r: Json)
      requires Valid()
      ensures r == Lookup(Entries(), key)
    {
      IndexIsSlot(key);
      r := if key in index then index[key].value else Null;
    }

    method Insert(key: string) returns (cell: Cell)
      requires Valid()
      modifies this
      ensures Valid() && cell in values && cell.key == key
      ensures Entries() == if SlotOf(old(Entries()),
        key) < |old(values)| then old(Entries()) else old(Entries()) + [Entry(key, Null)]
      ensures fresh(cells - old(cells)) && old(cells) <= cells
    {
      IndexIsSlot(key);
      if key in index {
        cell := index[key];
      } else {
        cell := new Cell(key, Null);
        Append(cell);
      }
    }

    // The reference the original returns is the value of the cell: what is stored through it is the object's.
    method Set(key: string, value: Json) returns (cell: Cell)
      requires Valid()
      modifies this, cells
      ensures Valid() && Entries() == SetEntry(old(Entries()), key, value)
      ensures fresh(cells - old(cells)) && old(cells) <= cells
      ensures cell in cells && cell.key == key && cell.value == value && key in index && index[key] == cell
      ensures SlotOf(Entries(), key) < |values| && values[SlotOf(Entries(), key)] == cell
    {
      IndexIsSlot(key);
      SetEntryParts(Entries(), key, value);
      if key in index {
        ghost var at := SlotOf(Entries(), key);
        cell := index[key];
        Overwrite(cell, at, value);
        SlotIs(Entries(), key, at);
      } else {
        cell := new Cell(key, value);
        Append(cell);
        LastSlot(key);
      }
    }

    lemma LastSlot(key: string)
      requires Valid() && values != [] && values[|values| - 1].key == key
      ensures SlotOf(Entries(), key) == |values| - 1
    {
      IndexIsSlot(key);
      SlotIs(Entries(), key, |values| - 1);
    }

    method Overwrite(cell: Cell, ghost at: nat, value: Json)
      requires Valid() && at < |values| && values[at] == cell
      modifies cell
      ensures Valid() && Entries() == old(Entries())[at := Entry(cell.key, value)]
    {
      hide SetEntry, SlotOf;
      cell.value := value;
    }

    method Append(cell: Cell)
      requires Valid() && cell.key !in index
      modifies this
      ensures Valid() && values == old(values) + [cell] && cells == old(cells) + {cell}
      ensures Entries() == old(Entries()) + [Entry(cell.key, cell.value)]
    {
      hide *;
      OpenValid();
      IndexedAdd(values, index, cell);
      values := values + [cell];
      index := index[cell.key := cell];
      cells := cells + {cell};
      CloseValid();
    }

    lemma OpenValid()
      requires Valid()
      ensures Indexed(values, index) && forall c :: c in values ==> c in cells
    {
    }

    lemma CloseValid()
      requires Indexed(values, index) && forall c :: c in values ==> c in cells
      ensures Valid()
    {
    }

    method Delete(key: string)
      requires Valid()
      modifies this
      ensures Valid() && Entries() == RemoveEntry(old(Entries()), key)
      ensures cells == old(cells)
    {
      hide *;
      IndexIsSlot(key);
      RemoveEntryParts(Entries(), key);
      if key in index {
        OpenValid();
        ghost var at := SlotOf(Entries(), key);
        IndexedErase(values, index, at);
        EntriesErased(values, at);
        values := Erase(values, index[key]);
        index := index - {key};
        CloseValid();
      }
    }
  }
}
