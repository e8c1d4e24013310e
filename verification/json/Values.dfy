// JSON values, and what is left of a value that has been written out as C text.
module JsonValues {
  // A null value is a null pointer in the original. The rounding of floating point values is not modelled.
  datatype Json = Null | Integer(value: int) | Float(number: real) | String(text: string) | Boolean(flag: bool)
                | Array(items: seq<Json>) | Object(entries: seq<Entry>)

  datatype Entry = Entry(key: string, value: Json)

  const TWO64: int := 0x1_0000_0000_0000_0000
  const MIN64: int := -0x8000_0000_0000_0000
  const MAX64: int := 0x7FFF_FFFF_FFFF_FFFF

  // the value a 64-bit signed variable keeps, where arithmetic wraps around
  function Wrap(n: int): (r: int)
    ensures MIN64 <= r <= MAX64 && (n - r) % TWO64 == 0
    ensures MIN64 <= n <= MAX64 ==> r == n
  {
    (n - MIN64) % TWO64 + MIN64
  }

  ghost predicate DistinctKeys(entries: seq<Entry>)
  {
    forall i, j :: 0 <= i < j < |entries| ==> entries[i].key != entries[j].key
  }

  // what every value in memory that the parser can build satisfies: C texts, 64-bit integers, one entry for a key
  ghost predicate Clean(v: Json)
  {
    match v
    case Integer(n) => MIN64 <= n <= MAX64
    case String(t) => '\0' !in t
    case Array(items) => forall i :: 0 <= i < |items| ==> Clean(items[i])
    case Object(entries) => DistinctKeys(entries) && forall i :: 0 <= i < |entries| ==> CleanEntry(entries[i])
    case _ => true
  }

  ghost predicate CleanEntry(e: Entry)
  {
    '\0' !in e.key && Clean(e.value)
  }

  // the part of a text before its first NUL, which is all that c_str() shows to a reader
  function Cut(s: string): (r: string)
    ensures '\0' !in r && r <= s
    ensures |r| < |s| ==> s[|r|] == '\0'
  {
    if s == "" || s[0] == '\0' then "" else [s[0]] + Cut(s[1..])
  }

  // ---------- the entries of an object: a later value for a key replaces the earlier one where it stands

  function SlotOf(entries: seq<Entry>, key: string): (r: nat)
    ensures r <= |entries|
    ensures r < |entries| ==> entries[r].key == key
    ensures forall i :: 0 <= i < r ==> entries[i].key != key
  {
    if entries == [] || entries[0].key == key then 0 else 1 + SlotOf(entries[1..], key)
  }

  function SetEntry(entries: seq<Entry>, key: string, value: Json): seq<Entry>
  {
    var at := SlotOf(entries, key);
    if at < |entries| then entries[at := Entry(key, value)] else entries + [Entry(key, value)]
  }

  function Merge(acc: seq<Entry>, more: seq<Entry>): seq<Entry>
    decreases |more|
  {
    if more == [] then acc else Merge(SetEntry(acc, more[0].key, more[0].value), more[1..])
  }

  lemma SetKeepsClean(entries: seq<Entry>, key: string, value: Json)
    requires Clean(Object(entries)) && CleanEntry(Entry(key, value))
    ensures Clean(Object(SetEntry(entries, key, value)))
  {
    var out := SetEntry(entries, key, value);
    assert forall i :: 0 <= i < |out| ==> out[i] == Entry(key, value) || (i < |entries| && out[i] == entries[i]);
    assert forall i :: 0 <= i < |entries| ==> out[i].key == entries[i].key;
  }

  lemma {:induction false} MergeKeepsClean(acc: seq<Entry>, more: seq<Entry>)
    requires Clean(Object(acc)) && forall i :: 0 <= i < |more| ==> CleanEntry(more[i])
    ensures Clean(Object(Merge(acc, more)))
    decreases |more|
  {
    if more != [] {
      SetKeepsClean(acc, more[0].key, more[0].value);
      MergeKeepsClean(SetEntry(acc, more[0].key, more[0].value), more[1..]);
    }
  }

  lemma {:induction false} MergeDistinct(acc: seq<Entry>, more: seq<Entry>)
    requires DistinctKeys(acc + more)
    ensures Merge(acc, more) == acc + more
    decreases |more|
  {
    if more == [] {
      assert acc + more == acc;
    } else {
      var at := SlotOf(acc, more[0].key);
      assert (acc + more)[|acc|] == more[0];
      assert forall i :: 0 <= i < |acc| ==> acc[i] == (acc + more)[i];
      assert at == |acc|;
      assert acc + [more[0]] + more[1..] == acc + more;
      MergeDistinct(acc + [more[0]], more[1..]);
    }
  }

  // ---------- what a value becomes when it is written and read again

  function Normal(v: Json): Json
  {
    match v
    case String(t) => String(Cut(t))
    case Array(items) => Array(NormalItems(items))
    case Object(entries) => Object(Merge([], NormalEntries(entries)))
    case _ => v
  }

  function NormalItems(items: seq<Json>): (r: seq<Json>)
    ensures |r| == |items|
  {
    if items == [] then [] else [Normal(items[0])] + NormalItems(items[1..])
  }

  function NormalEntries(entries: seq<Entry>): (r: seq<Entry>)
    ensures |r| == |entries|
  {
    if entries == [] then [] else [NormalEntry(entries[0])] + NormalEntries(entries[1..])
  }

  function NormalEntry(e: Entry): Entry
  {
    Entry(Cut(e.key), Normal(e.value))
  }

  lemma {:induction false} NormalItemsAt(items: seq<Json>, i: nat)
    requires i < |items|
    ensures NormalItems(items)[i] == Normal(items[i])
  {
    if i > 0 {
      NormalItemsAt(items[1..], i - 1);
    }
  }

  lemma {:induction false} NormalEntriesAt(entries: seq<Entry>, i: nat)
    requires i < |entries|
    ensures NormalEntries(entries)[i] == NormalEntry(entries[i])
  {
    if i > 0 {
      NormalEntriesAt(entries[1..], i - 1);
    }
  }

  lemma {:induction false} CutWhole(s: string)
    ensures Cut(s) == s <==> '\0' !in s
  {
    if s != "" && s[0] != '\0' {
      CutWhole(s[1..]);
      assert s == [s[0]] + s[1..];
    }
  }

  // integers fit their variable, at any depth
  ghost predicate Fits(v: Json)
  {
    match v
    case Integer(n) => MIN64 <= n <= MAX64
    case Array(items) => forall i :: 0 <= i < |items| ==> Fits(items[i])
    case Object(entries) => forall i :: 0 <= i < |entries| ==> Fits(entries[i].value)
    case _ => true
  }

  lemma {:induction false} NormalClean(v: Json)
    requires Fits(v)
    ensures Clean(Normal(v))
  {
    match v
    case Array(items) =>
      forall i | 0 <= i < |items| ensures Clean(NormalItems(items)[i]) {
        NormalItemsAt(items, i);
        NormalClean(items[i]);
      }
    case Object(entries) =>
      forall i | 0 <= i < |entries| ensures CleanEntry(NormalEntries(entries)[i]) {
        NormalEntriesAt(entries, i);
        NormalClean(entries[i].value);
      }
      MergeKeepsClean([], NormalEntries(entries));
    case _ =>
  }

  lemma {:induction false} CleanNormal(v: Json)
    requires Clean(v)
    ensures Normal(v) == v && Fits(v)
  {
    match v
    case String(t) => CutWhole(t);
    case Array(items) =>
      forall i | 0 <= i < |items| ensures NormalItems(items)[i] == items[i] && Fits(items[i]) {
        NormalItemsAt(items, i);
        CleanNormal(items[i]);
      }
      assert NormalItems(items) == items;
    case Object(entries) =>
      forall i | 0 <= i < |entries| ensures NormalEntries(entries)[i] == entries[i] && Fits(entries[i].value) {
        NormalEntriesAt(entries, i);
        assert CleanEntry(entries[i]);
        CutWhole(entries[i].key);
        CleanNormal(entries[i].value);
      }
      assert NormalEntries(entries) == entries && [] + entries == entries;
      MergeDistinct([], entries);
    case _ =>
  }

  // A value survives writing and reading exactly when its texts hold no NUL and no key of an object is repeated.
  lemma SurvivesIff(v: Json)
    requires Fits(v)
    ensures Normal(v) == v <==> Clean(v)
  {
    NormalClean(v);
    if Clean(v) {
      CleanNormal(v);
    }
  }
}
