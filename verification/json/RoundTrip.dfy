// Reading undoes writing, for both printers at any indent, and what it gives for every value.
module JsonRoundTrip {
  import opened JsonValues
  import opened JsonTexts
  import opened JsonGrammar

  // what may follow a value without being taken for a part of it
  ghost predicate Stops(post: string)
  {
    post == "" || (!IsWord(post[0]) && post[0] != '.')
  }

  // the C text the library gives for a floating point value reads back as that value
  ghost predicate Shows(image: real -> string, f: real)
  {
    '\0' !in image(f) &&
    forall post | Stops(post) :: ReadValue(image(f) + post) == Got(Float(f), post)
  }

  ghost predicate Writable(v: Json, image: real -> string)
  {
    match v
    case Integer(n) => MIN64 <= n <= MAX64
    case Float(f) => Shows(image, f)
    case Array(items) => forall i :: 0 <= i < |items| ==> Writable(items[i], image)
    case Object(entries) => forall i :: 0 <= i < |entries| ==> Writable(entries[i].value, image)
    case _ => true
  }

  // ---------- blank text

  ghost predicate Blank(s: string)
  {
    forall i :: 0 <= i < |s| ==> IsSpace(s[i]) || IsNewLine(s[i])
  }

  lemma {:induction false} IndentBlank(size: int)
    ensures Blank(Indent(size))
    decreases size
  {
    if size > 0 {
      IndentBlank(size - 1);
    }
  }

  lemma GapsBlank(style: Style, depth: int)
    ensures Blank(style.Open(depth)) && Blank(style.Next(depth)) && Blank(style.Close(depth))
      && Blank(style.Hollow(depth))
    ensures style.Close(depth) != ""
  {
    IndentBlank(depth);
    IndentBlank(depth + 1);
  }

  lemma {:induction false} SkipGap(gap: string, s: string)
    requires Blank(gap) && !IsSpace(Head(s)) && !IsNewLine(Head(s))
    ensures SkipSpaces(gap + s) == s
  {
    if gap == "" {
      assert gap + s == s;
    } else {
      assert (gap + s)[1..] == gap[1..] + s;
      SkipGap(gap[1..], s);
    }
  }

  // ---------- texts

  lemma EscapeKinds(c: char)
    ensures |EscapeChar(c)| == 1 ==> EscapeChar(c) == [c] && c != '"' && c != '\\' && c != '\n'
    ensures |EscapeChar(c)| != 1 ==>
      |EscapeChar(c)| == 2 && EscapeChar(c)[0] == '\\' && Unescape(EscapeChar(c)[1]) == Stands(c)
  {
  }

  lemma BodyStep(s: string, more: string)
    requires s != "" && s[0] != '"' && s[0] != '\n'
    ensures s[0] != '\\' && s[1..] == more ==> StringBody(s) == After([s[0]], StringBody(more))
    ensures s[0] == '\\' && |s| > 1 && Unescape(s[1]).Stands? && s[2..] == more ==>
              StringBody(s) == After([Unescape(s[1]).c], StringBody(more))
  {
    hide Suffix, Unescape, After;
  }

  lemma EscapedStep(c: char, more: string)
    ensures StringBody(EscapeChar(c) + more) == After([c], StringBody(more))
  {
    hide *;
    EscapeKinds(c);
    var s := EscapeChar(c) + more;
    assert |EscapeChar(c)| == 1 ==> s[1..] == more;
    assert |EscapeChar(c)| == 2 ==> s[2..] == more;
    BodyStep(s, more);
  }

  lemma EscapeParts(t: string, more: string)
    requires t != ""
    ensures Escape(t) + more == EscapeChar(t[0]) + (Escape(t[1..]) + more)
  {
  }

  lemma BodyEnds(post: string)
    ensures StringBody(Escape("") + ("\"" + post)) == Got("", post)
  {
    assert Escape("") + ("\"" + post) == "\"" + post;
    assert ("\"" + post)[1..] == post;
  }

  lemma AfterGot(done: string, t: string, rest: string)
    ensures After(done, Got(t, rest)) == Got(done + t, rest)
  {
  }

  lemma {:induction false} ReadEscaped(t: string, post: string)
    ensures StringBody(Escape(t) + ("\"" + post)) == Got(t, post)
  {
    hide *;
    if t == "" {
      BodyEnds(post);
    } else {
      ReadEscaped(t[1..], post);
      EscapeParts(t, "\"" + post);
      EscapedStep(t[0], Escape(t[1..]) + ("\"" + post));
      AfterGot([t[0]], t[1..], post);
      assert t == [t[0]] + t[1..];
    }
  }

  lemma QuotedParts(t: string, post: string)
    ensures Quoted(t) + post == "\"" + (Escape(Cut(t)) + ("\"" + post))
  {
  }

  lemma ReadQuoted(t: string, post: string)
    ensures Quoted(t) + post != "" && (Quoted(t) + post)[0] == '"'
    ensures StringBody((Quoted(t) + post)[1..]) == Got(Cut(t), post)
  {
    hide *;
    ReadEscaped(Cut(t), post);
    QuotedParts(t, post);
    assert (Quoted(t) + post)[1..] == Escape(Cut(t)) + ("\"" + post);
  }

  // ---------- numbers

  lemma WrapStep(n: int, d: int)
    ensures Wrap(Wrap(Wrap(n) * 10) + d) == Wrap(n * 10 + d)
  {
    WrapSame(Wrap(Wrap(n) * 10) + d, n * 10 + d,
        (Wrap(n) * 10 - Wrap(Wrap(n) * 10)) / TWO64 + (n - Wrap(n)) / TWO64 * 10);
  }

  lemma WrapSame(a: int, b: int, k: int)
    requires b - a == k * TWO64
    ensures Wrap(a) == Wrap(b)
  {
    var ra := (a - Wrap(a)) / TWO64;
    var rb := (b - Wrap(b)) / TWO64;
    assert Wrap(a) - Wrap(b) == (rb - ra - k) * TWO64;
  }

  // reading the digits of n leaves n as far as 64 bits hold it
  lemma {:induction false} ReadNat(n: nat, post: string)
    ensures Digits(NatText(n) + post, 0) == Digits(post, Wrap(n))
  {
    if n < 10 {
      assert ([Digit(n)] + post)[1..] == post;
    } else {
      var d := [Digit(n % 10)];
      assert NatText(n) + post == NatText(n / 10) + (d + post);
      ReadNat(n / 10, d + post);
      assert (d + post)[1..] == post;
      WrapStep(n / 10, n % 10);
    }
  }

  lemma ReadNatural(n: nat, post: string)
    requires Stops(post)
    ensures Digits(NatText(n) + post, 0) == (Wrap(n), post)
    ensures NatText(n) + post != "" && IsDigit((NatText(n) + post)[0])
  {
    ReadNat(n, post);
  }

  lemma LiteralIs(s: string, i: int, post: string)
    requires s != "" && IsDigit(s[0]) && Digits(s, 0) == (i, post)
    ensures IntegerLiteral(s) == Got(Wrap(i), post)
    ensures IntegerLiteral("-" + s) == Got(Wrap(-i), post)
  {
    assert ("-" + s)[1..] == s;
  }

  lemma LiteralAlone(s: string, i: int, post: string)
    requires IntegerLiteral(s) == Got(i, post) && Stops(post)
    ensures NumberLiteral(s) == Got(Integer(i), post)
  {
  }

  lemma ReadInt(n: int, post: string)
    requires MIN64 <= n <= MAX64 && Stops(post)
    ensures NumberLiteral(IntText(n) + post) == Got(Integer(n), post)
    ensures IntText(n) + post != "" && (IsDigit((IntText(n) + post)[0]) || (IntText(n) + post)[0] == '-')
  {
    hide Digits, NatText, IntegerLiteral, NumberLiteral, Stops;
    var m := if n < 0 then -n else n;
    ReadNatural(m, post);
    LiteralIs(NatText(m) + post, Wrap(m), post);
    if n < 0 {
      assert IntText(n) + post == "-" + (NatText(m) + post);
      WrapSame(-Wrap(m), n, (n + Wrap(m)) / TWO64);
    }
    LiteralAlone(IntText(n) + post, n, post);
  }

  lemma {:induction false} NatOverflow(n: nat, post: string)
    ensures Overflows(NatText(n) + post, 0) <==> n > MAX64 || Overflows(post, n)
  {
    if n < 10 {
      assert ([Digit(n)] + post)[1..] == post;
    } else {
      var d := [Digit(n % 10)];
      assert NatText(n) + post == NatText(n / 10) + (d + post);
      NatOverflow(n / 10, d + post);
      assert (d + post)[1..] == post;
    }
  }

  lemma IntTextParts(n: int, post: string)
    ensures n < 0 ==> (IntText(n) + post)[1..] == NatText(-n) + post
    ensures n >= 0 ==> (IntText(n) + post)[0..] == NatText(n) + post
    ensures MIN64 == -MAX64 - 1
  {
    hide NatText;
  }

  lemma NoDigitNoOverflow(post: string, i: int)
    requires !IsDigit(Head(post))
    ensures !Overflows(post, i)
  {
  }

  // Reading back a printed 64-bit integer never leaves the 64-bit range on the way, but for the least one.
  lemma OverflowsAtMinimum(n: int, post: string)
    requires MIN64 <= n <= MAX64 && !IsDigit(Head(post))
    ensures Overflows((IntText(n) + post)[if n < 0 then 1 else 0..], 0) <==> n == MIN64
  {
    hide *;
    NatOverflow(if n < 0 then -n else n, post);
    IntTextParts(n, post);
    NoDigitNoOverflow(post, if n < 0 then -n else n);
  }

  // ---------- words

  lemma {:induction false} WordIs(word: string, post: string)
    requires forall i :: 0 <= i < |word| ==> IsWord(word[i])
    requires Stops(post)
    ensures Word(word + post) == word
  {
    if word == "" {
      assert word + post == post;
    } else {
      assert (word + post)[1..] == word[1..] + post;
      WordIs(word[1..], post);
    }
  }

  lemma ReadWord(word: string, post: string)
    requires word == "null" || word == "true" || word == "false"
    requires Stops(post)
    ensures ReadValue(word + post) == Got(if word == "null" then Null else Boolean(word == "true"), post)
  {
    WordIs(word, post);
    assert (word + post)[|word|..] == post;
  }

  // ---------- values

  // a text a value can begin with
  predicate BeginsValue(s: string)
  {
    s != "" && (s[0] == '"' || IsDigit(s[0]) || s[0] == '-' || IsAlpha(s[0]) || s[0] == '[' || s[0] == '{')
  }

  lemma ValueBegins(s: string)
    requires ReadValue(s).Got?
    ensures BeginsValue(s)
  {
  }

  lemma Begins(s: string)
    requires BeginsValue(s)
    ensures s != "" && !IsSpace(s[0]) && !IsNewLine(s[0]) && s[0] != ']' && s[0] != '}'
  {
  }

  lemma BlankOrNot(c: char)
    ensures IsSpace(c) || IsNewLine(c) <==> c == ' ' || c == '\t' || c == '\r' || c == '\n'
  {
  }

  lemma NormalParts(items: seq<Json>)
    requires items != []
    ensures NormalItems(items) == [Normal(items[0])] + NormalItems(items[1..])
    ensures |items| == 1 ==> NormalItems(items) == [Normal(items[0])]
  {
  }

  lemma MergeNone(none: seq<Entry>)
    requires none == []
    ensures Merge([], none) == []
  {
  }

  lemma MergeParts(acc: seq<Entry>, entries: seq<Entry>)
    requires entries != []
    ensures var e := entries[0];
      var done := SetEntry(acc, Cut(e.key), Normal(e.value));
      Merge(acc, NormalEntries(entries)) == (if |entries| == 1 then done else Merge(done, NormalEntries(entries[1..])))
  {
    var e := NormalEntry(entries[0]);
    assert NormalEntries(entries) == [e] + NormalEntries(entries[1..]);
    assert NormalEntries(entries)[1..] == NormalEntries(entries[1..]);
  }

  lemma ValueKinds(s: string)
    requires s != ""
    ensures s[0] == '[' ==> ReadValue(s) == ReadArray(s)
    ensures s[0] == '{' ==> ReadValue(s) == ReadObject(s)
    ensures IsDigit(s[0]) || s[0] == '-' ==> ReadValue(s) == NumberLiteral(s)
    ensures s[0] == '"' && StringBody(s[1..]).Got? ==>
      ReadValue(s) == Got(String(StringBody(s[1..]).value), StringBody(s[1..]).rest)
  {
    hide Suffix, ReadArray, ReadObject, NumberLiteral, StringBody;
  }

  lemma {:induction false} ReadText(v: Json, style: Style, depth: int, post: string)
    requires Writable(v, style.image) && Stops(post)
    ensures ReadValue(Text(v, style, depth) + post) == Got(Normal(v), post)
    decreases v, 3
  {
    hide ReadValue, ReadArray, ReadObject, NumberLiteral, StringBody, ItemTexts, EntryTexts, Quoted, IntText,
        NormalItems,
         NormalEntries, Merge, Cut, Stops;
    var s := Text(v, style, depth) + post;
    match v
    case Null => ReadWord("null", post);
    case Integer(n) => ReadInt(n, post); ValueKinds(s);
    case Float(_) =>
    case String(t) => ReadQuoted(t, post); ValueKinds(s);
    case Boolean(b) => ReadWord(if b then "true" else "false", post);
    case Array(items) => ReadArrayText(items, style, depth, post); ValueKinds(s);
    case Object(entries) => ReadObjectText(entries, style, depth, post); ValueKinds(s);
  }

  // one step of the two loops
  lemma ItemsStep(s: string, acc: seq<Json>, v: Json, rest: string, next: string)
    requires ReadValue(s) == Got(v, rest) && SkipSpaces(rest) == next && next != ""
    ensures next[0] == ',' ==> ReadItems(s, acc) == ReadItems(SkipSpaces(next[1..]), acc + [v])
    ensures next[0] == ']' ==> ReadItems(s, acc) == Got(Array(acc + [v]), next[1..])
  {
    hide Suffix, SkipSpaces, ReadValue;
  }

  lemma EntriesStep(s: string, acc: seq<Entry>, key: string, valueAt: string, v: Json, rest: string, next: string)
    requires ReadKey(s) == Got(key, valueAt) && ReadValue(valueAt) == Got(v, rest) && SkipSpaces(rest) == next
      && next != ""
    ensures next[0] == ',' ==> ReadEntries(s, acc) == ReadEntries(SkipSpaces(next[1..]), SetEntry(acc, key, v))
    ensures next[0] == '}' ==> ReadEntries(s, acc) == Got(Object(SetEntry(acc, key, v)), next[1..])
  {
    hide Suffix, SkipSpaces, ReadValue, ReadKey, SetEntry;
  }

  lemma ListBegins(s: string, body: string)
    requires s != "" && SkipSpaces(s[1..]) == body && body != ""
    ensures body[0] == ']' ==> ReadArray(s) == Got(Array([]), body[1..])
    ensures body[0] != ']' ==> ReadArray(s) == ReadItems(body, [])
    ensures body[0] == '}' ==> ReadObject(s) == Got(Object([]), body[1..])
    ensures body[0] != '}' ==> ReadObject(s) == ReadEntries(body, [])
  {
    hide Suffix, SkipSpaces, ReadItems, ReadEntries;
  }

  lemma Regroup(open: string, gap: string, body: string, close: string, bracket: string, post: string)
    ensures open + gap + body + close + bracket + post == open + (gap + (body + (close + (bracket + post))))
    ensures open + gap + bracket + post == open + (gap + (bracket + post))
  {
  }

  lemma ListTexts(v: Json, style: Style, depth: int, post: string)
    requires v.Array? || v.Object?
    ensures v.Array? ==> var end := "]" + post;
      Text(v, style, depth) + post ==
      "[" + if v.items == [] then style.Hollow(depth) + end
            else style.Open(depth) + (ItemTexts(v.items, style, depth) + (style.Close(depth) + end))
    ensures v.Object? ==> var end := "}" + post;
      Text(v, style, depth) + post ==
      "{" + if v.entries == [] then style.Hollow(depth) + end
            else style.Open(depth) + (EntryTexts(v.entries, style, depth) + (style.Close(depth) + end))
  {
    hide *;
    ListTextIs(v, style, depth);
    var open, close := style.Open(depth), style.Close(depth);
    if v.Array? {
      var first := if v.items == [] then style.Hollow(depth) else open;
      Regroup("[", first, if v.items == [] then "" else ItemTexts(v.items, style, depth), close, "]", post);
    } else {
      var first := if v.entries == [] then style.Hollow(depth) else open;
      Regroup("{", first, if v.entries == [] then "" else EntryTexts(v.entries, style, depth), close, "}", post);
    }
  }

  lemma ListTextIs(v: Json, style: Style, depth: int)
    ensures v.Array? ==> Text(v, style, depth) == if v.items == [] then "[" + style.Hollow(depth) + "]"
              else "[" + style.Open(depth) + ItemTexts(v.items, style, depth) + style.Close(depth) + "]"
    ensures v.Object? ==> Text(v, style, depth) == if v.entries == [] then "{" + style.Hollow(depth) + "}"
              else "{" + style.Open(depth) + EntryTexts(v.entries, style, depth) + style.Close(depth) + "}"
  {
    hide ItemTexts, EntryTexts, Style.Open, Style.Close, Style.Hollow;
  }

  // between two members: a comma, then the gap, then the rest
  function Comma(style: Style, depth: int, more: string): (r: string)
    ensures r != "" && r[0] == ',' && r[1..] == style.Next(depth) + more
  {
    "," + (style.Next(depth) + more)
  }

  lemma ItemTextsParts(items: seq<Json>, style: Style, depth: int, tail: string)
    requires items != []
    ensures ItemTexts(items, style, depth) + tail
         == Text(items[0], style, depth + 1)
            + if |items| == 1 then tail else Comma(style, depth, ItemTexts(items[1..], style, depth) + tail)
  {
    hide Text, Style.Next;
    if |items| == 1 {
      assert ItemTexts(items, style, depth) == Text(items[0], style, depth + 1);
    }
  }

  lemma EntryTextsParts(entries: seq<Entry>, style: Style, depth: int, tail: string)
    requires entries != []
    ensures EntryTexts(entries, style, depth) + tail
         == Quoted(entries[0].key) + " : "
            + (Text(entries[0].value, style, depth + 1)
               + if |entries| == 1 then tail else Comma(style, depth, EntryTexts(entries[1..], style, depth) + tail))
  {
    hide Text, Style.Next, Quoted;
    if |entries| == 1 {
      assert EntryTexts(entries, style, depth) == EntryText(entries[0], style, depth);
    }
  }

  lemma SkipComma(style: Style, depth: int, more: string)
    requires more != "" && !IsSpace(more[0]) && !IsNewLine(more[0])
    ensures var next := Comma(style, depth, more);
      Stops(next) && SkipSpaces(next) == next && SkipSpaces(next[1..]) == more
  {
    GapsBlank(style, depth);
    SkipGap(style.Next(depth), more);
  }

  // what follows the last member: the gap, the bracket, and the text after it
  lemma SkipClose(style: Style, depth: int, bracket: char, post: string)
    requires bracket == ']' || bracket == '}'
    ensures var end := [bracket] + post;
      end[0] == bracket && end[1..] == post && Stops(style.Close(depth) + end)
      && SkipSpaces(style.Close(depth) + end) == end && SkipSpaces(style.Hollow(depth) + end) == end
  {
    GapsBlank(style, depth);
    SkipGap(style.Close(depth), [bracket] + post);
    SkipGap(style.Hollow(depth), [bracket] + post);
  }

  lemma SkipOpen(style: Style, depth: int, body: string)
    requires body != "" && !IsSpace(body[0]) && !IsNewLine(body[0])
    ensures SkipSpaces(style.Open(depth) + body) == body
  {
    GapsBlank(style, depth);
    SkipGap(style.Open(depth), body);
  }

  lemma WritableParts(v: Json, image: real -> string)
    requires Writable(v, image)
    ensures v.Array? ==> forall i :: 0 <= i < |v.items| ==> Writable(v.items[i], image)
    ensures v.Array? && v.items != [] ==> Writable(Array(v.items[1..]), image)
    ensures v.Object? ==> forall i :: 0 <= i < |v.entries| ==> Writable(v.entries[i].value, image)
    ensures v.Object? && v.entries != [] ==> Writable(Object(v.entries[1..]), image)
  {
  }

  lemma {:induction false} ReadArrayText(items: seq<Json>, style: Style, depth: int, post: string)
    requires Writable(Array(items), style.image) && Stops(post)
    ensures ReadArray(Text(Array(items), style, depth) + post) == Got(Array(NormalItems(items)), post)
    decreases items, 2
  {
    hide *;
    var s := Text(Array(items), style, depth) + post;
    var end := "]" + post;
    ListTexts(Array(items), style, depth, post);
    SkipClose(style, depth, ']', post);
    if items == [] {
      assert s[1..] == style.Hollow(depth) + end;
      ListBegins(s, end);
      assert NormalItems(items) == [];
    } else {
      var tail := style.Close(depth) + end;
      var body := ItemTexts(items, style, depth) + tail;
      assert s[1..] == style.Open(depth) + body;
      ReadItemTexts(items, style, depth, tail, [], post);
      assert [] + NormalItems(items) == NormalItems(items);
      Begins(body);
      SkipOpen(style, depth, body);
      ListBegins(s, body);
    }
  }

  // tail is what follows the last item
  lemma {:induction false} ReadItemTexts(items: seq<Json>, style: Style, depth: int, tail: string, acc: seq<Json>,
      post: string)
    requires items != [] && Writable(Array(items), style.image)
    requires Stops(tail) && SkipSpaces(tail) == "]" + post
    ensures ReadItems(ItemTexts(items, style, depth) + tail, acc) == Got(Array(acc + NormalItems(items)), post)
    ensures BeginsValue(ItemTexts(items, style, depth) + tail)
    decreases items, 1
  {
    hide *;
    var s := ItemTexts(items, style, depth) + tail;
    WritableParts(Array(items), style.image);
    ItemTextsParts(items, style, depth, tail);
    NormalParts(items);
    if |items| == 1 {
      ReadText(items[0], style, depth + 1, tail);
      ItemsStep(s, acc, Normal(items[0]), tail, "]" + post);
      assert ("]" + post)[1..] == post;
    } else {
      var more := ItemTexts(items[1..], style, depth) + tail;
      var next := Comma(style, depth, more);
      ReadItemTexts(items[1..], style, depth, tail, acc + [Normal(items[0])], post);
      Begins(more);
      SkipComma(style, depth, more);
      ReadText(items[0], style, depth + 1, next);
      ItemsStep(s, acc, Normal(items[0]), next, next);
      assert acc + [Normal(items[0])] + NormalItems(items[1..]) == acc + NormalItems(items);
    }
    ValueBegins(s);
  }

  lemma {:induction false} ReadObjectText(entries: seq<Entry>, style: Style, depth: int, post: string)
    requires Writable(Object(entries), style.image) && Stops(post)
    ensures ReadObject(Text(Object(entries), style, depth) + post)
      == Got(Object(Merge([], NormalEntries(entries))), post)
    decreases entries, 2
  {
    hide *;
    var s := Text(Object(entries), style, depth) + post;
    var end := "}" + post;
    ListTexts(Object(entries), style, depth, post);
    SkipClose(style, depth, '}', post);
    if entries == [] {
      assert s[1..] == style.Hollow(depth) + end;
      ListBegins(s, end);
      MergeNone(NormalEntries(entries));
    } else {
      var tail := style.Close(depth) + end;
      var body := EntryTexts(entries, style, depth) + tail;
      assert s[1..] == style.Open(depth) + body;
      ReadEntryTexts(entries, style, depth, tail, [], post);
      BlankOrNot('"');
      SkipOpen(style, depth, body);
      ListBegins(s, body);
    }
  }

  lemma ReadKeyText(key: string, valueAt: string)
    requires valueAt != "" && !IsSpace(valueAt[0]) && !IsNewLine(valueAt[0])
    ensures ReadKey(Quoted(key) + " : " + valueAt) == Got(Cut(key), valueAt)
    ensures (Quoted(key) + " : " + valueAt)[0] == '"'
  {
    hide Quoted, StringBody, Suffix, SkipSpaces, Cut;
    var s := Quoted(key) + " : " + valueAt;
    var colon := " : " + valueAt;
    ReadQuoted(key, colon);
    assert s == Quoted(key) + colon;
    SkipGap(" ", colon[1..]);
    assert colon == " " + colon[1..];
    SkipGap(" ", valueAt);
    assert colon[1..][1..] == " " + valueAt;
  }

  lemma {:induction false} ReadEntryTexts(entries: seq<Entry>, style: Style, depth: int, tail: string, acc: seq<Entry>,
      post: string)
    requires entries != [] && Writable(Object(entries), style.image)
    requires Stops(tail) && SkipSpaces(tail) == "}" + post
    ensures ReadEntries(EntryTexts(entries, style, depth) + tail, acc)
      == Got(Object(Merge(acc, NormalEntries(entries))), post)
    ensures EntryTexts(entries, style, depth) + tail != "" && (EntryTexts(entries, style, depth) + tail)[0] == '"'
    decreases entries, 1
  {
    hide *;
    var s := EntryTexts(entries, style, depth) + tail;
    var e := entries[0];
    var shown := Text(e.value, style, depth + 1);
    var done := SetEntry(acc, Cut(e.key), Normal(e.value));
    WritableParts(Object(entries), style.image);
    EntryTextsParts(entries, style, depth, tail);
    MergeParts(acc, entries);
    if |entries| == 1 {
      ReadText(e.value, style, depth + 1, tail);
      ValueBegins(shown + tail);
      Begins(shown + tail);
      ReadKeyText(e.key, shown + tail);
      EntriesStep(s, acc, Cut(e.key), shown + tail, Normal(e.value), tail, "}" + post);
      assert ("}" + post)[1..] == post;
    } else {
      var more := EntryTexts(entries[1..], style, depth) + tail;
      var next := Comma(style, depth, more);
      ReadEntryTexts(entries[1..], style, depth, tail, done, post);
      BlankOrNot('"');
      SkipComma(style, depth, more);
      ReadText(e.value, style, depth + 1, next);
      ValueBegins(shown + next);
      Begins(shown + next);
      ReadKeyText(e.key, shown + next);
      EntriesStep(s, acc, Cut(e.key), shown + next, Normal(e.value), next, next);
    }
  }

  // ---------- main results

  // Blank text may stand on both sides of what a printer wrote.
  lemma ParsePrinted(v: Json, style: Style, depth: int, before: string, after: string)
    requires Writable(v, style.image) && Blank(before) && Blank(after)
    ensures Document(before + Text(v, style, depth) + after) == Got(Normal(v), "")
  {
    var s := Text(v, style, depth) + after;
    ReadText(v, style, depth, after);
    ValueBegins(s);
    Begins(s);
    assert before + Text(v, style, depth) + after == before + s;
    SkipGap(before, s);
    assert after + "" == after;
    SkipGap(after, "");
  }

  lemma WritableFits(v: Json, image: real -> string)
    requires Writable(v, image)
    ensures Fits(v)
  {
  }

  // Parsing gives back the very tree that was printed exactly when it is clean.
  lemma RoundTrip(v: Json, style: Style, depth: int, before: string)
    requires Writable(v, style.image) && Blank(before)
    ensures Document(before + Text(v, style, depth)) == Got(v, "") <==> Clean(v)
  {
    ParsePrinted(v, style, depth, before, "");
    assert before + Text(v, style, depth) + "" == before + Text(v, style, depth);
    WritableFits(v, style.image);
    SurvivesIff(v);
  }

  // ---------- a printed text is a C text

  lemma {:induction false} EscapeNulFree(s: string)
    requires '\0' !in s
    ensures '\0' !in Escape(s)
  {
    if s != "" {
      EscapeNulFree(s[1..]);
    }
  }

  lemma QuotedNulFree(s: string)
    ensures '\0' !in Quoted(s)
  {
    EscapeNulFree(Cut(s));
  }

  lemma {:induction false} NatTextNulFree(n: nat)
    ensures '\0' !in NatText(n)
  {
    if n >= 10 {
      NatTextNulFree(n / 10);
    }
  }

  lemma GapsNulFree(style: Style, depth: int)
    ensures '\0' !in style.Open(depth) && '\0' !in style.Next(depth) && '\0' !in style.Close(depth)
      && '\0' !in style.Hollow(depth)
  {
    hide *;
    GapsBlank(style, depth);
    BlankNulFree(style.Open(depth));
    BlankNulFree(style.Next(depth));
    BlankNulFree(style.Close(depth));
    BlankNulFree(style.Hollow(depth));
  }

  lemma BlankNulFree(s: string)
    requires Blank(s)
    ensures '\0' !in s
  {
  }

  lemma {:induction false} TextNulFree(v: Json, style: Style, depth: int)
    requires Writable(v, style.image)
    ensures '\0' !in Text(v, style, depth)
    decreases v, 1
  {
    hide NatText, Quoted, Style.Open, Style.Next, Style.Close, Style.Hollow, ItemTexts, EntryTexts;
    GapsNulFree(style, depth);
    match v
    case Integer(n) => NatTextNulFree(if n < 0 then -n else n);
    case String(t) => QuotedNulFree(t);
    case Array(items) =>
      if items != [] {
        ItemTextsNulFree(items, style, depth);
      }
    case Object(entries) =>
      if entries != [] {
        EntryTextsNulFree(entries, style, depth);
      }
    case _ =>
  }

  lemma {:induction false} ItemTextsNulFree(items: seq<Json>, style: Style, depth: int)
    requires items != [] && Writable(Array(items), style.image)
    ensures '\0' !in ItemTexts(items, style, depth)
    decreases items, 1
  {
    hide Text, Style.Next;
    TextNulFree(items[0], style, depth + 1);
    GapsNulFree(style, depth);
    if |items| > 1 {
      ItemTextsNulFree(items[1..], style, depth);
    }
  }

  lemma {:induction false} EntryTextsNulFree(entries: seq<Entry>, style: Style, depth: int)
    requires entries != [] && Writable(Object(entries), style.image)
    ensures '\0' !in EntryTexts(entries, style, depth)
    decreases entries, 1
  {
    hide Text, Style.Next, Quoted;
    QuotedNulFree(entries[0].key);
    TextNulFree(entries[0].value, style, depth + 1);
    GapsNulFree(style, depth);
    if |entries| > 1 {
      EntryTextsNulFree(entries[1..], style, depth);
    }
  }

  // ---------- whatever the parser accepts is clean

  lemma {:induction false} SuffixNulFree(r: string, s: string)
    requires Suffix(r, s) && '\0' !in s
    ensures '\0' !in r
    decreases |s|
  {
    if r != s {
      SuffixNulFree(r, s[1..]);
    }
  }

  lemma {:induction false} RaiseInRange(i: int, exponent: nat)
    requires MIN64 <= i <= MAX64
    ensures MIN64 <= Raise(i, exponent) <= MAX64
    decreases exponent
  {
    if exponent > 0 {
      RaiseInRange(Wrap(i * 10), exponent - 1);
    }
  }

  lemma NumberClean(s: string)
    requires NumberLiteral(s).Got?
    ensures Clean(NumberLiteral(s).value)
  {
    var o := IntegerLiteral(s);
    var (number, more) := Mantissa(o.value, o.rest);
    if Head(more) == 'e' || Head(more) == 'E' {
      var e := IntegerLiteral(more[1..]).value;
      if number.Integer? && e > 0 {
        RaiseInRange(o.value, e);
      }
    }
  }

  lemma {:induction false} ParsedClean(s: string)
    requires '\0' !in s && ReadValue(s).Got?
    ensures Clean(ReadValue(s).value)
    decreases |s|, 2
  {
    var c := Head(s);
    if IsDigit(c) || c == '-' {
      NumberClean(s);
    } else if c == '[' {
      SuffixNulFree(SkipSpaces(s[1..]), s[1..]);
      if Head(SkipSpaces(s[1..])) != ']' {
        ItemsClean(SkipSpaces(s[1..]), []);
      }
    } else if c == '{' {
      SuffixNulFree(SkipSpaces(s[1..]), s[1..]);
      if Head(SkipSpaces(s[1..])) != '}' {
        EntriesClean(SkipSpaces(s[1..]), []);
      }
    }
  }

  lemma {:induction false} ItemsClean(s: string, acc: seq<Json>)
    requires '\0' !in s && ReadItems(s, acc).Got? && Clean(Array(acc))
    ensures Clean(ReadItems(s, acc).value)
    decreases |s|, 3
  {
    ParsedClean(s);
    var o := ReadValue(s);
    var t := SkipSpaces(o.rest);
    SuffixNulFree(o.rest, s);
    SuffixNulFree(t, o.rest);
    if Head(t) == ',' {
      SuffixNulFree(SkipSpaces(t[1..]), t[1..]);
      ItemsClean(SkipSpaces(t[1..]), acc + [o.value]);
    }
  }

  lemma {:induction false} EntriesClean(s: string, acc: seq<Entry>)
    requires '\0' !in s && ReadEntries(s, acc).Got? && Clean(Object(acc))
    ensures Clean(ReadEntries(s, acc).value)
    decreases |s|, 3
  {
    var k := ReadKey(s);
    SuffixNulFree(k.rest, s);
    ParsedClean(k.rest);
    var o := ReadValue(k.rest);
    var t := SkipSpaces(o.rest);
    SuffixNulFree(o.rest, k.rest);
    SuffixNulFree(t, o.rest);
    SetKeepsClean(acc, k.value, o.value);
    if Head(t) == ',' {
      SuffixNulFree(SkipSpaces(t[1..]), t[1..]);
      EntriesClean(SkipSpaces(t[1..]), SetEntry(acc, k.value, o.value));
    }
  }

  lemma DocumentClean(s: string)
    requires '\0' !in s && Document(s).Got?
    ensures Clean(Document(s).value)
  {
    SuffixNulFree(SkipSpaces(s), s);
    ParsedClean(SkipSpaces(s));
  }

  // Printing a parsed text and parsing it again changes nothing more, whatever the text looked like.
  lemma ReprintedSame(s: string, style: Style, depth: int)
    requires '\0' !in s && Document(s).Got? && Writable(Document(s).value, style.image)
    ensures Document(Text(Document(s).value, style, depth)) == Document(s)
  {
    DocumentClean(s);
    RoundTrip(Document(s).value, style, depth, "");
    assert "" + Text(Document(s).value, style, depth) == Text(Document(s).value, style, depth);
  }
}
