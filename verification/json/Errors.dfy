// Where errors are reported, and the parser seen from outside.
module JsonErrors {
  import opened JsonValues
  import opened JsonTexts
  import opened JsonGrammar
  import opened JsonPrinting
  import opened JsonParsing
  import opened JsonRoundTrip

  // The word passed last lies right before the place where reading stops, on one line.
  ghost predicate InPlace<T>(o: Outcome<T>, s: string)
  {
    o.Fail? ==> Suffix(o.word + o.rest, s) && '\n' !in o.word
  }

  lemma EmptyWord<T>(o: Outcome<T>, s: string)
    requires o.Fail? ==> o.word == "" && Suffix(o.rest, s)
    ensures InPlace(o, s)
  {
    assert o.Fail? ==> o.word + o.rest == o.rest;
  }

  lemma InPlaceLater<T>(o: Outcome<T>, t: string, s: string)
    requires InPlace(o, t) && Suffix(t, s)
    ensures InPlace(o, s)
  {
    if o.Fail? {
      SuffixOfSuffix(o.word + o.rest, t, s);
    }
  }

  lemma {:induction false} BodyWord(s: string)
    ensures StringBody(s).Fail? ==> StringBody(s).word == ""
    decreases |s|
  {
    if s != "" && s[0] == '\\' && |s| > 1 {
      BodyWord(s[2..]);
    } else if s != "" && s[0] != '"' && s[0] != '\n' && s[0] != '\\' {
      BodyWord(s[1..]);
    }
  }

  lemma KeywordPlace(s: string)
    ensures InPlace(Keyword(s), s)
  {
    var word := Word(s);
    assert word + s[|word|..] == s;
    assert '\n' !in word by {
      assert forall i :: 0 <= i < |word| ==> IsWord(word[i]);
    }
  }

  lemma SuffixSelf(s: string)
    ensures Suffix(s, s)
  {
  }

  // Keyword, put together from its word
  lemma KeywordIs(s: string)
    ensures Keyword(s) == KeywordOf(Word(s), s[|Word(s)|..])
  {
    hide Suffix, Word;
  }

  lemma {:induction false} ValuePlace(s: string)
    ensures InPlace(JsonGrammar.ReadValue(s), s)
    decreases |s|, 2
  {
    hide *;
    ValueKind(s);
    SuffixSelf(s);
    var o := JsonGrammar.ReadValue(s);
    if s == "" {
      EmptyWord(o, s);
      return;
    }
    var c := s[0];
    TailSuffix(s);
    ValueChars(c);
    if c == '[' {
      var t := JsonGrammar.SkipSpaces(s[1..]);
      SuffixOfSuffix(t, s[1..], s);
      ArrayParts(s);
      if t != "" && t[0] == ']' {
        EmptyWord(o, s);
      } else {
        ItemsPlace(t, []);
        InPlaceLater(o, t, s);
      }
    } else if c == '{' {
      var t := JsonGrammar.SkipSpaces(s[1..]);
      SuffixOfSuffix(t, s[1..], s);
      ObjectParts(s);
      if t != "" && t[0] == '}' {
        EmptyWord(o, s);
      } else {
        EntriesPlace(t, []);
        InPlaceLater(o, t, s);
      }
    } else if c == '"' || IsDigit(c) || c == '-' {
      BodyWord(s[1..]);
      LiftedParts(StringBody(s[1..]));
      SuffixOfSuffix(StringBody(s[1..]).rest, s[1..], s);
      NumberWord(s);
      EmptyWord(o, s);
    } else if IsAlpha(c) {
      KeywordIs(s);
      KeywordPlace(s);
    } else {
      EmptyWord(o, s);
    }
  }

  lemma TailSuffix(s: string)
    requires s != ""
    ensures Suffix(s[1..], s)
  {
    assert Suffix(s[1..], s[1..]);
  }

  lemma NumberWord(s: string)
    ensures NumberLiteral(s).Fail? ==> NumberLiteral(s).word == ""
  {
  }

  lemma {:induction false} ItemsPlace(s: string, acc: seq<Json>)
    ensures InPlace(JsonGrammar.ReadItems(s, acc), s)
    decreases |s|, 3
  {
    hide *;
    var o := JsonGrammar.ReadValue(s);
    ValuePlace(s);
    ItemParts(s, acc);
    if o.Got? {
      var t := JsonGrammar.SkipSpaces(o.rest);
      SuffixOfSuffix(t, o.rest, s);
      if t != "" && t[0] == ',' {
        var u := JsonGrammar.SkipSpaces(t[1..]);
        SuffixStep(t, s);
        SuffixOfSuffix(u, t[1..], s);
        ItemsPlace(u, acc + [o.value]);
        InPlaceLater(JsonGrammar.ReadItems(s, acc), u, s);
      } else {
        EmptyWord(JsonGrammar.ReadItems(s, acc), s);
      }
    }
  }

  lemma KeyWord(s: string)
    ensures JsonGrammar.ReadKey(s).Fail? ==> JsonGrammar.ReadKey(s).word == ""
  {
    hide StringBody;
    if s != "" {
      BodyWord(s[1..]);
    }
  }

  lemma InPlaceAs<T, U>(o: Outcome<T>, p: Outcome<U>, s: string)
    requires InPlace(o, s)
    requires o.Fail? && p.Fail? && o.rest == p.rest && o.word == p.word
    ensures InPlace(p, s)
  {
  }

  lemma {:induction false} EntriesPlace(s: string, acc: seq<Entry>)
    ensures InPlace(JsonGrammar.ReadEntries(s, acc), s)
    decreases |s|, 3
  {
    hide *;
    var k := JsonGrammar.ReadKey(s);
    var all := JsonGrammar.ReadEntries(s, acc);
    EntryParts(s, acc);
    EntryAtParts(s);
    KeyWord(s);
    if k.Fail? {
      EmptyWord(all, s);
    } else {
      var o := JsonGrammar.ReadValue(k.rest);
      ValuePlace(k.rest);
      InPlaceLater(o, k.rest, s);
      if o.Fail? {
        InPlaceAs(o, all, s);
      } else {
        var t := JsonGrammar.SkipSpaces(o.rest);
        SuffixOfSuffix(o.rest, k.rest, s);
        SuffixOfSuffix(t, o.rest, s);
        if t != "" && t[0] == ',' {
          var u := JsonGrammar.SkipSpaces(t[1..]);
          SuffixStep(t, s);
          SuffixOfSuffix(u, t[1..], s);
          EntriesPlace(u, SetEntry(acc, k.value, o.value));
          InPlaceLater(all, u, s);
        } else {
          EmptyWord(all, s);
        }
      }
    }
  }

  lemma DocumentPlace(s: string)
    ensures InPlace(Document(s), s)
  {
    hide *;
    var t := JsonGrammar.SkipSpaces(s);
    var o := JsonGrammar.ReadValue(t);
    DocumentParts(s);
    ValuePlace(t);
    InPlaceLater(o, t, s);
    if o.Got? {
      SuffixOfSuffix(o.rest, t, s);
      SuffixOfSuffix(JsonGrammar.SkipSpaces(o.rest), o.rest, s);
      EmptyWord(Document(s), s);
    }
  }

  // going back over a word on one line
  lemma {:induction false} ColumnBack(s: string, word: string)
    requires '\n' !in word
    ensures Row(s + word) == Row(s) && Column(s + word) == Column(s) + |word|
  {
    if word == "" {
      assert s + word == s;
    } else {
      var last := word[|word| - 1];
      var init := word[..|word| - 1];
      assert s + word == s + init + [last];
      ColumnBack(s, init);
      PositionStep(s + init, last);
    }
  }

  // How many characters of a text stand before the place its error is about.
  ghost function ErrorPlace(s: string): (k: nat)
    requires Document(s).Fail?
    ensures k <= |s| && s[k..] == Document(s).word + Document(s).rest
  {
    DocumentPlace(s);
    SuffixIs(Document(s).word + Document(s).rest, s);
    |s| - |Document(s).word + Document(s).rest|
  }

  // Parsing the text before the first NUL of a memory gives its document, or an error at the exact row and column.
  method ParseText(source: string) returns (r: Reply<Json>)
    requires '\0' in source
    ensures r.Ok? <==> Document(Cut(source)).Got?
    ensures r.Ok? ==> r.value == Document(Cut(source)).value && Clean(r.value)
    ensures r.Error? ==>
              var text := Cut(source);
              var k := ErrorPlace(text);
              r == Error(Row(text[..k]), Column(text[..k]), Document(text).what)
  {
    hide *;
    var parser := new JsonParser(source);
    ghost var text := parser.Rest();
    r := parser.Parse();
    ghost var o := Document(text);
    parser.AgreesParts(r, o);
    if o.Got? {
      DocumentClean(text);
    } else {
      parser.Opened();
      ErrorExact(source, parser.length, parser.cur, parser.row, parser.column);
    }
  }

  lemma ErrorExact(source: string, length: nat, cur: nat, row: int, column: int)
    requires Placed(source, length, cur, row, column) && Document(Cut(source)).Fail?
    requires source[cur..length] == Document(Cut(source)).rest
    ensures var text := Cut(source);
      var k := ErrorPlace(text);
      row == Row(text[..k]) && column - |Document(text).word| == Column(text[..k])
  {
    hide *;
    var text := Cut(source);
    var o := Document(text);
    var k := ErrorPlace(text);
    PlacedParts(source, length, cur, row, column);
    DocumentPlace(text);
    WordLine(o, text);
    PlaceSplit(source, text, length, cur, k, o.word, o.rest);
    ColumnBack(text[..k], o.word);
  }

  lemma PlacedParts(source: string, length: nat, cur: nat, row: int, column: int)
    requires Placed(source, length, cur, row, column)
    ensures cur <= length <= |source| && Cut(source) == source[..length]
    ensures row == Row(source[..cur]) && column == Column(source[..cur])
  {
  }

  lemma WordLine<T>(o: Outcome<T>, s: string)
    requires InPlace(o, s) && o.Fail?
    ensures '\n' !in o.word
  {
  }

  lemma PlaceSplit(source: string, text: string, length: nat, cur: nat, k: nat, word: string, rest: string)
    requires cur <= length <= |source| && text == source[..length] && source[cur..length] == rest
    requires k <= |text| && text[k..] == word + rest
    ensures source[..cur] == text[..k] + word
  {
    assert k + |word| == cur;
    assert source[..cur] == text[..cur];
    assert text[k..][..|word|] == word;
    assert text[..cur] == text[..k] + text[k..cur];
    assert text[k..cur] == text[k..][..|word|];
  }

  // Printing to a stream and parsing what was printed gives the value back, exactly when it is clean.
  method PrintAndParse(v: Json, image: real -> string, indented: bool, indent: int, indentFirst: bool)
      returns (r: Reply<Json>)
    requires Writable(v, image)
    ensures r == Ok(Normal(v))
    ensures r == Ok(v) <==> Clean(v)
  {
    hide *;
    var stream := new Stream();
    var style := Style(indented, image);
    ghost var before := "";
    if indented {
      Print(v, stream, style, indent, indentFirst);
      before := if indentFirst then Indent(indent) else "";
    } else {
      PrintPlain(v, stream, style, indent);
    }
    var source := stream.text + ['\0'];
    PrintedSource(v, style, indent, before, source);
    r := ParseText(source);
  }

  lemma PrintedSource(v: Json, style: Style, indent: int, before: string, source: string)
    requires Writable(v, style.image) && (before == "" || before == Indent(indent))
    requires source == before + Text(v, style, indent) + ['\0']
      || source == "" + before + Text(v, style, indent) + ['\0']
    ensures '\0' in source && Document(Cut(source)) == Got(Normal(v), "")
    ensures Normal(v) == v <==> Clean(v)
  {
    hide *;
    var text := before + Text(v, style, indent);
    IndentBlank(indent);
    BlankNothing("");
    BlankNulFree(before);
    TextNulFree(v, style, indent);
    assert source == text + ['\0'];
    assert source[|text|] == '\0';
    assert source[..|text|] == text;
    CutPrefix(source, |text|);
    ParsePrinted(v, style, indent, before, "");
    assert text + "" == text;
    WritableFits(v, style.image);
    SurvivesIff(v);
  }

  lemma BlankNothing(s: string)
    requires s == ""
    ensures Blank(s)
  {
  }
}
