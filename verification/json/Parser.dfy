// The parser as it runs: a cursor over NUL-terminated text, with the row and the column it stands at.
module JsonParsing {
  import opened JsonValues
  import opened JsonGrammar
  import opened JsonObjects

  // the newlines of a text
  ghost function Row(s: string): (r: nat)
    ensures r == multiset(s)['\n']
  {
    if s == "" then 0
    else
      var init, last := s[..|s| - 1], s[|s| - 1];
      assert s == init + [last];
      Row(init) + if last == '\n' then 1 else 0
  }

  // the distance from its last newline, or from its start
  ghost function Column(s: string): nat
  {
    if s == "" || s[|s| - 1] == '\n' then 0 else 1 + Column(s[..|s| - 1])
  }

  lemma {:induction false} ColumnIs(s: string)
    ensures var k := |s| - Column(s);
      0 <= k <= |s| && '\n' !in s[k..] && (k > 0 ==> s[k - 1] == '\n')
  {
    if s != "" && s[|s| - 1] != '\n' {
      var init := s[..|s| - 1];
      ColumnIs(init);
      assert s[|init| - Column(init)..] == init[|init| - Column(init)..] + [s[|s| - 1]];
    }
  }

  lemma PositionStep(s: string, c: char)
    ensures Row(s + [c]) == if c == '\n' then Row(s) + 1 else Row(s)
    ensures Column(s + [c]) == if c == '\n' then 0 else Column(s) + 1
  {
    assert (s + [c])[..|s|] == s;
  }

  datatype Reply<T> = Ok(value: T) | Error(row: int, column: int, what: string)

  // The cursor stands in the text before the NUL or at the NUL, at the row and column of what it has passed.
  ghost predicate Placed(source: string, length: nat, cur: nat, row: int, column: int)
  {
    && cur <= length < |source|
    && source[..length] == Cut(source)
    && row == Row(source[..cur])
    && column == Column(source[..cur])
  }

  lemma PlacedAt(source: string, length: nat, cur: nat, row: int, column: int)
    requires Placed(source, length, cur, row, column)
    ensures cur <= length < |source| && source[length] == '\0'
    ensures cur < length ==>
      source[cur] != '\0' && source[cur..length][0] == source[cur]
      && source[cur..length][1..] == source[cur + 1..length]
  {
    hide Row, Column;
    assert cur < length ==> source[cur] == source[..length][cur];
  }

  lemma PlacedStep(source: string, length: nat, cur: nat, row: int, column: int)
    requires Placed(source, length, cur, row, column) && cur < length
    ensures if source[cur]
      == '\n' then Placed(source, length, cur + 1, row + 1, 0) else Placed(source, length, cur + 1, row, column + 1)
  {
    hide Row, Column, Cut;
    assert source[..cur + 1] == source[..cur] + [source[cur]];
    PositionStep(source[..cur], source[cur]);
  }

  lemma PlacedFirst(source: string)
    requires '\0' in source
    ensures Placed(source, |Cut(source)|, 0, 0, 0)
  {
    assert source[..0] == "";
  }

  class JsonParser {
    const source: string
    ghost const length: nat
    var cur: nat
    var row: int
    var column: int

    constructor (source: string)
      requires '\0' in source
      ensures Valid() && Rest() == Cut(source) && this.source == source
    {
      this.source := source;
      length := |Cut(source)|;
      cur, row, column := 0, 0, 0;
      PlacedFirst(source);
    }

    ghost predicate Valid()
      reads this
    {
      Placed(source, length, cur, row, column)
    }

    lemma Opened()
      requires Valid()
      ensures Placed(source, length, cur, row, column)
    {
    }

    lemma Closed()
      requires Placed(source, length, cur, row, column)
      ensures Valid()
    {
    }

    // the text still to be read
    ghost function Rest(): (r: string)
      requires Valid()
      reads this
      ensures cur <= length < |source| && r == source[cur..length] && |r| == length - cur
    {
      source[cur..length]
    }

    // *cur_, which is the terminating NUL when nothing is left
    function Peek(): (c: char)
      requires Valid()
      reads this
      ensures cur < |source| && c == source[cur]
      ensures Rest() != "" ==> c == Rest()[0] && c != '\0'
      ensures Rest() == "" ==> c == '\0'
    {
      PlacedAt(source, length, cur, row, column);
      source[cur]
    }

    method Advance()
      requires Valid() && Peek() != '\0' && Peek() != '\n'
      modifies this
      ensures Valid() && Rest() == old(Rest())[1..] && cur == old(cur) + 1
    {
      hide *;
      Opened();
      PlacedAt(source, length, cur, row, column);
      PlacedStep(source, length, cur, row, column);
      cur := cur + 1;
      column := column + 1;
      Closed();
    }

    method AdvanceNewLine()
      requires Valid() && Peek() == '\n'
      modifies this
      ensures Valid() && Rest() == old(Rest())[1..] && cur == old(cur) + 1
    {
      hide *;
      Opened();
      PlacedAt(source, length, cur, row, column);
      PlacedStep(source, length, cur, row, column);
      cur := cur + 1;
      row := row + 1;
      column := 0;
      Closed();
    }

    // A reply says what the outcome says, and an error tells the row and column of the place reached.
    ghost predicate Agrees<T>(r: Reply<T>, o: Outcome<T>)
      requires Valid()
      reads this
    {
      match o
      case Got(v, rest) => r == Ok(v) && Rest() == rest
      case Fail(rest, word, what) => r == Error(row, column - |word|, what) && Rest() == rest
    }

    lemma AgreesOk<T>(v: T)
      requires Valid()
      ensures Agrees(Ok(v), Got(v, Rest()))
    {
    }

    lemma AgreesError<T>(word: string, what: string)
      requires Valid()
      ensures Agrees<T>(Error(row, column - |word|, what), Fail(Rest(), word, what))
    {
    }

    method RaiseError<T>(what: string) returns (r: Reply<T>)
      requires Valid()
      ensures Agrees(r, Fail(Rest(), "", what))
    {
      r := Error(row, column, what);
    }

    method SkipSpaces()
      requires Valid()
      modifies this
      ensures Valid() && Rest() == JsonGrammar.SkipSpaces(old(Rest()))
    {
      hide *;
      while true
        invariant Valid() && JsonGrammar.SkipSpaces(Rest()) == JsonGrammar.SkipSpaces(old(Rest()))
        decreases length - cur
      {
        SkipStep(Rest());
        BlankChars(Peek());
        if IsSpace(Peek()) {
          Advance();
        } else if IsNewLine(Peek()) {
          AdvanceNewLine();
        } else {
          return;
        }
      }
    }

    method ParseIdentifier() returns (s: string)
      requires Valid() && IsAlpha(Peek())
      modifies this
      ensures Valid() && s == Word(old(Rest())) && Rest() == old(Rest())[|s|..]
    {
      hide *;
      var begin := cur;
      ghost var start := Rest();
      WordChars(Peek());
      Advance();
      while IsAlpha(Peek()) || IsDigit(Peek())
        invariant Valid() && begin <= cur <= length
        invariant forall i :: begin <= i < cur ==> IsWord(source[i])
        decreases length - cur
      {
        WordChars(Peek());
        Advance();
      }
      WordChars(Peek());
      s := source[begin..cur];
      WordEnds(source, begin, cur, length);
    }

    method ParseIntegerLiteral() returns (r: Reply<int>)
      requires Valid()
      modifies this
      ensures Valid() && Agrees(r, IntegerLiteral(old(Rest())))
    {
      hide *;
      LiteralParts(Rest());
      WrapTwice(0);
      var i := 0;
      var neg := false;
      if Peek() == '-' {
        neg := true;
        Advance();
        DigitChars(Peek());
        if !IsDigit(Peek()) {
          r := RaiseError("Decimal digit expected");
          return;
        }
      }
      ghost var digits := Rest();
      while IsDigit(Peek())
        invariant Valid() && Digits(Rest(), i) == Digits(digits, 0)
        invariant Wrap(i) == i
        decreases length - cur
      {
        DigitChars(Peek());
        DigitsStep(Rest(), i);
        WrapTwice(Wrap(i * 10) + DigitValue(Peek()));
        i := Wrap(i * 10);
        i := Wrap(i + DigitValue(Peek()));
        Advance();
      }
      DigitsStep(Rest(), i);
      DigitChars(Peek());
      if neg {
        i := Wrap(-i);
      }
      r := Ok(i);
      AgreesOk(i);
    }

    // the digits after the point, with f the number before it
    method ParseFraction(i: int) returns (f: real)
      requires Valid()
      modifies this
      ensures Valid() && Fraction(old(Rest()), i as real, 1.0, i < 0) == (f, Rest())
    {
      hide *;
      f := i as real;
      var d := 1.0;
      if i >= 0 {
        while IsDigit(Peek())
          invariant Valid() && Fraction(Rest(), f, d, false) == Fraction(old(Rest()), i as real, 1.0, false)
          decreases length - cur
        {
          DigitChars(Peek());
          FractionStep(Rest(), f, d, false);
          d := d / 10.0;
          f := f + Portion(Peek(), d);
          Advance();
        }
      } else {
        while IsDigit(Peek())
          invariant Valid() && Fraction(Rest(), f, d, true) == Fraction(old(Rest()), i as real, 1.0, true)
          decreases length - cur
        {
          DigitChars(Peek());
          FractionStep(Rest(), f, d, true);
          d := d / 10.0;
          f := f - Portion(Peek(), d);
          Advance();
        }
      }
      DigitChars(Peek());
      FractionStep(Rest(), f, d, i < 0);
    }

    // A failing literal is reported where it stops; otherwise integer tells which of i and f was read.
    method ParseNumberLiteral() returns (integer: Reply<bool>, i: int, f: real)
      requires Valid()
      modifies this
      ensures Valid()
      ensures match NumberLiteral(old(Rest()))
              case Got(number, rest) => integer.Ok? && Rest() == rest
                  && number == if integer.value then Integer(i) else Float(f)
              case Fail(rest, word, what) => integer == Error(row, column - |word|, what) && Rest() == rest
    {
      hide *;
      NumberParts(Rest());
      integer, i, f := Ok(true), 0, 0.0;
      var literal := ParseIntegerLiteral();
      AgreesParts(literal, IntegerLiteral(old(Rest())));
      if literal.Error? {
        integer := Error(literal.row, literal.column, literal.what);
        return;
      }
      i := literal.value;
      MantissaParts(i, Rest());
      if Peek() == '.' {
        Advance();
        integer := Ok(false);
        f := ParseFraction(i);
      }
      ghost var number := if integer.value then Integer(i) else Float(f);
      assert (number, Rest()) == Mantissa(i, IntegerLiteral(old(Rest())).rest);
      if Peek() == 'e' || Peek() == 'E' {
        Advance();
        ghost var digits := Rest();
        var exponent := ParseIntegerLiteral();
        AgreesParts(exponent, IntegerLiteral(digits));
        ShiftedParts(number, IntegerLiteral(digits));
        if exponent.Error? {
          integer := Error(exponent.row, exponent.column, exponent.what);
          return;
        }
        var whole;
        whole, i, f := Shift(integer.value, i, f, exponent.value);
        integer := Ok(whole);
      }
    }

    // the number moved by its exponent
    static method Shift(integer: bool, i0: int, f0: real, exponent0: int) returns (whole: bool, i: int, f: real)
      ensures (if whole then Integer(i) else Float(f))
        == Exponent(if integer then Integer(i0) else Float(f0), exponent0)
    {
      hide Raise, Scale;
      whole, i, f := integer, i0, f0;
      var exponent := exponent0;
      if integer && exponent > 0 {
        while exponent > 0
          invariant exponent >= 0 && Raise(i, exponent) == Raise(i0, exponent0)
        {
          RaiseStep(i, exponent);
          exponent := exponent - 1;
          i := Wrap(i * 10);
        }
        RaiseStep(i, 0);
      } else {
        if integer {
          whole := false;
          f := i as real;
        }
        ghost var start := f;
        if exponent > 0 {
          while exponent > 0
            invariant exponent >= 0 && Scale(f, exponent) == Scale(start, exponent0)
          {
            ScaleStep(f, exponent);
            exponent := exponent - 1;
            f := f * 10.0;
          }
        } else {
          while exponent < 0
            invariant exponent <= 0 && Scale(f, exponent) == Scale(start, exponent0)
          {
            ScaleStep(f, exponent);
            exponent := exponent + 1;
            f := f / 10.0;
          }
        }
        ScaleStep(f, 0);
      }
    }

    lemma AgreesParts<T>(r: Reply<T>, o: Outcome<T>)
      requires Valid() && Agrees(r, o)
      ensures o.Got? <==> r.Ok?
      ensures o.Got? ==> r.value == o.value && Rest() == o.rest
      ensures o.Fail? ==> Rest() == o.rest && r == Error(row, column - |o.word|, o.what)
    {
    }

    // what the character after a backslash stands for
    method ParseEscape() returns (r: Reply<char>)
      requires Valid()
      modifies this
      ensures Valid() && Agrees(r, EscapeAt(old(Rest()))) && (r.Ok? ==> cur == old(cur) + 1)
    {
      hide *;
      EscapeAtParts(Rest());
      var e := Peek();
      UnescapeChars(e);
      if e == '\0' {
        r := RaiseError("Unexpected end of file in double quoted string");
        return;
      }
      match Unescape(e)
      case Stands(c) =>
        Advance();
        r := Ok(c);
        AgreesOk(c);
      case NoEscape =>
        r := RaiseError("Unknown escape sequence: \\" + [e]);
    }

    // the opening quotation mark is at the cursor
    method ParseStringLiteral() returns (r: Reply<string>)
      requires Valid() && Peek() == '"'
      modifies this
      ensures Valid() && Agrees(r, StringBody(old(Rest())[1..]))
    {
      hide *;
      Advance();
      ghost var body := Rest();
      var begin: nat := cur;
      var s := "";
      PendingNone(source, cur, body);
      while true
        invariant Valid() && begin <= cur <= length
        invariant Pending(s, source, begin, cur, Rest(), body)
        decreases length - cur
      {
        ghost var rest := Rest();
        var c := Peek();
        if c == '\0' {
          PendingStops(s, source, begin, cur, rest, body);
          r := RaiseError("Unexpected end of file in double quoted string");
          return;
        } else if c == '\n' {
          PendingStops(s, source, begin, cur, rest, body);
          r := RaiseError("Multiline string literal");
          return;
        } else if c == '"' {
          PendingStops(s, source, begin, cur, rest, body);
          if begin < cur { s := s + source[begin..cur]; }
          Advance();
          r := Ok(s);
          AgreesOk(s);
          return;
        } else if c == '\\' {
          PendingEscape(s, source, begin, cur, rest, body);
          if begin < cur { s := s + source[begin..cur]; }
          Advance();
          ghost var escape := Rest();
          var e := ParseEscape();
          AgreesParts(e, EscapeAt(escape));
          if e.Error? {
            r := Error(e.row, e.column, e.what);
            AgreesError<string>("", e.what);
            return;
          }
          s := s + [e.value];
          begin := cur;
        } else {
          PendingMore(s, source, begin, cur, rest, body);
          Advance();
        }
      }
    }

    method ReadNumber() returns (r: Reply<Json>)
      requires Valid()
      modifies this
      ensures Valid() && Agrees(r, NumberLiteral(old(Rest())))
    {
      hide *;
      var integer, i, f := ParseNumberLiteral();
      match integer
      case Ok(whole) =>
        r := Ok(if whole then Integer(i) else Float(f));
        AgreesOk(r.value);
      case Error(_, _, what) =>
        r := Error(integer.row, integer.column, what);
        AgreesError<Json>(NumberLiteral(old(Rest())).word, what);
    }

    method ReadString() returns (r: Reply<Json>)
      requires Valid() && Peek() == '"'
      modifies this
      ensures Valid() && Agrees(r, Lifted(StringBody(old(Rest())[1..])))
    {
      hide *;
      ghost var o := StringBody(Rest()[1..]);
      var text := ParseStringLiteral();
      AgreesParts(text, o);
      LiftedParts(o);
      match text
      case Ok(t) =>
        r := Ok(String(t));
        AgreesOk(r.value);
      case Error(_, _, what) =>
        r := Error(text.row, text.column, what);
        AgreesError<Json>(o.word, what);
    }

    method ReadValue() returns (r: Reply<Json>)
      requires Valid()
      modifies this
      ensures Valid() && Agrees(r, JsonGrammar.ReadValue(old(Rest())))
      decreases length - cur, 2
    {
      hide *;
      var c := Peek();
      ValueKind(Rest());
      ValueChars(c);
      if c == '"' {
        r := ReadString();
      } else if IsDigit(c) || c == '-' {
        r := ReadNumber();
      } else if IsAlpha(c) {
        var keyword := ParseIdentifier();
        if keyword == "null" {
          r := Ok(Null);
          AgreesOk(Null);
        } else if keyword == "true" {
          r := Ok(Boolean(true));
          AgreesOk(Boolean(true));
        } else if keyword == "false" {
          r := Ok(Boolean(false));
          AgreesOk(Boolean(false));
        } else {
          r := Error(row, column - |keyword|, "Invalid bareword \"" + keyword + "\", while value expected");
          AgreesError<Json>(keyword, r.what);
        }
      } else if c == '[' {
        r := ReadArray();
      } else if c == '{' {
        r := ReadObject();
      } else {
        r := RaiseError("Invalid symbol, while value expected");
      }
    }

    method ReadArray() returns (r: Reply<Json>)
      requires Valid() && Peek() == '['
      modifies this
      ensures Valid() && Agrees(r, JsonGrammar.ReadArray(old(Rest())))
      decreases length - cur, 1
    {
      hide *;
      ArrayParts(Rest());
      Advance();
      SkipSpaces();
      ghost var first := Rest();
      if Peek() == ']' {
        Advance();
        r := Ok(Array([]));
        AgreesOk(Array([]));
        return;
      }
      var items: seq<Json> := [];
      while true
        invariant Valid() && old(cur) < cur
        invariant JsonGrammar.ReadItems(Rest(), items) == JsonGrammar.ReadItems(first, [])
        decreases length - cur
      {
        ghost var at := Rest();
        var item := ReadValue();
        AgreesParts(item, JsonGrammar.ReadValue(at));
        ItemParts(at, items);
        if item.Error? {
          r := item;
          return;
        }
        items := items + [item.value];
        ghost var rest := Rest();
        SeparatorParts(rest, ']', "Comma or end of array expected");
        var more := Separator(']', "Comma or end of array expected");
        AgreesParts(more, SeparatorAt(rest, ']', "Comma or end of array expected"));
        if more.Error? {
          r := Error(more.row, more.column, more.what);
          AgreesError<Json>(SeparatorAt(rest, ']', "Comma or end of array expected").word, more.what);
          return;
        }
        if !more.value {
          r := Ok(Array(items));
          AgreesOk(Array(items));
          return;
        }
      }
    }

    // the key and the colon after it
    method ReadKey() returns (r: Reply<string>)
      requires Valid()
      modifies this
      ensures Valid() && Agrees(r, JsonGrammar.ReadKey(old(Rest())))
    {
      hide *;
      KeyParts(Rest());
      if Peek() != '"' {
        r := RaiseError("Unexpected symbol, while waiting key of object");
        return;
      }
      ghost var o := StringBody(Rest()[1..]);
      r := ParseStringLiteral();
      AgreesParts(r, o);
      if r.Error? {
        return;
      }
      SkipSpaces();
      if Peek() != ':' {
        r := RaiseError("Colon expected");
        return;
      }
      Advance();
      SkipSpaces();
      AgreesOk(r.value);
    }

    // a comma, after which more is to be read, or the closing bracket
    method Separator(close: char, what: string) returns (more: Reply<bool>)
      requires Valid() && (close == ']' || close == '}')
      modifies this
      ensures Valid() && Agrees(more, SeparatorAt(old(Rest()), close, what))
    {
      hide *;
      SeparatorParts(Rest(), close, what);
      SkipSpaces();
      if Peek() == ',' {
        Advance();
        SkipSpaces();
        more := Ok(true);
        AgreesOk(true);
      } else if Peek() == close {
        Advance();
        more := Ok(false);
        AgreesOk(false);
      } else {
        more := RaiseError(what);
      }
    }

    // a key and its value
    method ReadEntry() returns (r: Reply<Entry>)
      requires Valid()
      modifies this
      ensures Valid() && Agrees(r, EntryAt(old(Rest())))
      decreases length - cur, 0
    {
      hide *;
      ghost var s := Rest();
      EntryAtParts(s);
      var key := ReadKey();
      AgreesParts(key, JsonGrammar.ReadKey(s));
      if key.Error? {
        r := Error(key.row, key.column, key.what);
        AgreesError<Entry>(JsonGrammar.ReadKey(s).word, key.what);
        return;
      }
      ghost var valueAt := Rest();
      var value := ReadValue();
      AgreesParts(value, JsonGrammar.ReadValue(valueAt));
      if value.Error? {
        r := Error(value.row, value.column, value.what);
        AgreesError<Entry>(JsonGrammar.ReadValue(valueAt).word, value.what);
        return;
      }
      r := Ok(Entry(key.value, value.value));
      AgreesOk(r.value);
    }

    // one turn of the loop over the members of an object
    method ReadMember(members: JsonObjectValue) returns (more: Reply<bool>)
      requires Valid() && members.Valid()
      modifies this, members, members.cells
      ensures Valid() && members.Valid() && fresh(members.cells - old(members.cells))
      ensures match MemberAt(old(Rest()))
              case Got(m, rest) =>
                && more == Ok(m.more) && Rest() == rest
                && members.Entries() == SetEntry(old(members.Entries()), m.entry.key, m.entry.value)
              case Fail(rest, word, what) =>
                more == Error(row, column - |word|, what) && Rest() == rest
      decreases length - cur, 1
    {
      hide *;
      MemberParts(Rest());
      ghost var o := EntryAt(Rest());
      var e := ReadEntry();
      AgreesParts(e, o);
      if e.Error? {
        more := Error(e.row, e.column, e.what);
        return;
      }
      var cell := members.Set(e.value.key, e.value.value);
      more := Separator('}', "Comma or end of object expected");
      AgreesParts(more, SeparatorAt(o.rest, '}', "Comma or end of object expected"));
    }

    method ReadObject() returns (r: Reply<Json>)
      requires Valid() && Peek() == '{'
      modifies this
      ensures Valid() && Agrees(r, JsonGrammar.ReadObject(old(Rest())))
      decreases length - cur, 1
    {
      hide *;
      ObjectParts(Rest());
      var members := new JsonObjectValue();
      Advance();
      SkipSpaces();
      ghost var first := Rest();
      if Peek() == '}' {
        Advance();
        r := Ok(Object([]));
        AgreesOk(Object([]));
        return;
      }
      while true
        invariant Valid() && old(cur) < cur
        invariant members.Valid() && fresh(members) && fresh(members.cells)
        invariant JsonGrammar.ReadEntries(Rest(), members.Entries()) == JsonGrammar.ReadEntries(first, [])
        decreases length - cur
      {
        ghost var at := Rest();
        EntriesStep(at, members.Entries());
        var more := ReadMember(members);
        if more.Error? {
          r := Error(more.row, more.column, more.what);
          AgreesError<Json>(MemberAt(at).word, more.what);
          return;
        }
        if !more.value {
          var list := members.Contents();
          r := Ok(Object(list));
          AgreesOk(Object(list));
          return;
        }
      }
    }

    // the whole text
    method Parse() returns (r: Reply<Json>)
      requires Valid()
      modifies this
      ensures Valid() && Agrees(r, Document(old(Rest())))
    {
      hide *;
      DocumentParts(Rest());
      SkipSpaces();
      ghost var at := Rest();
      r := ReadValue();
      AgreesParts(r, JsonGrammar.ReadValue(at));
      if r.Error? {
        return;
      }
      SkipSpaces();
      if Peek() != '\0' {
        r := RaiseError("Unexpected symbol(s) at the end of file");
      } else {
        AgreesOk(r.value);
      }
    }
  }

  // ---------- one step of each loop

  function Lifted(o: Outcome<string>): Outcome<Json>
  {
    match o
    case Got(t, rest) => Got(String(t), rest)
    case Fail(rest, word, what) => Fail(rest, word, what)
  }

  lemma LiftedParts(o: Outcome<string>)
    ensures o.Got? ==> Lifted(o) == Got(String(o.value), o.rest)
    ensures o.Fail? ==> Lifted(o) == Fail(o.rest, o.word, o.what)
  {
  }

  lemma ValueKind(s: string)
    ensures JsonGrammar.ReadValue(s)
                     == if s == "" then Fail(s, "", "Invalid symbol, while value expected")
                        else if s[0] == '"' then Lifted(StringBody(s[1..]))
                        else if IsDigit(s[0]) || s[0] == '-' then NumberLiteral(s)
                        else if IsAlpha(s[0]) then KeywordOf(Word(s), s[|Word(s)|..])
                        else if s[0] == '[' then JsonGrammar.ReadArray(s)
                        else if s[0] == '{' then JsonGrammar.ReadObject(s)
                        else Fail(s, "", "Invalid symbol, while value expected")
    ensures forall word: string, rest: string :: KeywordOf(word, rest) == if word == "null" then Got(Null, rest)
                          else if word == "true" then Got(Boolean(true), rest)
                          else if word == "false" then Got(Boolean(false), rest)
                          else Fail(rest, word, "Invalid bareword \"" + word + "\", while value expected")
  {
    hide Suffix, StringBody, NumberLiteral, JsonGrammar.ReadArray, JsonGrammar.ReadObject, Word;
  }

  lemma ValueChars(c: char)
    ensures c == '"' || c == '[' || c == '{' ==> c != '\0' && !IsDigit(c) && !IsAlpha(c)
    ensures IsDigit(c) || IsAlpha(c) ==> c != '\0'
  {
  }

  function KeywordOf(word: string, rest: string): Outcome<Json>
  {
    if word == "null" then Got(Null, rest)
    else if word == "true" then Got(Boolean(true), rest)
    else if word == "false" then Got(Boolean(false), rest)
    else Fail(rest, word, "Invalid bareword \"" + word + "\", while value expected")
  }

  lemma ArrayParts(s: string)
    requires s != ""
    ensures var t := JsonGrammar.SkipSpaces(s[1..]);
      JsonGrammar.ReadArray(s) == if t != ""
          && t[0] == ']' then Got(Array([]), t[1..]) else JsonGrammar.ReadItems(t, [])
  {
    hide Suffix, JsonGrammar.SkipSpaces, JsonGrammar.ReadItems;
  }

  lemma ObjectParts(s: string)
    requires s != ""
    ensures var t := JsonGrammar.SkipSpaces(s[1..]);
      JsonGrammar.ReadObject(s) == if t != ""
          && t[0] == '}' then Got(Object([]), t[1..]) else JsonGrammar.ReadEntries(t, [])
  {
    hide Suffix, JsonGrammar.SkipSpaces, JsonGrammar.ReadEntries;
  }

  lemma ItemParts(s: string, acc: seq<Json>)
    ensures var o := JsonGrammar.ReadValue(s);
      o.Fail? ==> JsonGrammar.ReadItems(s, acc) == o
    ensures var o := JsonGrammar.ReadValue(s);
      o.Got? ==>
        var t := JsonGrammar.SkipSpaces(o.rest);
        JsonGrammar.ReadItems(s, acc)
        == if t != "" && t[0] == ',' then JsonGrammar.ReadItems(JsonGrammar.SkipSpaces(t[1..]), acc + [o.value])
           else if t != "" && t[0] == ']' then Got(Array(acc + [o.value]), t[1..])
           else Fail(t, "", "Comma or end of array expected")
  {
    hide Suffix, JsonGrammar.SkipSpaces, JsonGrammar.ReadValue;
  }

  lemma KeyParts(s: string)
    ensures s == "" || s[0] != '"' ==>
      JsonGrammar.ReadKey(s) == Fail(s, "", "Unexpected symbol, while waiting key of object")
    ensures s != "" && s[0] == '"' ==> JsonGrammar.ReadKey(s) == KeyAfter(StringBody(s[1..]))
    ensures forall o: Outcome<string> :: o.Fail? ==> KeyAfter(o) == o
    ensures forall o: Outcome<string> :: o.Got? ==> KeyAfter(o) == ColonAfter(o.value, JsonGrammar.SkipSpaces(o.rest))
    ensures forall key, t :: t == "" || t[0] != ':' ==> ColonAfter(key, t) == Fail(t, "", "Colon expected")
    ensures forall key, t :: t != "" && t[0] == ':' ==> ColonAfter(key, t) == Got(key, JsonGrammar.SkipSpaces(t[1..]))
  {
    hide Suffix, JsonGrammar.SkipSpaces, StringBody;
  }

  function KeyAfter(o: Outcome<string>): Outcome<string>
  {
    if o.Fail? then o else ColonAfter(o.value, JsonGrammar.SkipSpaces(o.rest))
  }

  function ColonAfter(key: string, t: string): Outcome<string>
  {
    if Head(t) != ':' then Fail(t, "", "Colon expected") else Got(key, JsonGrammar.SkipSpaces(t[1..]))
  }

  function EntryAt(s: string): (r: Outcome<Entry>)
    ensures r.Got? ==> |r.rest| < |s|
  {
    match JsonGrammar.ReadKey(s)
    case Fail(rest, word, what) => Fail(rest, word, what)
    case Got(key, valueAt) =>
      match JsonGrammar.ReadValue(valueAt)
      case Fail(rest, word, what) => Fail(rest, word, what)
      case Got(v, rest) => Got(Entry(key, v), rest)
  }

  lemma EntryAtParts(s: string)
    ensures var k := JsonGrammar.ReadKey(s);
      && (k.Fail? ==> EntryAt(s) == Fail(k.rest, k.word, k.what))
      && (k.Got? ==>
            var o := JsonGrammar.ReadValue(k.rest);
            EntryAt(s) == if o.Fail? then Fail(o.rest, o.word, o.what) else Got(Entry(k.value, o.value), o.rest))
  {
    hide JsonGrammar.ReadValue, JsonGrammar.ReadKey;
  }

  lemma EntryParts(s: string, acc: seq<Entry>)
    ensures var e := EntryAt(s);
      && (e.Fail? ==> JsonGrammar.ReadEntries(s, acc) == Fail(e.rest, e.word, e.what))
      && (e.Got? ==>
            var t := JsonGrammar.SkipSpaces(e.rest);
            var done := SetEntry(acc, e.value.key, e.value.value);
            JsonGrammar.ReadEntries(s, acc)
            == if t != "" && t[0] == ',' then JsonGrammar.ReadEntries(JsonGrammar.SkipSpaces(t[1..]), done)
               else if t != "" && t[0] == '}' then Got(Object(done), t[1..])
               else Fail(t, "", "Comma or end of object expected"))
  {
    hide Suffix, JsonGrammar.SkipSpaces, JsonGrammar.ReadValue, JsonGrammar.ReadKey, SetEntry;
  }

  function SeparatorAt(s: string, close: char, what: string): (r: Outcome<bool>)
    ensures r.Got? ==> |r.rest| <= |s|
  {
    var t := JsonGrammar.SkipSpaces(s);
    if t != "" && t[0] == ',' then Got(true, JsonGrammar.SkipSpaces(t[1..]))
    else if t != "" && t[0] == close then Got(false, t[1..])
    else Fail(t, "", what)
  }

  lemma SeparatorParts(s: string, close: char, what: string)
    ensures var t := JsonGrammar.SkipSpaces(s);
      SeparatorAt(s, close, what)
      == if t != "" && t[0] == ',' then Got(true, JsonGrammar.SkipSpaces(t[1..]))
         else if t != "" && t[0] == close then Got(false, t[1..])
         else Fail(t, "", what)
  {
    hide Suffix, JsonGrammar.SkipSpaces;
  }

  // an entry, and whether another one follows
  datatype Member = Member(entry: Entry, more: bool)

  function MemberAt(s: string): (r: Outcome<Member>)
    ensures r.Got? ==> |r.rest| < |s|
  {
    match EntryAt(s)
    case Fail(rest, word, what) => Fail(rest, word, what)
    case Got(e, rest) =>
      match SeparatorAt(rest, '}', "Comma or end of object expected")
      case Fail(last, word, what) => Fail(last, word, what)
      case Got(more, last) => Got(Member(e, more), last)
  }

  lemma MemberParts(s: string)
    ensures var e := EntryAt(s);
      && (e.Fail? ==> MemberAt(s) == Fail(e.rest, e.word, e.what))
      && (e.Got? ==>
            var more := SeparatorAt(e.rest, '}', "Comma or end of object expected");
            MemberAt(s) == if more.Fail? then Fail(more.rest, more.word, more.what)
                           else Got(Member(e.value, more.value), more.rest))
  {
    hide EntryAt, SeparatorAt;
  }

  lemma EntriesStep(s: string, acc: seq<Entry>)
    ensures var m := MemberAt(s);
      && (m.Fail? ==> JsonGrammar.ReadEntries(s, acc) == Fail(m.rest, m.word, m.what))
      && (m.Got? ==>
            var done := SetEntry(acc, m.value.entry.key, m.value.entry.value);
            JsonGrammar.ReadEntries(s, acc)
                == if m.value.more then JsonGrammar.ReadEntries(m.rest, done) else Got(Object(done), m.rest))
  {
    hide *;
    MemberParts(s);
    EntryParts(s, acc);
    if EntryAt(s).Got? {
      SeparatorParts(EntryAt(s).rest, '}', "Comma or end of object expected");
    }
  }

  lemma DocumentParts(s: string)
    ensures var o := JsonGrammar.ReadValue(JsonGrammar.SkipSpaces(s));
      && (o.Fail? ==> Document(s) == o)
      && (o.Got? ==>
            var u := JsonGrammar.SkipSpaces(o.rest);
            Document(s) == if u != "" then Fail(u, "", "Unexpected symbol(s) at the end of file") else Got(o.value, u))
  {
    hide Suffix, JsonGrammar.SkipSpaces, JsonGrammar.ReadValue;
  }

  lemma BlankChars(c: char)
    ensures IsSpace(c) ==> c != '\0' && c != '\n'
    ensures IsNewLine(c) <==> c == '\n'
  {
  }

  lemma WordChars(c: char)
    ensures IsAlpha(c) || IsDigit(c) ==> c != '\0' && c != '\n'
    ensures IsWord(c) <==> IsAlpha(c) || IsDigit(c)
  {
  }

  lemma DigitChars(c: char)
    ensures IsDigit(c) ==> c != '\0' && c != '\n'
  {
  }

  lemma SkipStep(s: string)
    ensures JsonGrammar.SkipSpaces(s) == if s != ""
      && (IsSpace(s[0]) || IsNewLine(s[0])) then JsonGrammar.SkipSpaces(s[1..]) else s
    ensures !IsSpace('\0') && !IsNewLine('\0')
  {
  }

  lemma {:induction false} WordEnds(s: string, begin: nat, cur: nat, length: nat)
    requires begin <= cur <= length <= |s|
    requires forall i :: begin <= i < cur ==> IsWord(s[i])
    requires cur < length ==> !IsWord(s[cur])
    ensures Word(s[begin..length]) == s[begin..cur]
    ensures s[begin..length][|s[begin..cur]|..] == s[cur..length]
    decreases cur - begin
  {
    if begin < cur {
      WordEnds(s, begin + 1, cur, length);
      assert s[begin..length][1..] == s[begin + 1..length];
    }
  }

  lemma WrapTwice(n: int)
    ensures Wrap(Wrap(n)) == Wrap(n)
    ensures Wrap(0) == 0
  {
  }

  lemma DigitsStep(s: string, i: int)
    ensures Digits(s, i) == if s != ""
      && IsDigit(s[0]) then Digits(s[1..], Wrap(Wrap(i * 10) + DigitValue(s[0]))) else (i, s)
    ensures !IsDigit('\0')
  {
  }

  lemma LiteralParts(s: string)
    ensures s != "" && s[0] == '-' ==>
              IntegerLiteral(s) == if s[1..] == ""
                  || !IsDigit(s[1..][0]) then Fail(s[1..], "", "Decimal digit expected")
                                   else Got(Wrap(-Digits(s[1..], 0).0), Digits(s[1..], 0).1)
    ensures s == "" || s[0] != '-' ==> IntegerLiteral(s) == Got(Wrap(Digits(s, 0).0), Digits(s, 0).1)
    ensures !IsDigit('\0')
  {
    hide Digits, Wrap, Suffix;
  }

  lemma FractionStep(s: string, f: real, d: real, down: bool)
    ensures s == "" || !IsDigit(s[0]) ==> Fraction(s, f, d, down) == (f, s)
    ensures s != "" && IsDigit(s[0]) ==>
              Fraction(s, f, d, true) == Fraction(s[1..], f - Portion(s[0], d / 10.0), d / 10.0, true)
              && Fraction(s, f, d, false) == Fraction(s[1..], f + Portion(s[0], d / 10.0), d / 10.0, false)
    ensures !IsDigit('\0')
  {
  }

  lemma MantissaParts(i: int, s: string)
    ensures Mantissa(i, s) == if s != ""
      && s[0] == '.' then (Float(Fraction(s[1..], i as real, 1.0, i < 0).0), Fraction(s[1..], i as real, 1.0, i < 0).1)
                              else (Integer(i), s)
  {
  }

  lemma NumberParts(s: string)
    ensures var o := IntegerLiteral(s);
      match o
      case Fail(_, _, _) => NumberLiteral(s) == Fail(o.rest, o.word, o.what)
      case Got(i, rest) =>
        var m := Mantissa(i, rest);
        NumberLiteral(s) == if m.1 != ""
            && (m.1[0] == 'e' || m.1[0] == 'E') then Shifted(m.0, IntegerLiteral(m.1[1..])) else Got(m.0, m.1)
  {
  }

  // a number and the outcome of reading its exponent
  function Shifted(number: Json, e: Outcome<int>): Outcome<Json>
    requires number.Integer? || number.Float?
  {
    match e
    case Fail(rest, word, what) => Fail(rest, word, what)
    case Got(k, rest) => Got(Exponent(number, k), rest)
  }

  lemma ShiftedParts(number: Json, e: Outcome<int>)
    requires number.Integer? || number.Float?
    ensures Shifted(number, e) == match e
              case Fail(rest, word, what) => Fail(rest, word, what)
              case Got(k, rest) => Got(Exponent(number, k), rest)
  {
  }

  lemma RaiseStep(i: int, exponent: nat)
    ensures Raise(i, exponent) == if exponent == 0 then i else Raise(Wrap(i * 10), exponent - 1)
  {
  }

  lemma ScaleStep(f: real, exponent: int)
    ensures exponent > 0 ==> Scale(f, exponent) == Scale(f * 10.0, exponent - 1)
    ensures exponent < 0 ==> Scale(f, exponent) == Scale(f / 10.0, exponent + 1)
    ensures exponent == 0 ==> Scale(f, exponent) == f
  {
  }

  // s and what stands between begin and cur, with what the rest will give, is the text being read
  ghost predicate Pending(s: string, source: string, begin: nat, cur: nat, rest: string, body: string)
  {
    begin <= cur <= |source| && After(s + source[begin..cur], StringBody(rest)) == StringBody(body)
  }

  lemma PendingNone(source: string, cur: nat, body: string)
    requires cur <= |source|
    ensures Pending("", source, cur, cur, body, body)
  {
    hide StringBody;
    assert "" + source[cur..cur] == "";
    assert StringBody(body).Got? ==> "" + StringBody(body).value == StringBody(body).value;
  }

  lemma PendingStops(s: string, source: string, begin: nat, cur: nat, rest: string, body: string)
    requires Pending(s, source, begin, cur, rest, body)
    ensures rest == "" ==> StringBody(body) == Fail(rest, "", "Unexpected end of file in double quoted string")
    ensures rest != "" && rest[0] == '\n' ==> StringBody(body) == Fail(rest, "", "Multiline string literal")
    ensures rest != "" && rest[0] == '"' ==>
      StringBody(body) == Got(if begin < cur then s + source[begin..cur] else s, rest[1..])
  {
    hide StringBody;
    BodyStep(rest);
    AfterParts(s + source[begin..cur], StringBody(rest));
    assert begin == cur ==> s + source[begin..cur] == s;
  }

  lemma PendingEscape(s: string, source: string, begin: nat, cur: nat, rest: string, body: string)
    requires Pending(s, source, begin, cur, rest, body) && rest != "" && rest[0] == '\\'
    ensures var e := EscapeAt(rest[1..]);
      && (e.Fail? ==> StringBody(body) == Fail(e.rest, "", e.what))
      && (e.Got? && cur + 2 <= |source| ==>
            Pending((if begin < cur then s + source[begin..cur] else s) + [e.value], source, cur + 2, cur + 2, e.rest,
                body))
  {
    hide StringBody, EscapeAt, After;
    BodyStep(rest);
    var e := EscapeAt(rest[1..]);
    EscapedParts(rest[1..]);
    var done := if begin < cur then s + source[begin..cur] else s;
    assert done == s + source[begin..cur];
    AfterParts(done, StringBody(rest));
    if e.Got? && cur + 2 <= |source| {
      AfterAfter(done, [e.value], StringBody(e.rest));
      assert done + [e.value] + source[cur + 2..cur + 2] == done + [e.value];
    }
  }

  lemma PendingMore(s: string, source: string, begin: nat, cur: nat, rest: string, body: string)
    requires Pending(s, source, begin, cur, rest, body) && cur < |source| && rest != "" && rest[0] == source[cur]
    requires rest[0] != '\n' && rest[0] != '"' && rest[0] != '\\'
    ensures Pending(s, source, begin, cur + 1, rest[1..], body)
  {
    hide StringBody, After;
    BodyStep(rest);
    AfterAfter(s + source[begin..cur], [rest[0]], StringBody(rest[1..]));
    assert s + source[begin..cur + 1] == s + source[begin..cur] + [rest[0]];
  }

  lemma UnescapeChars(c: char)
    ensures Unescape(c).Stands? ==> c != '\0' && c != '\n'
  {
  }

  lemma BodyStep(s: string)
    ensures s == "" ==> StringBody(s) == Fail(s, "", "Unexpected end of file in double quoted string")
    ensures s != "" && s[0] == '\n' ==> StringBody(s) == Fail(s, "", "Multiline string literal")
    ensures s != "" && s[0] == '"' ==> StringBody(s) == Got("", s[1..])
    ensures s != "" && s[0] == '\\' ==> StringBody(s) == EscapedBody(s[1..])
    ensures s != "" && s[0] != '\n' && s[0] != '"' && s[0] != '\\' ==>
      StringBody(s) == After([s[0]], StringBody(s[1..]))
  {
    hide Unescape;
    assert |s| > 1 ==> s[2..] == s[1..][1..];
  }

  // after a backslash
  function EscapeAt(s: string): (r: Outcome<char>)
    ensures r.Fail? ==> r.word == ""
  {
    if s == "" then Fail(s, "", "Unexpected end of file in double quoted string")
    else
      match Unescape(s[0])
      case Stands(c) => Got(c, s[1..])
      case NoEscape => Fail(s, "", "Unknown escape sequence: \\" + [s[0]])
  }

  lemma EscapeAtParts(s: string)
    ensures s == "" ==> EscapeAt(s) == Fail(s, "", "Unexpected end of file in double quoted string")
    ensures s != "" && Unescape(s[0]).Stands? ==> EscapeAt(s) == Got(Unescape(s[0]).c, s[1..])
    ensures s != "" && Unescape(s[0]).NoEscape? ==> EscapeAt(s) == Fail(s, "", "Unknown escape sequence: \\" + [s[0]])
  {
    hide Unescape;
  }

  function EscapedBody(s: string): Outcome<string>
  {
    match EscapeAt(s)
    case Got(c, rest) => After([c], StringBody(rest))
    case Fail(rest, word, what) => Fail(rest, word, what)
  }

  lemma EscapedParts(s: string)
    ensures var e := EscapeAt(s);
      EscapedBody(s) == if e.Got? then After([e.value], StringBody(e.rest)) else Fail(e.rest, "", e.what)
  {
    hide EscapeAt, StringBody;
  }

  lemma AfterParts(done: string, o: Outcome<string>)
    ensures o.Fail? ==> After(done, o) == o
    ensures o.Got? && o.value == "" ==> After(done, o) == Got(done, o.rest)
  {
    assert done + "" == done;
  }

  lemma AfterAfter(done: string, more: string, o: Outcome<string>)
    ensures After(done, After(more, o)) == After(done + more, o)
  {
    assert o.Got? ==> done + (more + o.value) == done + more + o.value;
  }
}
