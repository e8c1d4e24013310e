// What the parser accepts, as functions of the text that is still to be read.
module JsonGrammar {
  import opened JsonValues

  // Either a value and what follows it, or what is left where reading stops. An error is reported
  // at the start of the word that was passed last, which is empty but for an unknown keyword.
  datatype Outcome<T> = Got(value: T, rest: string) | Fail(rest: string, word: string, what: string)

  predicate IsSpace(c: char) { c == ' ' || c == '\t' || c == '\r' }
  predicate IsNewLine(c: char) { c == '\n' }
  predicate IsDigit(c: char) { '0' <= c <= '9' }
  predicate IsAlpha(c: char) { 'A' <= c <= 'Z' || 'a' <= c <= 'z' || c == '_' }
  predicate IsWord(c: char) { IsAlpha(c) || IsDigit(c) }

  function Head(s: string): char { if s == "" then '\0' else s[0] }

  ghost predicate Suffix(r: string, s: string): (b: bool)
    ensures b ==> |r| <= |s|
  {
    r == s || (s != "" && Suffix(r, s[1..]))
  }

  lemma {:induction false} SuffixOfSuffix(a: string, b: string, c: string)
    requires Suffix(a, b) && Suffix(b, c)
    ensures Suffix(a, c)
    decreases |c|
  {
    if b != c {
      SuffixOfSuffix(a, b, c[1..]);
    }
  }

  lemma {:induction false} SuffixIs(r: string, s: string)
    requires Suffix(r, s)
    ensures s[|s| - |r|..] == r
    decreases |s|
  {
    if r != s {
      SuffixIs(r, s[1..]);
    }
  }

  lemma SuffixStep(t: string, s: string)
    requires Suffix(t, s) && t != ""
    ensures Suffix(t[1..], s)
  {
    assert Suffix(t[1..], t);
    SuffixOfSuffix(t[1..], t, s);
  }

  lemma {:induction false} DropIsSuffix(s: string, n: nat)
    requires n <= |s|
    ensures Suffix(s[n..], s)
  {
    if n > 0 {
      DropIsSuffix(s[1..], n - 1);
      assert s[1..][n - 1..] == s[n..];
    }
  }

  function SkipSpaces(s: string): (r: string)
    ensures Suffix(r, s)
    ensures r != "" ==> !IsSpace(r[0]) && !IsNewLine(r[0])
  {
    if IsSpace(Head(s)) || IsNewLine(Head(s)) then SkipSpaces(s[1..]) else s
  }

  // ---------- texts

  datatype Escaped = NoEscape | Stands(c: char)

  function Unescape(c: char): Escaped
  {
    if c == '\\' || c == '/' || c == '"' then Stands(c)
    else if c == 'b' then Stands('\U{0008}')
    else if c == 'f' then Stands('\U{000C}')
    else if c == 'n' then Stands('\n')
    else if c == 'r' then Stands('\r')
    else if c == 't' then Stands('\t')
    else NoEscape
  }

  // Eight escapes are accepted and no others; each stands for one character.
  lemma Escapes(c: char)
    ensures Unescape(c).Stands? <==> c in "\"\\/bfnrt"
    ensures forall k {:trigger "\"\\/bfnrt"[k]} :: 0 <= k < 8 && c == "\"\\/bfnrt"[k] ==>
              Unescape(c) == Stands("\"\\/\U{0008}\U{000C}\n\r\t"[k])
  {
  }

  lemma Classes(c: char)
    ensures IsSpace(c) <==> c in " \t\r"
    ensures IsNewLine(c) <==> c in "\n"
    ensures IsDigit(c) <==> c in "0123456789"
  {
  }

  function After(done: string, o: Outcome<string>): (r: Outcome<string>)
    ensures r.rest == o.rest
  {
    match o
    case Got(t, rest) => Got(done + t, rest)
    case Fail(_, _, _) => o
  }

  // after the opening quotation mark
  function StringBody(s: string): (r: Outcome<string>)
    ensures Suffix(r.rest, s) && (r.Got? ==> |r.rest| < |s|)
    ensures r.Got? && '\0' !in s ==> '\0' !in r.value
  {
    if s == "" then Fail(s, "", "Unexpected end of file in double quoted string")
    else if s[0] == '\n' then Fail(s, "", "Multiline string literal")
    else if s[0] == '"' then Got("", s[1..])
    else if s[0] == '\\' then
      if |s| == 1 then Fail(s[1..], "", "Unexpected end of file in double quoted string")
      else
        match Unescape(s[1])
        case Stands(c) => After([c], StringBody(s[2..]))
        case NoEscape => Fail(s[1..], "", "Unknown escape sequence: \\" + [s[1]])
    else After([s[0]], StringBody(s[1..]))
  }

  // ---------- numbers

  function DigitValue(c: char): (d: int)
    requires IsDigit(c)
    ensures 0 <= d <= 9
  {
    c as int - '0' as int
  }

  // i *= 10; i += digit
  function Digits(s: string, i: int): (r: (int, string))
    ensures Suffix(r.1, s) && !IsDigit(Head(r.1))
  {
    if IsDigit(Head(s)) then Digits(s[1..], Wrap(Wrap(i * 10) + DigitValue(s[0]))) else (i, s)
  }

  // some step of that loop leaves the 64-bit range
  predicate Overflows(s: string, i: int)
  {
    IsDigit(Head(s)) &&
    (!(MIN64 <= i * 10 + DigitValue(s[0]) <= MAX64) || Overflows(s[1..], i * 10 + DigitValue(s[0])))
  }

  function IntegerLiteral(s: string): (r: Outcome<int>)
    ensures Suffix(r.rest, s)
    ensures r.Got? && (IsDigit(Head(s)) || Head(s) == '-') ==> |r.rest| < |s|
    ensures r.Got? ==> MIN64 <= r.value <= MAX64
  {
    if Head(s) == '-' then
      if !IsDigit(Head(s[1..])) then Fail(s[1..], "", "Decimal digit expected")
      else (var (i, rest) := Digits(s[1..], 0); Got(Wrap(-i), rest))
    else (var (i, rest) := Digits(s, 0); Got(Wrap(i), rest))
  }

  // what a digit at the place d adds
  function Portion(c: char, d: real): real
    requires IsDigit(c)
  {
    DigitValue(c) as real * d
  }

  // d /= 10; f += digit * d, with the sign of the integer part as the code takes it
  function Fraction(s: string, f: real, d: real, down: bool): (r: (real, string))
    ensures Suffix(r.1, s)
  {
    if IsDigit(Head(s)) then
      var step := Portion(s[0], d / 10.0);
      Fraction(s[1..], if down then f - step else f + step, d / 10.0, down)
    else (f, s)
  }

  function Raise(i: int, exponent: nat): int
    decreases exponent
  {
    if exponent == 0 then i else Raise(Wrap(i * 10), exponent - 1)
  }

  function Scale(f: real, exponent: int): real
    decreases if exponent < 0 then -exponent else exponent
  {
    if exponent > 0 then Scale(f * 10.0, exponent - 1)
    else if exponent < 0 then Scale(f / 10.0, exponent + 1)
    else f
  }

  // the number read so far, and whether it is still an integer
  function Mantissa(i: int, s: string): (r: (Json, string))
    ensures Suffix(r.1, s) && (r.0.Float? || r.0 == Integer(i))
  {
    if Head(s) == '.' then
      var (f, rest) := Fraction(s[1..], i as real, 1.0, i < 0);
      (Float(f), rest)
    else (Integer(i), s)
  }

  function Exponent(number: Json, e: int): (r: Json)
    requires number.Integer? || number.Float?
    ensures r.Integer? || r.Float?
  {
    match number
    case Integer(i) => if e > 0 then Integer(Raise(i, e)) else Float(Scale(i as real, e))
    case Float(f) => Float(Scale(f, e))
  }

  function NumberLiteral(s: string): (r: Outcome<Json>)
    ensures Suffix(r.rest, s)
    ensures r.Got? && (IsDigit(Head(s)) || Head(s) == '-') ==> |r.rest| < |s|
  {
    match IntegerLiteral(s)
    case Fail(rest, word, what) => Fail(rest, word, what)
    case Got(i, rest) =>
      var (number, more) := Mantissa(i, rest);
      SuffixOfSuffix(more, rest, s);
      if Head(more) == 'e' || Head(more) == 'E' then
        SuffixOfSuffix(more[1..], more, s);
        match IntegerLiteral(more[1..])
        case Fail(last, word, what) => SuffixOfSuffix(last, more[1..], s); Fail(last, word, what)
        case Got(e, last) => SuffixOfSuffix(last, more[1..], s); Got(Exponent(number, e), last)
      else Got(number, more)
  }

  // ---------- words and values

  function Word(s: string): (r: string)
    ensures r <= s && forall i :: 0 <= i < |r| ==> IsWord(r[i])
    ensures !IsWord(Head(s[|r|..]))
  {
    if IsWord(Head(s)) then [s[0]] + Word(s[1..]) else ""
  }

  function Keyword(s: string): (r: Outcome<Json>)
    ensures Suffix(r.rest, s) && (r.Got? ==> |r.rest| < |s|)
  {
    var word := Word(s);
    var rest := s[|word|..];
    DropIsSuffix(s, |word|);
    if word == "null" then Got(Null, rest)
    else if word == "true" then Got(Boolean(true), rest)
    else if word == "false" then Got(Boolean(false), rest)
    else Fail(rest, word, "Invalid bareword \"" + word + "\", while value expected")
  }

  function ReadValue(s: string): (r: Outcome<Json>)
    ensures Suffix(r.rest, s) && (r.Got? ==> |r.rest| < |s|)
    decreases |s|, 2
  {
    var c := Head(s);
    if c == '"' then
      match StringBody(s[1..])
      case Got(t, rest) => Got(String(t), rest)
      case Fail(rest, word, what) => Fail(rest, word, what)
    else if IsDigit(c) || c == '-' then NumberLiteral(s)
    else if IsAlpha(c) then Keyword(s)
    else if c == '[' then ReadArray(s)
    else if c == '{' then ReadObject(s)
    else Fail(s, "", "Invalid symbol, while value expected")
  }

  function ReadArray(s: string): (r: Outcome<Json>)
    requires s != ""
    ensures Suffix(r.rest, s) && (r.Got? ==> |r.rest| < |s|)
    decreases |s|, 1
  {
    var t := SkipSpaces(s[1..]);
    SuffixOfSuffix(t, s[1..], s);
    if Head(t) == ']' then SuffixStep(t, s); Got(Array([]), t[1..])
    else var o := ReadItems(t, []); SuffixOfSuffix(o.rest, t, s); o
  }

  function ReadObject(s: string): (r: Outcome<Json>)
    requires s != ""
    ensures Suffix(r.rest, s) && (r.Got? ==> |r.rest| < |s|)
    decreases |s|, 1
  {
    var t := SkipSpaces(s[1..]);
    SuffixOfSuffix(t, s[1..], s);
    if Head(t) == '}' then SuffixStep(t, s); Got(Object([]), t[1..])
    else var o := ReadEntries(t, []); SuffixOfSuffix(o.rest, t, s); o
  }

  // the items from s on, with those before them in acc
  function ReadItems(s: string, acc: seq<Json>): (r: Outcome<Json>)
    ensures Suffix(r.rest, s) && (r.Got? ==> |r.rest| < |s|)
    decreases |s|, 3
  {
    var o := ReadValue(s);
    if o.Fail? then o
    else
      var t := SkipSpaces(o.rest);
      SuffixOfSuffix(t, o.rest, s);
      if Head(t) == ',' then
        var u := SkipSpaces(t[1..]);
        SuffixStep(t, s);
        SuffixOfSuffix(u, t[1..], s);
        var more := ReadItems(u, acc + [o.value]);
        SuffixOfSuffix(more.rest, u, s);
        more
      else if Head(t) == ']' then SuffixStep(t, s); Got(Array(acc + [o.value]), t[1..])
      else Fail(t, "", "Comma or end of array expected")
  }

  // the key, the colon, and the blank text after it
  function ReadKey(s: string): (r: Outcome<string>)
    ensures Suffix(r.rest, s) && (r.Got? ==> |r.rest| < |s|)
    ensures r.Got? && '\0' !in s ==> '\0' !in r.value
  {
    if Head(s) != '"' then Fail(s, "", "Unexpected symbol, while waiting key of object")
    else
      var o := StringBody(s[1..]);
      SuffixOfSuffix(o.rest, s[1..], s);
      if o.Fail? then o
      else
        var t := SkipSpaces(o.rest);
        SuffixOfSuffix(t, o.rest, s);
        if Head(t) != ':' then Fail(t, "", "Colon expected")
        else var u := SkipSpaces(t[1..]); SuffixStep(t, s); SuffixOfSuffix(u, t[1..], s); Got(o.value, u)
  }

  function ReadEntries(s: string, acc: seq<Entry>): (r: Outcome<Json>)
    ensures Suffix(r.rest, s) && (r.Got? ==> |r.rest| < |s|)
    decreases |s|, 3
  {
    match ReadKey(s)
    case Fail(rest, word, what) => Fail(rest, word, what)
    case Got(key, valueAt) =>
      var o := ReadValue(valueAt);
      SuffixOfSuffix(o.rest, valueAt, s);
      if o.Fail? then o
      else
        var t := SkipSpaces(o.rest);
        SuffixOfSuffix(t, o.rest, s);
        var done := SetEntry(acc, key, o.value);
        if Head(t) == ',' then
          var u := SkipSpaces(t[1..]);
          SuffixStep(t, s);
          SuffixOfSuffix(u, t[1..], s);
          var more := ReadEntries(u, done);
          SuffixOfSuffix(more.rest, u, s);
          more
        else if Head(t) == '}' then SuffixStep(t, s); Got(Object(done), t[1..])
        else Fail(t, "", "Comma or end of object expected")
  }

  // a whole text
  function Document(s: string): (r: Outcome<Json>)
    ensures Suffix(r.rest, s) && (r.Got? ==> r.rest == "")
  {
    var t := SkipSpaces(s);
    var o := ReadValue(t);
    SuffixOfSuffix(o.rest, t, s);
    if o.Fail? then o
    else
      var u := SkipSpaces(o.rest);
      SuffixOfSuffix(u, o.rest, s);
      if u != "" then Fail(u, "", "Unexpected symbol(s) at the end of file") else Got(o.value, u)
  }
}
