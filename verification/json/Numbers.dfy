// Number literals in plain arithmetic: what is read is a whole number of digits over a power of ten.
module JsonNumbers {
  import opened JsonValues
  import opened JsonGrammar
  import opened JsonRoundTrip
  import opened JsonDecimals
  import JsonTexts

  function Pow10(n: nat): (p: nat)
    ensures p > 0
  {
    if n == 0 then 1 else 10 * Pow10(n - 1)
  }

  lemma {:induction false} PowersOfTen(a: nat, b: nat)
    ensures Pow10(0) == 1 && Pow10(1) == 10 && Pow10(a + b) == Pow10(a) * Pow10(b)
  {
    if a > 0 {
      PowersOfTen(a - 1, b);
      assert Pow10(a + b) == 10 * (Pow10(a - 1) * Pow10(b)) == (10 * Pow10(a - 1)) * Pow10(b);
    }
  }

  lemma NextPower(n: nat)
    ensures Pow10(n + 1) == 10 * Pow10(n) && Pow10(n + 1) as real == 10.0 * (Pow10(n) as real)
    ensures Pow10(0) == 1
  {
  }

  // ---------- whole numbers

  lemma {:induction false} WholeJoins(s: string, t: string, i: nat)
    requires AllDigits(s) && AllDigits(t)
    ensures AllDigits(s + t) && Whole(s + t, i) == Whole(t, Whole(s, i))
  {
    if s == "" {
      assert s + t == t;
    } else {
      assert (s + t)[1..] == s[1..] + t;
      WholeJoins(s[1..], t, i * 10 + DigitValue(s[0]));
    }
  }

  lemma {:induction false} WholeShifts(s: string, i: nat)
    requires AllDigits(s)
    ensures Whole(s, i) == i * Pow10(|s|) + Whole(s, 0)
  {
    if s != "" {
      var v, p := DigitValue(s[0]), Pow10(|s| - 1);
      NextPower(|s| - 1);
      WholeShifts(s[1..], i * 10 + v);
      WholeShifts(s[1..], v);
      hide *;
      assert (i * 10 + v) * p == i * (10 * p) + v * p;
    }
  }

  // The digits of a whole number stand for multiples of powers of ten.
  lemma WholePlaces(s: string, c: char, t: string)
    requires AllDigits(s) && IsDigit(c) && AllDigits(t)
    ensures AllDigits(s + t) && Whole(s + t, 0) == Whole(s, 0) * Pow10(|t|) + Whole(t, 0)
    ensures Whole("", 0) == 0 && Whole([c], 0) == DigitValue(c) && "0123456789"[DigitValue(c)] == c
  {
    WholeJoins(s, t, 0);
    WholeShifts(t, Whole(s, 0));
    assert [c][1..] == "";
  }

  // The digits printed for a number are those it is written with: they stand for it, and none is too many in front.
  lemma {:induction false} NatTextIs(n: nat)
    ensures var text := JsonTexts.NatText(n);
      && AllDigits(text) && Whole(text, 0) == n && (text[0] == '0' ==> text == "0")
  {
    var last := [JsonTexts.Digit(n % 10)];
    assert last[1..] == "";
    if n >= 10 {
      NatTextIs(n / 10);
      WholeJoins(JsonTexts.NatText(n / 10), last, 0);
      assert JsonTexts.NatText(n / 10) != "0";
    }
  }

  // The loop that reads an integer keeps the value of the digits as far as 64 bits can.
  lemma {:induction false} DigitsWrap(s: string, i: nat, post: string)
    requires AllDigits(s) && !IsDigit(Head(post))
    ensures Digits(s + post, Wrap(i)) == (Wrap(Whole(s, i)), post)
  {
    hide Wrap;
    if s == "" {
      assert s + post == post;
    } else {
      assert (s + post)[1..] == s[1..] + post;
      WrapStep(i, DigitValue(s[0]));
      DigitsWrap(s[1..], i * 10 + DigitValue(s[0]), post);
    }
  }

  // ---------- fractions and powers

  lemma PartStep(s: string, d: real)
    requires AllDigits(s)
    ensures s == "" ==> Part(s, d) == 0.0 && Whole(s, 0) == 0
    ensures s != "" ==>
      && IsDigit(s[0]) && AllDigits(s[1..]) && Whole(s, 0) == Whole(s[1..], DigitValue(s[0]))
      && Part(s, d) == DigitValue(s[0]) as real * (d / 10.0) + Part(s[1..], d / 10.0)
  {
  }

  // A digit behind the point stands for a tenth of what it would stand for one place before.
  lemma {:induction false} PartIs(s: string, d: real)
    requires AllDigits(s)
    ensures Part(s, d) * (Pow10(|s|) as real) == d * (Whole(s, 0) as real)
  {
    hide *;
    PartStep(s, d);
    if s != "" {
      var v, p := DigitValue(s[0]), Pow10(|s| - 1);
      PartIs(s[1..], d / 10.0);
      NextPower(|s| - 1);
      WholeShifts(s[1..], v);
      FirstPlace(d, v, p, Part(s[1..], d / 10.0), Whole(s[1..], 0));
    }
  }

  lemma FirstPlace(d: real, v: nat, p: nat, part: real, whole: nat)
    requires part * (p as real) == d / 10.0 * (whole as real)
    ensures (v as real * (d / 10.0) + part) * ((10 * p) as real) == d * ((v * p + whole) as real)
  {
    var x, y := v as real, p as real;
    assert (10 * p) as real == 10.0 * y && (v * p + whole) as real == x * y + whole as real;
    assert (x * (d / 10.0)) * (10.0 * y) == d * (x * y);
    assert part * (10.0 * y) == 10.0 * (part * y);
  }

  lemma ScaleStep(f: real, exponent: int)
    ensures Scale(f, 0) == f
    ensures exponent > 0 ==> Scale(f, exponent) == Scale(f * 10.0, exponent - 1)
    ensures exponent < 0 ==> Scale(f, exponent) == Scale(f / 10.0, exponent + 1)
  {
  }

  // An exponent multiplies by a power of ten, or divides by one.
  lemma {:induction false} ScaleIs(f: real, exponent: int)
    ensures exponent >= 0 ==> Scale(f, exponent) == f * (Pow10(exponent) as real)
    ensures exponent <= 0 ==> Scale(f, exponent) * (Pow10(-exponent) as real) == f
    decreases if exponent < 0 then -exponent else exponent
  {
    hide *;
    ScaleStep(f, exponent);
    NextPower(if exponent > 0 then exponent - 1 else if exponent < 0 then -exponent - 1 else 0);
    if exponent > 0 {
      ScaleIs(f * 10.0, exponent - 1);
      Moved(f, Pow10(exponent - 1) as real);
    } else if exponent < 0 {
      ScaleIs(f / 10.0, exponent + 1);
      Moved(Scale(f, exponent), Pow10(-exponent - 1) as real);
    }
  }

  lemma Moved(a: real, b: real)
    ensures a * (10.0 * b) == a * 10.0 * b == 10.0 * (a * b)
  {
  }

  lemma {:induction false} RaiseIs(i: int, exponent: nat)
    ensures Raise(Wrap(i), exponent) == Wrap(i * Pow10(exponent))
    decreases exponent
  {
    if exponent > 0 {
      RaiseStep(i, exponent);
      hide *;
      RaiseIs(i * 10, exponent - 1);
      NextPower(exponent - 1);
      TimesTen(i, Pow10(exponent - 1));
    } else {
      assert i * Pow10(0) == i;
    }
  }

  lemma TimesTen(i: int, p: nat)
    ensures i * 10 * p == i * (10 * p)
  {
  }

  lemma RaiseStep(i: int, exponent: nat)
    requires exponent > 0
    ensures Raise(Wrap(i), exponent) == Raise(Wrap(i * 10), exponent - 1)
  {
    WrapStep(i, 0);
    hide Wrap;
    assert Wrap(Wrap(Wrap(i) * 10) + 0) == Wrap(i * 10);
    WrapTwice(Wrap(i) * 10);
  }

  lemma WrapTwice(n: int)
    ensures Wrap(Wrap(n) + 0) == Wrap(n)
  {
  }

  // ---------- number literals

  // the integer whose digits are those before and behind the point
  ghost function AllPlaces(d: Decimal): nat
    requires Within(d)
  {
    assert AllDigits(d.whole + d.fraction);
    Whole(d.whole + d.fraction, 0)
  }

  lemma PlacesDigits(d: Decimal)
    requires Within(d)
    ensures AllDigits(d.whole + d.fraction) && Pow10(|d.fraction|) > 0
    ensures AllPlaces(d) == Whole(d.whole, 0) * Pow10(|d.fraction|) + Whole(d.fraction, 0)
  {
    hide Whole;
    WholeJoins(d.whole, d.fraction, 0);
    WholeShifts(d.fraction, Whole(d.whole, 0));
  }

  lemma Distributed(w: nat, p: nat, part: real, f: nat)
    requires part * (p as real) == 1.0 * (f as real)
    ensures (w as real + part) * (p as real) == (w * p + f) as real
  {
    assert (w * p) as real == w as real * (p as real);
  }

  lemma SizeIs(d: Decimal)
    requires Within(d)
    ensures Size(d) * (Pow10(|d.fraction|) as real) == AllPlaces(d) as real
  {
    hide Whole, Part, Pow10, AllPlaces;
    PlacesDigits(d);
    PartIs(d.fraction, 1.0);
    Distributed(Whole(d.whole, 0), Pow10(|d.fraction|), Part(d.fraction, 1.0), Whole(d.fraction, 0));
  }

  // how many places the point goes to the left, and to the right
  ghost function LeftPlaces(d: Decimal): nat
    requires Within(d)
  {
    |d.fraction| + if d.power.Down? then Whole(d.power.digits, 0) else 0
  }

  ghost function RightPlaces(d: Decimal): nat
    requires Within(d)
  {
    if d.power.Up? then Whole(d.power.digits, 0) else 0
  }

  ghost function Signed(n: nat, negative: bool): int { if negative then 0 - n else n }

  lemma Shrunk(f: real, g: real, n: int, a: nat, b: nat)
    requires f * (Pow10(a) as real) == n as real && g * (Pow10(b) as real) == f
    ensures g * (Pow10(a + b) as real) == n as real
  {
    PowersOfTen(a, b);
    hide *;
    var x, y := Pow10(a), Pow10(b);
    assert (x * y) as real == x as real * (y as real);
    assert g * (x as real * (y as real)) == (g * (y as real)) * (x as real);
  }

  lemma Grown(f: real, n: int, a: nat, b: nat)
    requires f * (Pow10(a) as real) == n as real
    ensures f * (Pow10(b) as real) * (Pow10(a) as real) == (n * Pow10(b)) as real
  {
    hide *;
    var x, y := Pow10(a) as real, Pow10(b) as real;
    assert f * y * x == (f * x) * y;
    assert (n * Pow10(b)) as real == n as real * y;
  }

  lemma SignedSize(d: Decimal, negative: bool)
    requires Within(d)
    ensures (if negative then -Size(d) else Size(d)) * (Pow10(|d.fraction|) as real)
         == Signed(AllPlaces(d), negative) as real
  {
    hide Whole, Part, Pow10, AllPlaces, Size;
    SizeIs(d);
    assert (-Size(d)) * (Pow10(|d.fraction|) as real) == -(Size(d) * (Pow10(|d.fraction|) as real));
  }

  // What a decimal text stands for: all its digits as one integer, with the point moved by the power.
  lemma MeaningInTens(d: Decimal)
    requires Within(d)
    ensures Meaning(d) * (Pow10(LeftPlaces(d)) as real)
      == (Signed(AllPlaces(d), d.negative) * Pow10(RightPlaces(d))) as real
  {
    hide Whole, Part, Pow10, AllPlaces, Size, Scale, Signed;
    var f, n := if d.negative then -Size(d) else Size(d), Signed(AllPlaces(d), d.negative);
    SignedSize(d, d.negative);
    ScaleIs(f, Shift(d.power));
    NextPower(0);
    match d.power
    case NoPower =>
    case Up(digits) => Grown(f, n, |d.fraction|, Whole(digits, 0));
    case Down(digits) => Shrunk(f, Meaning(d), n, |d.fraction|, Whole(digits, 0));
  }

  // What the parser makes of it: the same but for a power with a plus sign, which is not taken, and for the sign, which
  // is that of the whole part.
  lemma ReadInTens(d: Decimal, post: string)
    requires Within(d) && Stops(post)
    ensures var o := NumberLiteral(Text(d) + post);
      && o.Got? && o.rest == (if d.power.Up? then "+" + d.power.digits + post else post)
      && if d.power.NoPower? && d.fraction == "" then
           o.value == Integer(Signed(AllPlaces(d), d.negative))
         else
           && o.value.Float?
           && o.value.number * (Pow10(LeftPlaces(d)) as real)
              == Signed(AllPlaces(d), d.negative && Whole(d.whole, 0) > 0) as real
  {
    hide Whole, Part, Pow10, AllPlaces, Size, Scale, Signed, Stops, Text, NumberLiteral, Front, Taken, Expected;
    DecimalRead(d, post);
    ExpectedIs(d, post);
    ExpectedUp(d, post);
    TakenInTens(d);
    if d.power.NoPower? && d.fraction == "" {
      OnlyWhole(d);
    } else if d.power.Down? {
      var n: int := Whole(d.power.digits, 0);
      ScaleIs(Taken(d), 0 - n);
      var signed := Signed(AllPlaces(d), d.negative && Whole(d.whole, 0) > 0);
      Shrunk(Taken(d), Scale(Taken(d), 0 - n), signed, |d.fraction|, n);
    } else {
      ScaleStep(Taken(d), 0);
    }
  }

  lemma ExpectedUp(d: Decimal, post: string)
    requires Within(d)
    ensures d.power.Up? ==> Expected(d, post) == Got(Float(Taken(d)), "+" + d.power.digits + post)
  {
  }

  lemma TakenInTens(d: Decimal)
    requires Within(d)
    ensures Taken(d) * (Pow10(|d.fraction|) as real)
         == Signed(AllPlaces(d), d.negative && Whole(d.whole, 0) > 0) as real
  {
    hide Whole, Part, Pow10, AllPlaces, Size, Signed;
    SignedSize(d, d.negative && Whole(d.whole, 0) > 0);
  }

  lemma OnlyWhole(d: Decimal)
    requires Within(d) && d.fraction == ""
    ensures Front(d) == Signed(AllPlaces(d), d.negative)
  {
    assert d.whole + d.fraction == d.whole;
  }

  // A power without a sign is taken: an integer is raised as far as 64 bits can, anything else is scaled.
  lemma RaisedInTens(d: Decimal, e: char, digits: string, post: string)
    requires Within(d) && d.power.NoPower? && (e == 'e' || e == 'E') && !IsDigit(Head(post))
    requires digits != "" && AllDigits(digits) && Whole(digits, 0) <= MAX64
    ensures var o := NumberLiteral(Text(d) + [e] + digits + post); var n := Whole(digits, 0);
      && o.Got? && o.rest == post
      && if d.fraction == "" && n > 0 then
           o.value == Integer(Wrap(Signed(AllPlaces(d), d.negative) * Pow10(n)))
         else
           && o.value.Float?
           && o.value.number * (Pow10(|d.fraction|) as real)
              == (Signed(AllPlaces(d), d.negative && Whole(d.whole, 0) > 0) * Pow10(n)) as real
  {
    hide Whole, Part, Pow10, AllPlaces, Size, Scale, Signed, Text, NumberLiteral, Front, Raise, Mantissa, Wrap,
      IntegerLiteral, Dots, Sign, Taken;
    var more, n := [e] + digits + post, Whole(digits, 0);
    ghost var negative := d.negative && Whole(d.whole, 0) > 0;
    MarkedText(d, e, digits, post);
    WholeThen(d, more);
    MantissaRuns(d, more);
    TakenInTens(d);
    DigitsRun(digits, 0, post);
    UnsignedPower(digits, n, post);
    var number := if d.fraction == "" then Integer(Front(d)) else Float(Taken(d));
    LiteralRaised(Text(d) + more, Front(d), Dots(d) + more, number, more, n, post);
    if d.fraction == "" {
      OnlyWhole(d);
      FrontInRange(d);
      RaiseIs(Front(d), n);
      TakenWhole(d);
    }
    ScaleIs(Taken(d), n);
    Grown(Taken(d), Signed(AllPlaces(d), negative), |d.fraction|, n);
  }

  lemma MarkedText(d: Decimal, e: char, digits: string, post: string)
    requires d.power.NoPower? && (e == 'e' || e == 'E')
    ensures var more := [e] + digits + post;
      && Text(d) + [e] + digits + post == Text(d) + more == Sign(d) + d.whole + (Dots(d) + more)
      && more != "" && Head(more) == e && more[1..] == digits + post && !IsDigit(e) && e != '.'
  {
    hide Sign, Dots;
    TextParts(d, [e] + digits + post);
    assert "" + ([e] + digits + post) == [e] + digits + post;
  }

  lemma FrontInRange(d: Decimal)
    requires Within(d)
    ensures Wrap(Front(d)) == Front(d)
  {
  }

  lemma UnsignedPower(digits: string, n: nat, post: string)
    requires digits != "" && AllDigits(digits) && n <= MAX64 && Digits(digits + post, 0) == (n, post)
    ensures IntegerLiteral(digits + post) == Got(n, post)
  {
    LiteralIs(digits + post, n, post);
  }

  // the number literal step by step, with either mark
  lemma LiteralRaised(s: string, i: int, rest: string, number: Json, more: string, n: int, post: string)
    requires IntegerLiteral(s) == Got(i, rest) && Mantissa(i, rest) == (number, more)
    requires (Head(more) == 'e' || Head(more) == 'E') && IntegerLiteral(more[1..]) == Got(n, post)
    requires number.Integer? || number.Float?
    ensures NumberLiteral(s) == Got(Exponent(number, n), post)
  {
    hide IntegerLiteral, Mantissa, Exponent, Suffix;
  }
}
