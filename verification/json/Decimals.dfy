// The decimal texts the C library prints for floating point values, and which of them are read back.
module JsonDecimals {
  import opened JsonValues
  import opened JsonTexts
  import opened JsonGrammar
  import opened JsonRoundTrip

  datatype Power = NoPower | Up(digits: string) | Down(digits: string)

  // what "%.16g" gives for a finite value: a sign, digits, a fraction that may be missing, and a power of ten
  datatype Decimal = Decimal(negative: bool, whole: string, fraction: string, power: Power)

  function Tail(power: Power): string
  {
    match power
    case NoPower => ""
    case Up(digits) => "e+" + digits
    case Down(digits) => "e-" + digits
  }

  function Sign(d: Decimal): string { if d.negative then "-" else "" }

  function Dots(d: Decimal): string { if d.fraction == "" then "" else "." + d.fraction }

  function Text(d: Decimal): string { Sign(d) + d.whole + (Dots(d) + Tail(d.power)) }

  ghost predicate AllDigits(s: string) { forall i :: 0 <= i < |s| ==> IsDigit(s[i]) }

  // the number the digits stand for, behind those that stand for i
  ghost function Whole(s: string, i: nat): nat
    requires AllDigits(s)
  {
    if s == "" then i else Whole(s[1..], i * 10 + DigitValue(s[0]))
  }

  // the signed whole part
  ghost function Front(d: Decimal): int
    requires AllDigits(d.whole)
  {
    var n: int := Whole(d.whole, 0);
    if d.negative then -n else n
  }

  // the digits behind a place worth d
  ghost function Part(s: string, d: real): real
    requires AllDigits(s)
  {
    if s == "" then 0.0 else Portion(s[0], d / 10.0) + Part(s[1..], d / 10.0)
  }

  ghost predicate Within(d: Decimal)
  {
    && d.whole != "" && AllDigits(d.whole) && AllDigits(d.fraction) && Whole(d.whole, 0) <= MAX64
    && (d.power.NoPower? || (d.power.digits != "" && AllDigits(d.power.digits) && Whole(d.power.digits, 0) <= MAX64))
  }

  ghost function Size(d: Decimal): real
    requires Within(d)
  {
    Whole(d.whole, 0) as real + Part(d.fraction, 1.0)
  }

  ghost function Shift(power: Power): int
    requires power.NoPower? || AllDigits(power.digits)
  {
    match power
    case NoPower => 0
    case Up(digits) => Whole(digits, 0)
    case Down(digits) => 0 - Whole(digits, 0)
  }

  // the value the text stands for
  ghost function Meaning(d: Decimal): real
    requires Within(d)
  {
    Scale(if d.negative then -Size(d) else Size(d), Shift(d.power))
  }

  // the sign is taken from the whole part, which has none when it is zero
  ghost predicate SignLost(d: Decimal)
    requires Within(d)
  {
    d.negative && Whole(d.whole, 0) == 0 && Part(d.fraction, 1.0) != 0.0
  }

  // the value the parser comes to before it looks for an exponent
  ghost function Taken(d: Decimal): real
    requires Within(d)
  {
    if d.negative && Whole(d.whole, 0) > 0 then -Size(d) else Size(d)
  }

  // ---------- digits

  lemma {:induction false} WholeGrows(s: string, i: nat)
    requires AllDigits(s)
    ensures i <= Whole(s, i)
  {
    if s != "" { WholeGrows(s[1..], i * 10 + DigitValue(s[0])); }
  }

  lemma {:induction false} DigitsRun(s: string, i: nat, post: string)
    requires AllDigits(s) && !IsDigit(Head(post)) && Whole(s, i) <= MAX64
    ensures Digits(s + post, i) == (Whole(s, i), post)
  {
    if s == "" {
      assert s + post == post;
    } else {
      var n := i * 10 + DigitValue(s[0]);
      WholeGrows(s[1..], n);
      assert (s + post)[1..] == s[1..] + post;
      DigitsRun(s[1..], n, post);
    }
  }

  lemma {:induction false} FractionRun(s: string, f: real, d: real, down: bool, post: string)
    requires AllDigits(s) && !IsDigit(Head(post))
    ensures Fraction(s + post, f, d, down) == (if down then f - Part(s, d) else f + Part(s, d), post)
  {
    hide Portion;
    if s == "" {
      assert s + post == post;
    } else {
      var step := Portion(s[0], d / 10.0);
      assert (s + post)[1..] == s[1..] + post;
      FractionRun(s[1..], if down then f - step else f + step, d / 10.0, down, post);
    }
  }

  lemma {:induction false} PartGrows(s: string, d: real)
    requires AllDigits(s) && d >= 0.0
    ensures Part(s, d) >= 0.0
  {
    if s != "" {
      PartGrows(s[1..], d / 10.0);
      PortionGrows(s[0], d / 10.0);
    }
  }

  lemma PortionGrows(c: char, d: real)
    requires IsDigit(c) && d >= 0.0
    ensures Portion(c, d) >= 0.0
  {
  }

  lemma {:induction false} ScaleSign(f: real, exponent: int)
    ensures Scale(-f, exponent) == -Scale(f, exponent) && (f != 0.0 ==> Scale(f, exponent) != 0.0)
    decreases if exponent < 0 then -exponent else exponent
  {
    if exponent > 0 {
      ScaleSign(f * 10.0, exponent - 1);
      assert (-f) * 10.0 == -(f * 10.0);
    } else if exponent < 0 {
      ScaleSign(f / 10.0, exponent + 1);
      assert (-f) / 10.0 == -(f / 10.0);
    }
  }

  // ---------- reading a decimal

  // what follows the whole part
  lemma WholeRuns(d: Decimal, more: string)
    requires Within(d) && !IsDigit(Head(more))
    ensures IntegerLiteral(Sign(d) + d.whole + more) == Got(Front(d), more)
  {
    var s, n := d.whole + more, Whole(d.whole, 0);
    DigitsRun(d.whole, 0, more);
    LiteralIs(s, n, more);
    assert "-" + d.whole + more == "-" + s && "" + d.whole + more == s;
  }

  lemma MantissaRuns(d: Decimal, more: string)
    requires Within(d) && !IsDigit(Head(more)) && Head(more) != '.'
    ensures Mantissa(Front(d), Dots(d) + more)
      == (if d.fraction == "" then Integer(Front(d)) else Float(Taken(d)), more)
  {
    hide Whole;
    var i := Front(d);
    if d.fraction == "" {
      assert "" + more == more;
    } else {
      var s := "." + d.fraction + more;
      assert s[1..] == d.fraction + more;
      FractionRun(d.fraction, i as real, 1.0, i < 0, more);
    }
  }

  lemma PowerRuns(digits: string, post: string)
    requires digits != "" && AllDigits(digits) && Whole(digits, 0) <= MAX64 && !IsDigit(Head(post))
    ensures IntegerLiteral("-" + digits + post) == Got(0 - Whole(digits, 0), post)
    ensures IntegerLiteral("+" + digits + post) == Got(0, "+" + digits + post)
  {
    DigitsRun(digits, 0, post);
    LiteralIs(digits + post, Whole(digits, 0), post);
    assert "-" + digits + post == "-" + (digits + post);
  }

  // the number literal step by step
  lemma LiteralParts(s: string, i: int, rest: string, number: Json, more: string)
    requires IntegerLiteral(s) == Got(i, rest) && Mantissa(i, rest) == (number, more)
    ensures Head(more) != 'e' && Head(more) != 'E' ==> NumberLiteral(s) == Got(number, more)
    ensures Head(more) == 'e' && IntegerLiteral(more[1..]).Got? && (number.Integer? || number.Float?) ==>
              NumberLiteral(s) == Got(Exponent(number, IntegerLiteral(more[1..]).value), IntegerLiteral(more[1..]).rest)
  {
    hide IntegerLiteral, Mantissa, Exponent, Suffix;
  }

  ghost function Expected(d: Decimal, post: string): Outcome<Json>
    requires Within(d)
  {
    match d.power
    case NoPower => Got(if d.fraction == "" then Integer(Front(d)) else Float(Taken(d)), post)
    case Up(digits) => Got(Float(Taken(d)), "+" + digits + post)
    case Down(digits) => Got(Float(Scale(Taken(d), 0 - Whole(digits, 0))), post)
  }

  lemma TextParts(d: Decimal, post: string)
    ensures Text(d) + post == Sign(d) + d.whole + (Dots(d) + (Tail(d.power) + post))
  {
    hide Sign, Dots, Tail;
    assert Text(d) + post == Sign(d) + d.whole + ((Dots(d) + Tail(d.power)) + post);
  }

  lemma ExponentIs(number: Json, f: real, e: int)
    requires number == Float(f) || (number.Integer? && number.value as real == f)
    requires e <= 0
    ensures Exponent(number, e) == Float(Scale(f, e)) && Scale(f, 0) == f
  {
  }

  lemma TakenWhole(d: Decimal)
    requires Within(d) && d.fraction == ""
    ensures Taken(d) == Front(d) as real
  {
    assert Part("", 1.0) == 0.0;
  }

  // what the parser makes of every such text
  lemma DecimalRead(d: Decimal, post: string)
    requires Within(d) && Stops(post)
    ensures NumberLiteral(Text(d) + post) == Expected(d, post)
  {
    hide Whole, Taken, Scale, NumberLiteral, IntegerLiteral, Mantissa, Exponent, Text, Tail, Front, Dots, Sign;
    TextParts(d, post);
    var more := Tail(d.power) + post;
    var number := if d.fraction == "" then Integer(Front(d)) else Float(Taken(d));
    TailIs(d.power, post);
    WholeThen(d, more);
    MantissaRuns(d, more);
    LiteralParts(Text(d) + post, Front(d), Dots(d) + more, number, more);
    if d.fraction == "" { TakenWhole(d); }
    if !d.power.NoPower? {
      PowerRuns(d.power.digits, post);
      ExponentIs(number, Taken(d), 0);
      if d.power.Down? { ExponentIs(number, Taken(d), 0 - Whole(d.power.digits, 0)); }
    }
  }

  lemma WholeThen(d: Decimal, more: string)
    requires Within(d) && !IsDigit(Head(more)) && Head(more) != '.'
    ensures IntegerLiteral(Sign(d) + d.whole + (Dots(d) + more)) == Got(Front(d), Dots(d) + more)
  {
    hide IntegerLiteral, Front, Whole;
    assert !IsDigit(Head(Dots(d) + more)) by {
      assert d.fraction == "" ==> Dots(d) + more == more;
    }
    WholeRuns(d, Dots(d) + more);
  }

  lemma TailIs(power: Power, post: string)
    requires Stops(post)
    ensures !IsDigit(Head(post)) && Head(post) != 'e' && Head(post) != 'E' && Head(post) != '.'
    ensures power.NoPower? ==> Tail(power) + post == post
    ensures !power.NoPower? ==> Head(Tail(power) + post) == 'e'
    ensures power.Up? ==> (Tail(power) + post)[1..] == "+" + power.digits + post
    ensures power.Down? ==> (Tail(power) + post)[1..] == "-" + power.digits + post
  {
    if post != "" { assert !IsWord(post[0]); }
    hide Stops;
    match power
    case NoPower => assert "" + post == post;
    case Up(digits) => assert "e+" + digits + post == "e" + ("+" + digits + post);
    case Down(digits) => assert "e-" + digits + post == "e" + ("-" + digits + post);
  }

  // ---------- which texts read back

  // A power of ten with a plus sign is not taken, a text without point and power is an integer, and the sign of a
  // value between minus one and zero is lost.
  ghost predicate ReadsBack(d: Decimal)
    requires Within(d)
  {
    (d.power.Down? || (d.power.NoPower? && d.fraction != "")) && !SignLost(d)
  }

  lemma TakenSigned(d: Decimal)
    requires Within(d)
    ensures Taken(d) == (if SignLost(d) then -1.0 else 1.0) * (if d.negative then -Size(d) else Size(d))
    ensures SignLost(d) ==> Taken(d) != 0.0
  {
    hide Part, Whole;
    PartGrows(d.fraction, 1.0);
  }

  // reading gives the meaning, up to a lost sign
  lemma TakenMeans(d: Decimal)
    requires Within(d) && !d.power.Up?
    ensures Scale(Taken(d), Shift(d.power)) == Meaning(d) <==> !SignLost(d)
  {
    hide Taken, SignLost, Size, Scale;
    TakenSigned(d);
    ScaleSign(Taken(d), Shift(d.power));
  }

  lemma ExpectedIs(d: Decimal, post: string)
    requires Within(d)
    ensures d.power.Up? ==> Expected(d, post).rest != post
    ensures d.power.NoPower? && d.fraction == "" ==> Expected(d, post) == Got(Integer(Front(d)), post)
    ensures d.power.Down? || (d.power.NoPower? && d.fraction != "") ==>
              Expected(d, post) == Got(Float(Scale(Taken(d), Shift(d.power))), post)
  {
    hide Taken, Front;
    if d.power.Up? { assert |"+" + d.power.digits + post| > |post|; }
  }

  lemma TextKinds(d: Decimal, post: string)
    requires Within(d)
    ensures Text(d) + post != "" && (IsDigit((Text(d) + post)[0]) || (Text(d) + post)[0] == '-') && '\0' !in Text(d)
  {
    hide Whole;
    assert '\0' !in d.whole && '\0' !in d.fraction && (!d.power.NoPower? ==> '\0' !in d.power.digits);
    assert Sign(d) + d.whole + (Dots(d) + Tail(d.power)) == Text(d);
  }

  lemma DecimalValue(d: Decimal, post: string)
    requires Within(d) && Stops(post)
    ensures ReadValue(Text(d) + post) == Expected(d, post)
  {
    hide *;
    TextKinds(d, post);
    ValueKinds(Text(d) + post);
    DecimalRead(d, post);
  }

  // The text of a value reads back as the value exactly when it is of a kind that does.
  lemma DecimalShows(image: real -> string, f: real, d: Decimal)
    requires Within(d) && image(f) == Text(d) && Meaning(d) == f
    ensures Shows(image, f) <==> ReadsBack(d)
  {
    hide Text, Stops, ReadValue, Meaning, Expected, Taken, Scale, SignLost, Front, Within;
    TextKinds(d, "");
    StopsNothing();
    forall post | Stops(post) ensures ReadValue(image(f) + post) == Got(Float(f), post) <==> ReadsBack(d) {
      DecimalValue(d, post);
      ExpectedIs(d, post);
      if !d.power.Up? { TakenMeans(d); }
    }
  }

  lemma StopsNothing()
    ensures Stops("")
  {
  }
}
