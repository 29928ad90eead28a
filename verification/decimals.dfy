/**
 Plain decimal literals `[+-]?digits(.digits)?`, the part of Python's `Decimal(text)`
 constructor grammar that product revenues use, with their exact value as a `real`.
 */
module Decimals {
  import opened Wrappers
  import opened Strings

  datatype Sign = Unsigned | Plus | Minus

  /** A decimal literal: an optional sign, integer digits, optional fraction digits. */
  datatype DecimalLit = DecimalLit(sign: Sign, whole: string, fraction: Option<string>)

  predicate IsDigit(c: char)
  {
    '0' <= c <= '9'
  }

  predicate AllDigits(s: string)
  {
    forall i :: 0 <= i < |s| ==> IsDigit(s[i])
  }

  /** A non-empty run of decimal digits. */
  predicate IsDigits(s: string)
  {
    |s| > 0 && AllDigits(s)
  }

  predicate WellFormed(d: DecimalLit)
  {
    IsDigits(d.whole) && (d.fraction.Some? ==> IsDigits(d.fraction.value))
  }

  function SignText(s: Sign): string
  {
    match s
    case Unsigned => ""
    case Plus => "+"
    case Minus => "-"
  }

  /** The text of a literal: sign, digits, and `.` with the fraction when there is one. */
  function Render(d: DecimalLit): string
  {
    SignText(d.sign) + d.whole + (match d.fraction case None => "" case Some(f) => "." + f)
  }

  /** Separates a leading `+` or `-` from the rest of the text. */
  function SplitSign(s: string): (Sign, string)
  {
    if |s| > 0 && s[0] == '+' then (Plus, s[1..])
    else if |s| > 0 && s[0] == '-' then (Minus, s[1..])
    else (Unsigned, s)
  }

  /**
   Reads a decimal literal; any other text is a parse error (Python raises
   `decimal.InvalidOperation`). Whatever it accepts is well formed and prints back
   to exactly the text it read.
   */
  function Parse(s: string): (r: Option<DecimalLit>)
    ensures r.Some? ==> WellFormed(r.value) && Render(r.value) == s
  {
    var (sign, body) := SplitSign(s);
    assert s == SignText(sign) + body;
    var parts := Split(body, ".");
    if |parts| == 1 && IsDigits(parts[0]) then
      Some(DecimalLit(sign, parts[0], None))
    else if |parts| == 2 && IsDigits(parts[0]) && IsDigits(parts[1]) then
      assert Join(parts, ".") == parts[0] + "." + parts[1];
      Some(DecimalLit(sign, parts[0], Some(parts[1])))
    else
      None
  }

  /** A run of digits holds no `.`. */
  lemma DigitsHaveNoDot(s: string)
    requires AllDigits(s)
    ensures !Contains(s, ".")
  {
    forall j | 0 <= j < |s|
      ensures !OccursAt(s, ".", j)
    {
      OccursAtChar(s, '.', j);
    }
  }

  /** Every well-formed literal is read back from its own text. */
  lemma ParseRender(d: DecimalLit)
    requires WellFormed(d)
    ensures Parse(Render(d)) == Some(d)
  {
    var s := Render(d);
    var body := d.whole + (match d.fraction case None => "" case Some(f) => "." + f);
    assert s == SignText(d.sign) + body;
    assert SplitSign(s) == (d.sign, body) by {
      assert IsDigit(d.whole[0]) && body[0] == d.whole[0];
      if d.sign == Unsigned {
        assert s == body;
      } else {
        assert s[1..] == body;
      }
    }
    DigitsHaveNoDot(d.whole);
    match d.fraction
    case None =>
      assert body == d.whole;
      SplitWithout(body, ".");
    case Some(f) =>
      assert body == d.whole + "." + f;
      DigitsHaveNoDot(f);
      SplitOnFirst(d.whole, ".", f);
      SplitWithout(f, ".");
      assert Split(body, ".") == [d.whole, f];
  }

  /** The parser accepts exactly the texts of well-formed literals. */
  lemma ParseAcceptsExactlyLiterals(s: string)
    ensures Parse(s).Some? <==> exists d :: WellFormed(d) && Render(d) == s
  {
    if exists d :: WellFormed(d) && Render(d) == s {
      var d :| WellFormed(d) && Render(d) == s;
      ParseRender(d);
    }
  }

  function DigitValue(c: char): nat
    requires IsDigit(c)
  {
    c as int - '0' as int
  }

  /** The natural number a run of digits denotes, most significant digit first. */
  function DigitsValue(s: string): nat
    requires AllDigits(s)
  {
    if |s| == 0 then 0 else DigitsValue(s[..|s| - 1]) * 10 + DigitValue(s[|s| - 1])
  }

  function Pow10(n: nat): (r: nat)
    ensures r > 0
  {
    if n == 0 then 1 else 10 * Pow10(n - 1)
  }

  /** The exact value of a literal, `sign * (whole + fraction / 10^|fraction|)`. */
  function Value(d: DecimalLit): real
    requires WellFormed(d)
  {
    var magnitude := DigitsValue(d.whole) as real
      + (match d.fraction
         case None => 0.0
         case Some(f) => DigitsValue(f) as real / Pow10(|f|) as real);
    if d.sign == Minus then -magnitude else magnitude
  }

  /** Digits denote less than the next power of ten, so the fraction part is below one. */
  lemma {:induction false} DigitsBelowPow10(s: string)
    requires AllDigits(s)
    ensures DigitsValue(s) < Pow10(|s|)
  {
    if |s| > 0 {
      DigitsBelowPow10(s[..|s| - 1]);
    }
  }

  lemma FractionBelowOne(a: nat, b: nat)
    requires a < b
    ensures 0.0 <= a as real / b as real < 1.0
  {
  }

  /**
   The value lies between the integer part and the next integer, on the side the
   sign gives: an unsigned or `+` literal is never negative, a `-` literal never positive.
   */
  lemma ValueBounds(d: DecimalLit)
    requires WellFormed(d)
    ensures var w := DigitsValue(d.whole) as real;
      if d.sign == Minus then -w - 1.0 < Value(d) <= -w else w <= Value(d) < w + 1.0
  {
    match d.fraction
    case None =>
    case Some(f) =>
      DigitsBelowPow10(f);
      FractionBelowOne(DigitsValue(f), Pow10(|f|));
  }
}
