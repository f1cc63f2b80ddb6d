/**
 * The two Python built-ins the coordinate conversion leans on:
 *  - `float(s)` on a comma field, modelled as a partial parser over plain
 *    decimal literals `[+-]? (digits [. digits?] | . digits)` that returns
 *    `None` where Python raises `ValueError`;
 *  - `int(x)` on a float, which truncates toward zero.
 * Exact `real` arithmetic stands in for IEEE-754 doubles.
 */
module NumericText {
  import opened Wrappers

  predicate IsDigit(c: char) { '0' <= c <= '9' }

  predicate AllDigits(s: string) { forall i | 0 <= i < |s| :: IsDigit(s[i]) }

  predicate HasDigit(s: string) { exists i | 0 <= i < |s| :: IsDigit(s[i]) }

  function DigitValue(c: char): (d: nat)
    requires IsDigit(c)
    ensures d <= 9
  {
    c as int - '0' as int
  }

  function DigitChar(d: nat): (c: char)
    requires d <= 9
    ensures IsDigit(c) && DigitValue(c) == d
  {
    ('0' as int + d) as char
  }

  /** Value of a run of decimal digits, most significant first. */
  function IntValue(s: string): nat
    requires AllDigits(s)
  {
    if s == [] then 0 else IntValue(s[..|s| - 1]) * 10 + DigitValue(s[|s| - 1])
  }

  /** Value of the digits after a decimal point: "038" is 0.038. */
  function FracValue(s: string): (f: real)
    requires AllDigits(s)
    ensures 0.0 <= f < 1.0
  {
    if s == [] then 0.0 else (DigitValue(s[0]) as real + FracValue(s[1..])) / 10.0
  }

  /** Index of the first occurrence of `c` in `s`. */
  function IndexOf(s: string, c: char): (k: nat)
    requires c in s
    ensures k < |s| && s[k] == c && c !in s[..k]
  {
    if s[0] == c then 0 else 1 + IndexOf(s[1..], c)
  }

  /** The digits either side of a decimal point; at least one of the two runs must be non-empty. */
  function ParsePointed(whole: string, frac: string): Option<real>
  {
    if AllDigits(whole) && AllDigits(frac) && (whole != [] || frac != []) then
      Some(IntValue(whole) as real + FracValue(frac))
    else
      None
  }

  /** An unsigned literal: digits, optionally followed by a point and more digits; at least one digit in all. */
  function ParseUnsigned(s: string): Option<real>
  {
    if '.' in s then
      var k := IndexOf(s, '.');
      ParsePointed(s[..k], s[k + 1..])
    else if s != [] && AllDigits(s) then
      Some(IntValue(s) as real)
    else
      None
  }

  /**
   * Python's `float(s)` on a plain decimal literal with an optional sign;
   * `None` stands for `ValueError`. Text without a single digit (the empty
   * field, a sign or a point alone, a hemisphere letter) never parses.
   */
  function ParseFloat(s: string): (r: Option<real>)
    ensures r.Some? ==> HasDigit(s)
  {
    if s != [] && s[0] == '-' then
      match ParseUnsigned(s[1..])
      case None => None
      case Some(v) => Some(-v)
    else if s != [] && s[0] == '+' then
      ParseUnsigned(s[1..])
    else
      ParseUnsigned(s)
  }

  /** Python's `int(x)` on a float: the integer part, truncated toward zero. */
  function Trunc(x: real): (t: int)
    ensures 0.0 <= x ==> 0 <= t && t as real <= x < t as real + 1.0
    ensures x < 0.0 ==> t <= 0 && t as real - 1.0 < x <= t as real
  {
    if x >= 0.0 then x.Floor else -((-x).Floor)
  }

  /** Decimal rendering of a natural number, without leading zeros. */
  function NatToString(n: nat): (s: string)
    ensures s != [] && AllDigits(s)
  {
    if n < 10 then [DigitChar(n)] else NatToString(n / 10) + [DigitChar(n % 10)]
  }

  // ---------------------------------------------------------------------------
  // Properties of the parser

  lemma {:induction false} NatToStringValue(n: nat)
    ensures IntValue(NatToString(n)) == n
  {
    if n >= 10 {
      var s := NatToString(n);
      assert s[..|s| - 1] == NatToString(n / 10);
      NatToStringValue(n / 10);
    }
  }

  /** Rendering a natural number and reading it back with `float` gives the number. */
  lemma NatRoundTrip(n: nat)
    ensures ParseFloat(NatToString(n)) == Some(n as real)
  {
    var s := NatToString(n);
    assert IsDigit(s[0]);
    NatToStringValue(n);
  }

  lemma {:induction false} IndexOfAfter(a: string, c: char, b: string)
    requires c !in a
    ensures c in a + [c] + b && IndexOf(a + [c] + b, c) == |a|
  {
    if a != [] {
      assert (a + [c] + b)[1..] == a[1..] + [c] + b;
      IndexOfAfter(a[1..], c, b);
    }
  }

  lemma UnsignedAtPoint(whole: string, frac: string)
    requires '.' !in whole
    ensures ParseUnsigned(whole + "." + frac) == ParsePointed(whole, frac)
  {
    var s := whole + "." + frac;
    assert s == whole + ['.'] + frac;
    IndexOfAfter(whole, '.', frac);
    assert s[..|whole|] == whole && s[|whole| + 1..] == frac;
  }

  lemma DigitsHaveNoPoint(s: string)
    requires AllDigits(s)
    ensures '.' !in s
  {
  }

  lemma UnsignedWhenDigitFirst(whole: string, frac: string)
    requires whole != [] && IsDigit(whole[0])
    ensures ParseFloat(whole + "." + frac) == ParseUnsigned(whole + "." + frac)
  {
    assert (whole + "." + frac)[0] == whole[0];
  }

  lemma PointedValue(whole: string, frac: string)
    requires AllDigits(whole) && AllDigits(frac) && (whole != [] || frac != [])
    ensures ParsePointed(whole, frac) == Some(IntValue(whole) as real + FracValue(frac))
  {
  }

  /**
   * A literal `whole.frac` of digits, either side possibly empty but not both,
   * parses to its whole part plus its fraction.
   */
  lemma ParseDecimal(whole: string, frac: string)
    requires AllDigits(whole) && AllDigits(frac) && (whole != [] || frac != [])
    ensures ParseFloat(whole + "." + frac) == Some(IntValue(whole) as real + FracValue(frac))
  {
    if whole == [] {
      assert (whole + "." + frac)[0] == '.';
    } else {
      UnsignedWhenDigitFirst(whole, frac);
    }
    DigitsHaveNoPoint(whole);
    UnsignedAtPoint(whole, frac);
    PointedValue(whole, frac);
  }

  /** A leading minus negates the value and fails exactly when the rest fails. */
  lemma ParseNegated(t: string)
    requires t == [] || (t[0] != '-' && t[0] != '+')
    ensures ParseFloat("-" + t).Some? == ParseFloat(t).Some?
    ensures ParseFloat(t).Some? ==> ParseFloat("-" + t).value == -ParseFloat(t).value
  {
  }

  /** A leading plus is accepted and leaves the value unchanged. */
  lemma ParsePlus(t: string)
    requires t == [] || (t[0] != '-' && t[0] != '+')
    ensures ParseFloat("+" + t) == ParseFloat(t)
  {
  }

  // ---------------------------------------------------------------------------
  // The grammar the parser accepts

  /** Digits, or a single point with digits (possibly none) on either side and at least one digit in all. */
  predicate IsUnsignedLiteral(s: string)
  {
    (s != [] && AllDigits(s)) ||
    exists k | 0 <= k < |s| :: s[k] == '.' && |s| > 1 && AllDigits(s[..k]) && AllDigits(s[k + 1..])
  }

  /** An unsigned literal, optionally preceded by one `+` or `-`. */
  predicate IsLiteral(s: string)
  {
    IsUnsignedLiteral(s) || (s != [] && (s[0] == '+' || s[0] == '-') && IsUnsignedLiteral(s[1..]))
  }

  /** With a point, the parser succeeds only on a literal of the grammar. */
  lemma PointedSound(s: string)
    requires '.' in s && ParseUnsigned(s).Some?
    ensures IsUnsignedLiteral(s)
  {
    var k := IndexOf(s, '.');
    assert ParsePointed(s[..k], s[k + 1..]).Some?;
    assert s[k] == '.' && |s| > 1 && AllDigits(s[..k]) && AllDigits(s[k + 1..]);
  }

  /** With a point, every literal of the grammar parses. */
  lemma PointedComplete(s: string)
    requires '.' in s && IsUnsignedLiteral(s)
    ensures ParseUnsigned(s).Some?
  {
    var k0 := IndexOf(s, '.');
    assert !(s != [] && AllDigits(s)) by { assert !IsDigit(s[k0]); }
    var k :| 0 <= k < |s| && s[k] == '.' && |s| > 1 && AllDigits(s[..k]) && AllDigits(s[k + 1..]);
    assert forall j | 0 <= j < k0 :: s[..k0][j] == s[j] != '.';
    assert forall j | 0 <= j < k :: s[..k][j] == s[j] != '.';
    assert k == k0;
    assert ParseUnsigned(s) == ParsePointed(s[..k], s[k + 1..]);
  }

  lemma UnsignedGrammar(s: string)
    ensures ParseUnsigned(s).Some? <==> IsUnsignedLiteral(s)
  {
    if '.' in s {
      if ParseUnsigned(s).Some? { PointedSound(s); }
      if IsUnsignedLiteral(s) { PointedComplete(s); }
    } else {
      assert forall k | 0 <= k < |s| :: s[k] != '.';
    }
  }

  /** A text that starts with a sign is not an unsigned literal. */
  lemma SignedNotUnsigned(s: string)
    requires s != [] && (s[0] == '-' || s[0] == '+')
    ensures !IsUnsignedLiteral(s)
  {
    assert !IsDigit(s[0]);
    forall k | 0 <= k < |s| && s[k] == '.'
      ensures !AllDigits(s[..k])
    {
      assert s[..k][0] == s[0];
    }
  }

  /**
   * `float` succeeds exactly on the literals of the grammar: `".5"` and `"+7"`
   * parse, while `"12a"`, `"1.2.3"`, `"48-07"` and `"+-1"` raise `ValueError`.
   */
  lemma {:induction false} FloatGrammar(s: string)
    ensures ParseFloat(s).Some? <==> IsLiteral(s)
  {
    if s != [] && (s[0] == '-' || s[0] == '+') {
      UnsignedGrammar(s[1..]);
      SignedNotUnsigned(s);
    } else {
      UnsignedGrammar(s);
    }
  }

  /** Literals Python accepts without an integer part or with a plus sign. */
  lemma AcceptedExamples()
    ensures ParseFloat(".5") == Some(0.5) && ParseFloat("+7") == Some(7.0)
  {
    assert ".5"[..0] == [] && ".5"[1..] == "5" && "5"[1..] == [];
    assert "+7"[1..] == "7" && "7"[..0] == [];
  }

  lemma SecondPointRejected()
    ensures ParseFloat("1.2.3") == None
  {
    assert "1.2.3"[1] == '.' && "1.2.3"[2..] == "2.3" && !IsDigit("2.3"[1]);
  }

  lemma LetterRejected()
    ensures ParseFloat("12a") == None
  {
    assert !IsDigit("12a"[2]);
  }

  lemma InnerSignRejected()
    ensures ParseFloat("48-07") == None
  {
    assert !IsDigit("48-07"[2]);
  }

  lemma DoubleSignRejected()
    ensures ParseFloat("+-1") == None
  {
    assert "+-1"[1..][0] == '-';
  }

  /** Texts with digits that Python rejects with `ValueError`: a second point, a letter, an inner or a doubled sign. */
  lemma RejectedExamples()
    ensures ParseFloat("1.2.3") == None && ParseFloat("12a") == None
    ensures ParseFloat("48-07") == None && ParseFloat("+-1") == None
  {
    SecondPointRejected();
    LetterRejected();
    InnerSignRejected();
    DoubleSignRejected();
  }
}
