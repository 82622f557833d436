/**
 * `Decimal(x)` as the adapters use it on prices and sizes: JSON numbers are
 * already exact decimals, booleans are the integers 0 and 1, and strings are
 * read as decimal literals (sign, digits, optional fraction, optional exponent).
 */
module Numeric {
  import opened Wrappers
  import opened Errors
  import opened Json

  predicate IsDigit(c: char) {
    '0' <= c <= '9'
  }

  predicate AllDigits(s: string) {
    forall i :: 0 <= i < |s| ==> IsDigit(s[i])
  }

  function DigitOf(c: char): nat
    requires IsDigit(c)
  {
    c as int - '0' as int
  }

  function CharOf(d: nat): (c: char)
    requires d < 10
    ensures IsDigit(c) && DigitOf(c) == d
  {
    ('0' as int + d) as char
  }

  function Pow10(k: nat): (r: nat)
    ensures r >= 1
  {
    if k == 0 then 1 else 10 * Pow10(k - 1)
  }

  /** The natural number a string of decimal digits denotes (most significant first). */
  function DigitsValue(ds: string): nat
    requires AllDigits(ds)
  {
    if |ds| == 0 then 0 else 10 * DigitsValue(ds[..|ds| - 1]) + DigitOf(ds[|ds| - 1])
  }

  /** The length of the run of digits `s` starts with. */
  function DigitRun(s: string): (n: nat)
    ensures n <= |s| && AllDigits(s[..n])
    ensures n < |s| ==> !IsDigit(s[n])
  {
    if |s| == 0 || !IsDigit(s[0]) then 0
    else
      var n := 1 + DigitRun(s[1..]);
      assert s[..n] == [s[0]] + s[1..][..n - 1];
      n
  }

  /** 10 raised to an integer exponent, as an exact rational. */
  function Scale(e: int): (r: real)
    ensures r > 0.0
  {
    if e >= 0 then Pow10(e) as real else 1.0 / Pow10(-e) as real
  }

  /** The parts of a decimal literal: sign, integer digits, fraction digits, exponent. */
  datatype Literal = Literal(negative: bool, whole: string, fraction: string, exponent: int)

  ghost predicate WellFormed(l: Literal) {
    AllDigits(l.whole) && AllDigits(l.fraction) && |l.whole| + |l.fraction| > 0
  }

  function LiteralValue(l: Literal): real
    requires AllDigits(l.whole) && AllDigits(l.fraction)
  {
    var magnitude := (DigitsValue(l.whole) as real
                      + DigitsValue(l.fraction) as real / Pow10(|l.fraction|) as real) * Scale(l.exponent);
    if l.negative then -magnitude else magnitude
  }

  /** An exponent: an optional sign followed by at least one digit, and nothing else. */
  function ReadExponent(s: string): (r: Option<int>)
  {
    var negative := |s| > 0 && s[0] == '-';
    var digits := if |s| > 0 && (s[0] == '-' || s[0] == '+') then s[1..] else s;
    if |digits| > 0 && DigitRun(digits) == |digits| then
      assert digits[..|digits|] == digits;
      var e: int := DigitsValue(digits);
      Some(if negative then -e else e)
    else None
  }

  /** Splits a decimal literal into its parts; `None` when `s` is not one. */
  function ReadLiteral(s: string): (r: Option<Literal>)
    ensures r.Some? ==> WellFormed(r.value)
  {
    var negative := |s| > 0 && s[0] == '-';
    var body := if |s| > 0 && (s[0] == '-' || s[0] == '+') then s[1..] else s;
    var w := DigitRun(body);
    var rest := body[w..];
    var hasPoint := |rest| > 0 && rest[0] == '.';
    var afterPoint := if hasPoint then rest[1..] else "";
    var f := DigitRun(afterPoint);
    var tail := if hasPoint then afterPoint[f..] else rest;
    var l := Literal(negative, body[..w], afterPoint[..f], 0);
    if w + f == 0 then None
    else if tail == "" then Some(l)
    else if tail[0] == 'e' || tail[0] == 'E' then
      match ReadExponent(tail[1..])
      case Some(e) => Some(l.(exponent := e))
      case None => None
    else None
  }

  /** The exact value of a decimal literal, or `None` (Python raises InvalidOperation). */
  function ParseDecimal(s: string): (r: Option<real>)
  {
    match ReadLiteral(s)
    case Some(l) => Some(LiteralValue(l))
    case None => None
  }

  /**
   * Python's `Decimal(v)` applied to a parsed JSON value: numbers are exact,
   * `True`/`False` are 1 and 0, strings must be decimal literals, `None` and
   * dicts are refused with TypeError and lists with ValueError.
   */
  function ToDecimal(v: Json): (r: Result<real, Error>)
    ensures v.JNum? ==> r == Success(v.n)
    ensures v.JBool? ==> r == Success(if v.b then 1.0 else 0.0)
    ensures v.JStr? ==> (r.Success? <==> ParseDecimal(v.s).Some?)
    ensures v.JStr? && r.Success? ==> Some(r.value) == ParseDecimal(v.s)
    ensures v.JStr? && r.Failure? ==> r.error == InvalidDecimal
    ensures v.JNull? || v.JObj? ==> r == Failure(TypeError)
    ensures v.JArr? ==> r == Failure(InvalidDecimal)
  {
    match v
    case JNum(n) => Success(n)
    case JBool(b) => Success(if b then 1.0 else 0.0)
    case JStr(s) =>
      (match ParseDecimal(s)
       case Some(x) => Success(x)
       case None => Failure(InvalidDecimal))
    case JArr(_) => Failure(InvalidDecimal)
    case _ => Failure(TypeError)
  }

  // ---------------------------------------------------------------------------
  // Rendering, the partner of the parser: `DecimalText(units, scale)` writes
  // units / 10^scale with exactly `scale` fraction digits.

  /** The shortest digit string of a natural number. */
  function NatText(n: nat): (s: string)
    ensures |s| > 0 && AllDigits(s)
  {
    if n < 10 then [CharOf(n)] else NatText(n / 10) + [CharOf(n % 10)]
  }

  /** The last `k` digits of `n`, zero-padded to exactly `k` characters. */
  function PaddedText(n: nat, k: nat): (s: string)
    ensures |s| == k && AllDigits(s)
  {
    if k == 0 then "" else PaddedText(n / 10, k - 1) + [CharOf(n % 10)]
  }

  /** The text of units / 10^scale with exactly `scale` fraction digits. */
  function DecimalText(units: int, scale: nat): string {
    var l := TextLiteral(units, scale);
    PlainText(l.negative, l.whole, l.fraction)
  }

  function Quotient(a: nat, b: nat): (q: nat)
    requires b > 0
    ensures a == q * b + Remainder(a, b)
  {
    a / b
  }

  function Remainder(a: nat, b: nat): (r: nat)
    requires b > 0
    ensures r < b
  {
    a % b
  }


  lemma {:induction false} DigitsValueSnoc(s: string, c: char)
    requires AllDigits(s) && IsDigit(c)
    ensures AllDigits(s + [c])
    ensures DigitsValue(s + [c]) == 10 * DigitsValue(s) + DigitOf(c)
  {
    assert (s + [c])[..|s|] == s;
  }

  lemma {:induction false} NatTextValue(n: nat)
    ensures DigitsValue(NatText(n)) == n
  {
    if n < 10 {
      assert NatText(n) == [] + [CharOf(n)];
      DigitsValueSnoc([], CharOf(n));
    } else {
      NatTextValue(n / 10);
      DigitsValueSnoc(NatText(n / 10), CharOf(n % 10));
    }
  }

  lemma {:induction false} PaddedTextValue(n: nat, k: nat)
    requires n < Pow10(k)
    ensures DigitsValue(PaddedText(n, k)) == n
  {
    if k > 0 {
      assert n / 10 < Pow10(k - 1);
      PaddedTextValue(n / 10, k - 1);
      DigitsValueSnoc(PaddedText(n / 10, k - 1), CharOf(n % 10));
    }
  }

  /** A run of digits followed by a non-digit is read up to the non-digit. */
  lemma {:induction false} DigitRunOver(a: string, b: string)
    requires AllDigits(a)
    requires |b| == 0 || !IsDigit(b[0])
    ensures DigitRun(a + b) == |a|
  {
    if |a| > 0 {
      assert (a + b)[1..] == a[1..] + b;
      DigitRunOver(a[1..], b);
    } else {
      assert a + b == b;
    }
  }

  /** The literal `DecimalText(units, scale)` is read back as. */
  function TextLiteral(units: int, scale: nat): Literal {
    var magnitude: nat := if units < 0 then -units else units;
    var p := Pow10(scale);
    Literal(units < 0, NatText(Quotient(magnitude, p)),
            if scale == 0 then "" else PaddedText(Remainder(magnitude, p), scale), 0)
  }

  /** Sign, integer digits and (when non-empty) a point and fraction digits, as text. */
  function PlainText(negative: bool, whole: string, fraction: string): string {
    (if negative then "-" else "") + whole + (if |fraction| == 0 then "" else "." + fraction)
  }

  lemma {:induction false} ReadPlainText(negative: bool, whole: string, fraction: string)
    requires AllDigits(whole) && |whole| > 0 && AllDigits(fraction)
    ensures ReadLiteral(PlainText(negative, whole, fraction)) == Some(Literal(negative, whole, fraction, 0))
  {
    if |fraction| == 0 {
      ReadPlainWhole(negative, whole);
      assert fraction == "";
    } else {
      ReadPlainFraction(negative, whole, fraction);
    }
  }

  /** The body of `PlainText` after its sign, and the integer digits read from it. */
  lemma {:induction false} PlainBody(negative: bool, whole: string, tailText: string)
    requires AllDigits(whole) && |whole| > 0
    requires |tailText| == 0 || tailText[0] == '.'
    ensures var s := (if negative then "-" else "") + whole + tailText;
      var body := whole + tailText;
      && body == (if |s| > 0 && (s[0] == '-' || s[0] == '+') then s[1..] else s)
      && negative == (|s| > 0 && s[0] == '-')
      && DigitRun(body) == |whole|
      && body[..|whole|] == whole
      && body[|whole|..] == tailText
  {
    var s := (if negative then "-" else "") + whole + tailText;
    var body := whole + tailText;
    assert s == (if negative then "-" else "") + body;
    assert body[0] == whole[0];
    DigitRunOver(whole, tailText);
  }

  lemma {:induction false} ReadPlainWhole(negative: bool, whole: string)
    requires AllDigits(whole) && |whole| > 0
    ensures ReadLiteral(PlainText(negative, whole, "")) == Some(Literal(negative, whole, "", 0))
  {
    PlainBody(negative, whole, "");
    assert PlainText(negative, whole, "") == (if negative then "-" else "") + whole + "";
  }

  lemma {:induction false} ReadPlainFraction(negative: bool, whole: string, fraction: string)
    requires AllDigits(whole) && |whole| > 0 && AllDigits(fraction) && |fraction| > 0
    ensures ReadLiteral(PlainText(negative, whole, fraction)) == Some(Literal(negative, whole, fraction, 0))
  {
    var tailText := "." + fraction;
    PlainBody(negative, whole, tailText);
    assert PlainText(negative, whole, fraction) == (if negative then "-" else "") + whole + tailText;
    assert tailText[1..] == fraction;
    DigitRunOver(fraction, "");
    assert fraction + "" == fraction;
    assert fraction[..|fraction|] == fraction;
    assert fraction[|fraction|..] == "";
  }

  lemma ReadDecimalText(units: int, scale: nat)
    ensures ReadLiteral(DecimalText(units, scale)) == Some(TextLiteral(units, scale))
  {
    var l := TextLiteral(units, scale);
    ReadPlainText(l.negative, l.whole, l.fraction);
  }

  lemma SignedSplit(units: int, q: nat, r: nat, p: nat)
    requires p > 0
    requires (if units < 0 then -units else units) == q * p + r
    ensures (var m := q as real + r as real / p as real; if units < 0 then -m else m) == units as real / p as real
  {
    var m := q as real + r as real / p as real;
    var magnitude: nat := if units < 0 then -units else units;
    assert (q * p) as real == q as real * p as real;
    assert m * p as real == magnitude as real;
    assert m == magnitude as real / p as real;
  }

  lemma LiteralValueZero(l: Literal)
    requires AllDigits(l.whole) && AllDigits(l.fraction) && l.exponent == 0
    ensures LiteralValue(l) == (var m := DigitsValue(l.whole) as real + DigitsValue(l.fraction) as real / Pow10(|l.fraction|) as real; if l.negative then -m else m)
  {
    assert Scale(0) == 1.0;
  }

  /** The digits of `TextLiteral(units, scale)` denote the quotient and remainder of |units| by 10^scale. */
  lemma TextLiteralDigits(units: int, scale: nat)
    ensures var l := TextLiteral(units, scale);
      var magnitude: nat := if units < 0 then -units else units;
      && AllDigits(l.whole) && |l.whole| > 0 && AllDigits(l.fraction) && |l.fraction| == scale
      && DigitsValue(l.whole) == Quotient(magnitude, Pow10(scale))
      && DigitsValue(l.fraction) == Remainder(magnitude, Pow10(scale))
  {
    var magnitude: nat := if units < 0 then -units else units;
    var p := Pow10(scale);
    NatTextValue(Quotient(magnitude, p));
    if scale > 0 {
      PaddedTextValue(Remainder(magnitude, p), scale);
    } else {
      assert Remainder(magnitude, p) == 0;
    }
  }

  lemma TextLiteralValue(units: int, scale: nat)
    ensures WellFormed(TextLiteral(units, scale))
    ensures LiteralValue(TextLiteral(units, scale)) == units as real / Pow10(scale) as real
  {
    var magnitude: nat := if units < 0 then -units else units;
    var p := Pow10(scale);
    var q, r := Quotient(magnitude, p), Remainder(magnitude, p);
    var l := TextLiteral(units, scale);
    TextLiteralDigits(units, scale);
    LiteralValueZero(l);
    SignedSplit(units, q, r, p);
  }

  /** Round trip: parsing the text of units / 10^scale gives back exactly that value. */
  lemma ParseDecimalText(units: int, scale: nat)
    ensures ParseDecimal(DecimalText(units, scale)) == Some(units as real / Pow10(scale) as real)
  {
    ReadDecimalText(units, scale);
    TextLiteralValue(units, scale);
  }

  /** Decimal strings are read exactly: "0.1" is one tenth, not a binary approximation. */
  lemma ExactTenth()
    ensures ParseDecimal("0.1") == Some(0.1)
  {
    calc {
      ParseDecimal("0.1");
    == { TenthText(); }
      ParseDecimal(DecimalText(1, 1));
    == { ParseDecimalText(1, 1); }
      Some(1 as real / Pow10(1) as real);
    == { TenthValue(); }
      Some(0.1);
    }
  }

  lemma TenthValue()
    ensures 1 as real / Pow10(1) as real == 0.1
  {
    assert Pow10(1) == 10;
  }

  lemma TenthText()
    ensures DecimalText(1, 1) == "0.1"
  {
    assert Pow10(1) == 10;
    assert Quotient(1, 10) == 0 && Remainder(1, 10) == 1;
    assert NatText(0) == "0";
    assert PaddedText(1, 1) == "" + "1";
    assert TextLiteral(1, 1) == Literal(false, "0", "1", 0);
  }

  /** A character that can appear in a decimal literal: a digit, a sign, the point or an exponent mark. */
  predicate LiteralChar(c: char) {
    IsDigit(c) || c == '+' || c == '-' || c == '.' || c == 'e' || c == 'E'
  }

  predicate LiteralChars(s: string) {
    forall i :: 0 <= i < |s| ==> LiteralChar(s[i])
  }

  /**
   * The shape of every string the parser accepts: it is built from digits,
   * signs, the point and exponent marks only, contains a digit, and ends in
   * a digit or the point. Every other string raises InvalidOperation.
   */
  lemma LiteralShape(s: string)
    ensures ParseDecimal(s).Some? ==>
      && LiteralChars(s)
      && (exists i :: 0 <= i < |s| && IsDigit(s[i]))
      && (IsDigit(s[|s| - 1]) || s[|s| - 1] == '.')
  {
    if ReadLiteral(s).None? {
      return;
    }
    ReadLiteralAccepted(s);
    var sign, whole, number, tail := LiteralParts(s);
    PartsShape(sign, whole, number, tail);
  }

  /** Joining the pieces of an accepted literal gives a string of the literal's shape. */
  lemma PartsShape(sign: string, whole: string, number: string, tail: string)
    requires sign == "" || sign == "-" || sign == "+"
    requires AllDigits(whole)
    requires number == "" || (number[0] == '.' && AllDigits(number[1..]))
    requires |whole| > 0 || |number| > 1
    requires tail == "" || ((tail[0] == 'e' || tail[0] == 'E') && ReadExponent(tail[1..]).Some?)
    ensures var s := sign + whole + number + tail;
      && LiteralChars(s)
      && (exists i :: 0 <= i < |s| && IsDigit(s[i]))
      && (IsDigit(s[|s| - 1]) || s[|s| - 1] == '.')
  {
    var s := sign + whole + number + tail;
    TailShape(tail);
    assert LiteralChars(number) by {
      if number != "" {
        assert forall i :: 1 <= i < |number| ==> number[i] == number[1..][i - 1];
      }
    }
    AppendChars(sign, whole);
    AppendChars(sign + whole, number);
    AppendChars(sign + whole + number, tail);
    if |whole| > 0 {
      assert s[|sign|] == whole[0];
    } else {
      assert s[|sign| + 1] == number[1..][0];
    }
    if tail == "" {
      if |number| > 0 {
        assert s[|s| - 1] == number[|number| - 1];
      } else {
        assert s[|s| - 1] == whole[|whole| - 1];
      }
    } else {
      assert s[|s| - 1] == tail[|tail| - 1];
    }
  }

  /** The conditions under which `ReadLiteral` accepts `s`, on the same pieces it computes. */
  predicate Accepted(s: string) {
    var body := if |s| > 0 && (s[0] == '-' || s[0] == '+') then s[1..] else s;
    var w := DigitRun(body);
    var rest := body[w..];
    var hasPoint := |rest| > 0 && rest[0] == '.';
    var afterPoint := if hasPoint then rest[1..] else "";
    var f := DigitRun(afterPoint);
    var tail := if hasPoint then afterPoint[f..] else rest;
    w + f > 0 && (tail == "" || ((tail[0] == 'e' || tail[0] == 'E') && ReadExponent(tail[1..]).Some?))
  }

  lemma ReadLiteralAccepted(s: string)
    ensures ReadLiteral(s).Some? ==> Accepted(s)
  {
  }

  /** The pieces `ReadLiteral` splits an accepted string into: sign, integer digits, point and fraction digits, exponent. */
  lemma LiteralParts(s: string) returns (sign: string, whole: string, number: string, tail: string)
    requires Accepted(s)
    ensures s == sign + whole + number + tail
    ensures sign == "" || sign == "-" || sign == "+"
    ensures AllDigits(whole)
    ensures number == "" || (number[0] == '.' && AllDigits(number[1..]))
    ensures |whole| > 0 || |number| > 1
    ensures tail == "" || ((tail[0] == 'e' || tail[0] == 'E') && ReadExponent(tail[1..]).Some?)
  {
    var body := if |s| > 0 && (s[0] == '-' || s[0] == '+') then s[1..] else s;
    sign := if body == s then "" else [s[0]];
    var w := DigitRun(body);
    var rest := body[w..];
    var hasPoint := |rest| > 0 && rest[0] == '.';
    var afterPoint := if hasPoint then rest[1..] else "";
    var f := DigitRun(afterPoint);
    whole := body[..w];
    tail := if hasPoint then afterPoint[f..] else rest;
    number := if hasPoint then "." + afterPoint[..f] else "";
    if hasPoint {
      PointSplit(rest, f);
    }
    SignSplit(s);
    Split(body, w);
    Regroup(s, sign, body, whole, rest, number, tail);
  }

  lemma SignSplit(s: string)
    ensures var body := if |s| > 0 && (s[0] == '-' || s[0] == '+') then s[1..] else s;
      s == (if body == s then "" else [s[0]]) + body
  {
    if |s| > 0 && (s[0] == '-' || s[0] == '+') {
      assert s == [s[0]] + s[1..];
    }
  }

  lemma PointSplit(rest: string, f: nat)
    requires |rest| > 0 && rest[0] == '.' && f <= |rest| - 1
    ensures rest == "." + rest[1..][..f] + rest[1..][f..]
  {
    assert rest == [rest[0]] + rest[1..];
    Split(rest[1..], f);
  }

  lemma Split(x: string, k: nat)
    requires k <= |x|
    ensures x == x[..k] + x[k..]
  {
  }

  lemma Regroup(s: string, sign: string, body: string, whole: string, rest: string, number: string, tail: string)
    requires s == sign + body && body == whole + rest && rest == number + tail
    ensures s == sign + whole + number + tail
  {
  }

  /** What `ReadLiteral` accepts after the digits: nothing, or an exponent mark and a signed digit run. */
  lemma TailShape(tail: string)
    ensures tail == "" || ((tail[0] == 'e' || tail[0] == 'E') && ReadExponent(tail[1..]).Some?) ==>
      LiteralChars(tail) && (tail != "" ==> IsDigit(tail[|tail| - 1]))
  {
    if tail != "" && (tail[0] == 'e' || tail[0] == 'E') && ReadExponent(tail[1..]).Some? {
      var t := tail[1..];
      var digits := if |t| > 0 && (t[0] == '-' || t[0] == '+') then t[1..] else t;
      assert AllDigits(digits[..|digits|]);
      assert digits[..|digits|] == digits;
      assert tail[|tail| - 1] == digits[|digits| - 1];
    }
  }

  lemma AppendChars(a: string, b: string)
    requires LiteralChars(a) && LiteralChars(b)
    ensures LiteralChars(a + b)
  {
  }

  /** Strings that are not decimal literals raise InvalidOperation. */
  lemma RejectsNonLiterals()
    ensures ParseDecimal("") == None
    ensures ParseDecimal(".") == None
    ensures ParseDecimal("-") == None
    ensures ParseDecimal("1e") == None
    ensures ParseDecimal("12a") == None
  {
    LiteralShape("");
    LiteralShape(".");
    LiteralShape("-");
    LiteralShape("1e");
    LiteralShape("12a");
  }
}
