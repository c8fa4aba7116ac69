/**
 * The host number operations: `parseFloat` on strings over the alphabet
 * {0-9, '.', '-'} (the only characters left after the calculator's filters),
 * truncation and the `%` operator of JavaScript, and the floor-based
 * days/hours/minutes breakdown both duration formatters perform.
 *
 * Numbers are exact reals: IEEE-754 rounding is not modelled.
 */
module JsNumber {
  import opened Wrappers
  import opened JsText

  function Pow10(k: nat): (r: nat)
    ensures r >= 1
  {
    if k == 0 then 1 else 10 * Pow10(k - 1)
  }

  /** The value of a digit character; other characters count as 0. */
  function DigitValue(c: char): (d: nat)
    ensures d < 10
  {
    if IsDigit(c) then c as int - '0' as int else 0
  }

  /** Value of a digit string, most significant digit first. */
  function NatValue(s: string): nat {
    if s == [] then 0 else 10 * NatValue(s[..|s| - 1]) + DigitValue(s[|s| - 1])
  }

  /** Reading back the decimal text of a natural number gives the number. */
  lemma {:induction false} NatTextValue(n: nat)
    ensures NatValue(NatText(n)) == n
  {
    if n >= 10 {
      var t := NatText(n);
      assert t[..|t| - 1] == NatText(n / 10);
      NatTextValue(n / 10);
    }
  }

  // ---------------------------------------------------------------------------
  // The grammar of section 19.2.4 of ECMA-262 (parseFloat) restricted to the
  // alphabet {0-9, '.', '-'}: an optional '-' followed by
  // DecimalDigits [. DecimalDigits?] or . DecimalDigits. Over that alphabet the
  // unsigned part is exactly: digits and dots only, at most one dot, at least
  // one digit.
  // ---------------------------------------------------------------------------

  ghost predicate UnsignedLiteral(u: string) {
    && (forall i :: 0 <= i < |u| ==> IsDigit(u[i]) || u[i] == '.')
    && multiset(u)['.'] <= 1
    && (exists i :: 0 <= i < |u| && IsDigit(u[i]))
  }

  ghost predicate DecimalLiteral(p: string) {
    UnsignedLiteral(p) || (|p| > 0 && p[0] == '-' && UnsignedLiteral(p[1..]))
  }

  /** The digits of a string, in order, everything else dropped. */
  function Digits(u: string): (r: string)
    ensures AllDigits(r)
  {
    if u == [] then [] else (if IsDigit(u[0]) then [u[0]] else []) + Digits(u[1..])
  }

  /** Number of characters after the (last) dot; 0 without a dot. */
  function FracLen(u: string): nat {
    if '.' !in u then 0
    else if u[|u| - 1] == '.' then 0
    else 1 + FracLen(u[..|u| - 1])
  }

  /** A decimal number written as sign, digit value and number of fraction digits. */
  datatype Decimal = Decimal(negative: bool, digits: nat, scale: nat)

  /** The real a decimal stands for: +/- digits / 10^scale. */
  function DecimalValue(d: Decimal): real {
    var mag := d.digits as real / Pow10(d.scale) as real;
    if d.negative then -mag else mag
  }

  /** A literal read as a decimal: its digits, and the count of characters after its dot. */
  ghost function LiteralDecimal(p: string): Decimal {
    var neg := |p| > 0 && p[0] == '-';
    var u := if neg then p[1..] else p;
    Decimal(neg, NatValue(Digits(u)), FracLen(u))
  }

  /** The mathematical value of a decimal literal. */
  ghost function LiteralValue(p: string): real {
    DecimalValue(LiteralDecimal(p))
  }

  /** No prefix of `s`, the empty one included, is a decimal literal. */
  ghost predicate NoLiteralPrefix(s: string) {
    forall j :: 0 <= j <= |s| ==> !DecimalLiteral(s[..j])
  }

  ghost predicate LongestLiteralPrefix(s: string, k: int) {
    0 <= k <= |s| && DecimalLiteral(s[..k]) && forall j :: k < j <= |s| ==> !DecimalLiteral(s[..j])
  }

  // ---------------------------------------------------------------------------
  // The scanner.
  // ---------------------------------------------------------------------------

  predicate HasDot(u: string) {
    LeadingDigits(u) < |u| && u[LeadingDigits(u)] == '.'
  }

  function FracDigits(u: string): (m: nat)
    ensures HasDot(u) ==> LeadingDigits(u) + 1 + m <= |u| && AllDigits(u[LeadingDigits(u) + 1..LeadingDigits(u) + 1 + m])
    ensures HasDot(u) && LeadingDigits(u) + 1 + m < |u| ==> !IsDigit(u[LeadingDigits(u) + 1 + m])
  {
    if HasDot(u) then
      var n := LeadingDigits(u);
      var m := LeadingDigits(u[n + 1..]);
      assert u[n + 1..n + 1 + m] == u[n + 1..][..m];
      assert n + 1 + m < |u| ==> u[n + 1 + m] == u[n + 1..][m];
      m
    else 0
  }

  /** The digits the scanner reads: the integer digits followed by the fraction digits. */
  function ScannedDigits(u: string): string {
    var n := LeadingDigits(u);
    if HasDot(u) then u[..n] + u[n + 1..n + 1 + FracDigits(u)] else u[..n]
  }

  /** The decimal the scanner reads: sign, integer and fraction digits, fraction length. */
  function ScanDecimal(s: string): Decimal {
    var off := SignLength(s);
    var u := s[off..];
    Decimal(off == 1, NatValue(ScannedDigits(u)), FracDigits(u))
  }

  /**
   * `parseFloat(s)` for a string over {0-9, '.', '-'}; None stands for NaN.
   * A negative number is read only from a string that starts with '-'.
   */
  function ParseFloat(s: string): (r: Option<real>)
    ensures r.Some? && r.value < 0.0 ==> |s| > 0 && s[0] == '-'
  {
    var u := s[SignLength(s)..];
    if LeadingDigits(u) == 0 && FracDigits(u) == 0 then None
    else
      var d := ScanDecimal(s);
      DecimalSign(d);
      Some(DecimalValue(d))
  }

  /** A decimal is negative only if its sign is. */
  lemma DecimalSign(d: Decimal)
    ensures DecimalValue(d) < 0.0 ==> d.negative
  {
    assert d.digits as real / Pow10(d.scale) as real >= 0.0;
  }

  /** 1 when the string starts with '-', else 0. */
  function SignLength(s: string): (off: nat)
    ensures off <= |s|
  {
    if |s| > 0 && s[0] == '-' then 1 else 0
  }

  /** Length of the longest all-digit prefix. */
  function LeadingDigits(s: string): (n: nat)
    ensures n <= |s| && AllDigits(s[..n])
    ensures n < |s| ==> !IsDigit(s[n])
  {
    if s == [] || !IsDigit(s[0]) then 0
    else
      var k := LeadingDigits(s[1..]);
      assert s[..1 + k] == [s[0]] + s[1..][..k];
      1 + k
  }

  // ---------------------------------------------------------------------------
  // Lemmas relating the scanner to the grammar.
  // ---------------------------------------------------------------------------

  lemma {:induction false} DigitsConcat(a: string, b: string)
    ensures Digits(a + b) == Digits(a) + Digits(b)
  {
    if a == [] {
      assert a + b == b;
    } else {
      assert (a + b)[0] == a[0] && (a + b)[1..] == a[1..] + b;
      DigitsConcat(a[1..], b);
    }
  }

  lemma {:induction false} DigitsOfDigits(a: string)
    requires AllDigits(a)
    ensures Digits(a) == a
  {
    if a != [] {
      DigitsOfDigits(a[1..]);
    }
  }

  lemma {:induction false} FracLenAfterDot(a: string, b: string)
    requires AllDigits(a) && AllDigits(b)
    ensures FracLen(a + ['.'] + b) == |b|
    decreases |b|
  {
    var u := a + ['.'] + b;
    assert u[|a|] == '.';
    if b != [] {
      assert u[..|u| - 1] == a + ['.'] + b[..|b| - 1];
      FracLenAfterDot(a, b[..|b| - 1]);
    }
  }

  lemma FracLenNoDot(a: string)
    requires AllDigits(a)
    ensures FracLen(a) == 0
  {
    assert '.' !in a;
  }

  lemma NotUnsignedBadChar(q: string, i: int)
    requires 0 <= i < |q| && !IsDigit(q[i]) && q[i] != '.'
    ensures !UnsignedLiteral(q)
  {
  }

  lemma NotUnsignedTwoDots(q: string, a: int, b: int)
    requires 0 <= a < b < |q| && q[a] == '.' && q[b] == '.'
    ensures !UnsignedLiteral(q)
  {
    assert q == q[..b] + q[b..];
    assert q[..b][a] == '.';
    assert q[b..][0] == '.';
    assert multiset(q)['.'] == multiset(q[..b])['.'] + multiset(q[b..])['.'];
  }

  lemma NoDotInDigits(a: string)
    requires AllDigits(a)
    ensures multiset(a)['.'] == 0
  {
    assert '.' !in a;
  }

  lemma DigitsAroundDot(a: string, b: string)
    requires AllDigits(a) && AllDigits(b)
    ensures Digits(a + ['.'] + b) == a + b
  {
    var dot: string := ['.'];
    assert Digits(dot) == [];
    DigitsConcat(a, dot);
    DigitsOfDigits(a);
    assert Digits(a + dot) == a;
    DigitsConcat(a + dot, b);
    DigitsOfDigits(b);
  }

  /** The longest unsigned literal prefix, as the scanner finds it (0 when there is none). */
  function ScanLength(u: string): nat {
    if HasDot(u) && (LeadingDigits(u) > 0 || FracDigits(u) > 0) then LeadingDigits(u) + 1 + FracDigits(u)
    else LeadingDigits(u)
  }

  /** With no digit before or right after an optional dot, no prefix is a literal. */
  lemma ScanNone(u: string)
    requires LeadingDigits(u) == 0 && FracDigits(u) == 0
    ensures forall j :: 0 <= j <= |u| ==> !UnsignedLiteral(u[..j])
  {
    forall j | 0 <= j <= |u| ensures !UnsignedLiteral(u[..j]) {
      ScanNoneAt(u, j);
    }
  }

  lemma ScanNoneAt(u: string, j: nat)
    requires LeadingDigits(u) == 0 && FracDigits(u) == 0 && j <= |u|
    ensures !UnsignedLiteral(u[..j])
  {
    if j >= 1 {
      assert !IsDigit(u[0]);
      if u[0] != '.' {
        NotUnsignedBadChar(u[..j], 0);
      } else if j >= 2 {
        assert HasDot(u) && LeadingDigits(u[1..]) == 0;
        assert u[1..][0] == u[1];
        if u[1] == '.' {
          NotUnsignedTwoDots(u[..j], 0, 1);
        } else {
          NotUnsignedBadChar(u[..j], 1);
        }
      }
    }
  }

  /** Digits, a dot and digits, with a digit somewhere, form a literal. */
  lemma DotLiteral(a: string, b: string)
    requires AllDigits(a) && AllDigits(b) && (|a| > 0 || |b| > 0)
    ensures UnsignedLiteral(a + ['.'] + b)
  {
    var p := a + ['.'] + b;
    NoDotInDigits(a);
    NoDotInDigits(b);
    assert multiset(p) == multiset(a) + multiset(['.']) + multiset(b);
    if |a| > 0 {
      assert IsDigit(p[0]);
    } else {
      assert IsDigit(p[1]);
    }
  }

  /** Digits, a dot and digits: the scanned prefix is a literal of the scanned magnitude. */
  lemma ScanWithDot(u: string)
    requires HasDot(u) && (LeadingDigits(u) > 0 || FracDigits(u) > 0)
    ensures UnsignedLiteral(u[..ScanLength(u)])
    ensures Digits(u[..ScanLength(u)]) == ScannedDigits(u) && FracLen(u[..ScanLength(u)]) == FracDigits(u)
  {
    var n, m, k := LeadingDigits(u), FracDigits(u), ScanLength(u);
    assert k == n + 1 + m;
    var a, b := u[..n], u[n + 1..k];
    assert AllDigits(a) && AllDigits(b) && |b| == m;
    SplitAtDot(u, n, k);
    assert ScannedDigits(u) == a + b;
    DotLiteral(a, b);
    DigitsAroundDot(a, b);
    FracLenAfterDot(a, b);
  }

  lemma SplitAtDot(u: string, n: nat, k: nat)
    requires n < k <= |u| && u[n] == '.'
    ensures u[..k] == u[..n] + ['.'] + u[n + 1..k]
  {
    assert u[..k] == u[..n] + u[n..n + 1] + u[n + 1..k];
    assert u[n..n + 1] == ['.'];
  }

  /** After the scanned prefix comes a character no literal can continue with. */
  lemma ScanMaximal(u: string)
    requires LeadingDigits(u) > 0 || FracDigits(u) > 0
    ensures ScanLength(u) <= |u|
    ensures forall j :: ScanLength(u) < j <= |u| ==> !UnsignedLiteral(u[..j])
  {
    var n, m, k := LeadingDigits(u), FracDigits(u), ScanLength(u);
    forall j | k < j <= |u| ensures !UnsignedLiteral(u[..j]) {
      if HasDot(u) && u[k] == '.' {
        NotUnsignedTwoDots(u[..j], n, k);
      } else {
        NotUnsignedBadChar(u[..j], k);
      }
    }
  }

  /** Digits without a dot: the scanned prefix is those digits. */
  lemma ScanNoDot(u: string)
    requires !HasDot(u) && LeadingDigits(u) > 0
    ensures UnsignedLiteral(u[..ScanLength(u)])
    ensures Digits(u[..ScanLength(u)]) == ScannedDigits(u) && FracLen(u[..ScanLength(u)]) == FracDigits(u)
  {
    var k := ScanLength(u);
    NoDotInDigits(u[..k]);
    assert IsDigit(u[..k][0]);
    DigitsOfDigits(u[..k]);
    FracLenNoDot(u[..k]);
  }

  /** What the scanner reads from an unsigned string is its longest unsigned literal prefix. */
  lemma UnsignedScan(u: string)
    ensures ScanLength(u) <= |u|
    ensures LeadingDigits(u) == 0 && FracDigits(u) == 0 ==> forall j :: 0 <= j <= |u| ==> !UnsignedLiteral(u[..j])
    ensures LeadingDigits(u) > 0 || FracDigits(u) > 0 ==>
            && UnsignedLiteral(u[..ScanLength(u)])
            && (forall j :: ScanLength(u) < j <= |u| ==> !UnsignedLiteral(u[..j]))
  {
    if LeadingDigits(u) == 0 && FracDigits(u) == 0 {
      ScanNone(u);
    } else {
      ScanMaximal(u);
      if HasDot(u) { ScanWithDot(u); } else { ScanNoDot(u); }
    }
  }

  /** The scanner's magnitude is the value of the prefix it read. */
  lemma ScanValue(u: string)
    requires LeadingDigits(u) > 0 || FracDigits(u) > 0
    ensures Digits(u[..ScanLength(u)]) == ScannedDigits(u) && FracLen(u[..ScanLength(u)]) == FracDigits(u)
  {
    if HasDot(u) { ScanWithDot(u); } else { ScanNoDot(u); }
  }

  /** A prefix of `s` is a literal exactly when its part after an optional leading '-' is unsigned. */
  lemma SignedPrefix(s: string, j: int)
    requires 0 <= j <= |s|
    ensures var off := SignLength(s);
      DecimalLiteral(s[..j]) <==> j >= off && UnsignedLiteral(s[off..][..j - off])
  {
    if |s| > 0 && s[0] == '-' {
      if j >= 1 {
        assert s[..j][1..] == s[1..][..j - 1];
        NotUnsignedBadChar(s[..j], 0);
      }
    } else {
      assert s[..j] == s[0..][..j];
    }
  }

  /**
   * `parseFloat` takes the longest prefix that is a decimal literal: it yields
   * NaN exactly when no prefix is a literal, and otherwise the value of the
   * longest literal prefix.
   */
  lemma ParseFloatIsLongestLiteralPrefix(s: string)
    ensures ParseFloat(s).None? <==> NoLiteralPrefix(s)
    ensures forall k :: LongestLiteralPrefix(s, k) ==> ParseFloat(s) == Some(LiteralValue(s[..k]))
  {
    var u := s[SignLength(s)..];
    if LeadingDigits(u) > 0 || FracDigits(u) > 0 {
      var k0 := ScanLength(u) + SignLength(s);
      ParsedPrefix(s);
      ParsedValue(s);
      forall k | LongestLiteralPrefix(s, k) ensures k == k0 {
        LongestUnique(s, k, k0);
      }
    } else {
      ParseFloatNotFound(s);
    }
  }

  /** With NaN read as 0 (the callers map NaN to 0): 0 when no prefix is a literal, else the longest one's value. */
  lemma NaNAsZeroIsLongestPrefix(s: string)
    ensures NoLiteralPrefix(s) ==> ParseFloat(s).GetOr(0.0) == 0.0
    ensures forall k :: LongestLiteralPrefix(s, k) ==> ParseFloat(s).GetOr(0.0) == LiteralValue(s[..k])
  {
    ParseFloatIsLongestLiteralPrefix(s);
  }

  /** There is at most one longest literal prefix. */
  lemma LongestUnique(s: string, k1: int, k2: int)
    requires LongestLiteralPrefix(s, k1) && LongestLiteralPrefix(s, k2)
    ensures k1 == k2
  {
  }

  /** When the scanner finds no digit, no prefix is a literal. */
  lemma ParseFloatNotFound(s: string)
    requires LeadingDigits(s[SignLength(s)..]) == 0 && FracDigits(s[SignLength(s)..]) == 0
    ensures NoLiteralPrefix(s)
  {
    UnsignedScan(s[SignLength(s)..]);
    forall j | 0 <= j <= |s| ensures !DecimalLiteral(s[..j]) {
      SignedPrefix(s, j);
    }
  }

  /** When the scanner finds digits, its prefix is the longest literal prefix. */
  lemma ParsedPrefix(s: string)
    requires LeadingDigits(s[SignLength(s)..]) > 0 || FracDigits(s[SignLength(s)..]) > 0
    ensures LongestLiteralPrefix(s, ScanLength(s[SignLength(s)..]) + SignLength(s))
  {
    var off := SignLength(s);
    var u := s[off..];
    UnsignedScan(u);
    var ku := ScanLength(u);
    var k0 := ku + off;
    SignedPrefix(s, k0);
    assert s[off..][..k0 - off] == u[..ku];
    forall j | k0 < j <= |s| ensures !DecimalLiteral(s[..j]) {
      SignedPrefix(s, j);
      assert s[off..][..j - off] == u[..j - off];
    }
  }

  /** ... and the scanned decimal is the decimal of that prefix. */
  lemma ParsedValue(s: string)
    requires LeadingDigits(s[SignLength(s)..]) > 0 || FracDigits(s[SignLength(s)..]) > 0
    ensures ScanDecimal(s) == LiteralDecimal(s[..ScanLength(s[SignLength(s)..]) + SignLength(s)])
  {
    var u := s[SignLength(s)..];
    var k := ScanLength(u);
    ScanValue(u);
    PrefixDecimal(s, k);
  }

  /** The decimal of the sign plus the first `k` characters after it. */
  lemma PrefixDecimal(s: string, k: nat)
    requires k <= |s| - SignLength(s)
    ensures var u := s[SignLength(s)..];
      LiteralDecimal(s[..k + SignLength(s)]) == Decimal(SignLength(s) == 1, NatValue(Digits(u[..k])), FracLen(u[..k]))
  {
    var u := s[SignLength(s)..];
    var p := s[..k + SignLength(s)];
    if SignLength(s) == 1 {
      assert p[1..] == s[1..k + 1] == u[..k];
      NegativeLiteralDecimal(p, u[..k]);
    } else {
      assert p == u[..k];
      assert |p| == 0 || p[0] != '-';
    }
  }

  lemma NegativeLiteralDecimal(p: string, u: string)
    requires |p| > 0 && p[0] == '-' && p[1..] == u
    ensures LiteralDecimal(p) == Decimal(true, NatValue(Digits(u)), FracLen(u))
  {
  }

  lemma {:induction false} LeadingDigitsOfDigits(s: string)
    requires AllDigits(s)
    ensures LeadingDigits(s) == |s|
  {
    if s != [] {
      LeadingDigitsOfDigits(s[1..]);
    }
  }

  /** Parsing the decimal text of a natural number gives that number back. */
  lemma ParseFloatNatText(n: nat)
    ensures ParseFloat(NatText(n)) == Some(n as real)
  {
    var t := NatText(n);
    assert SignLength(t) == 0;
    assert t[0..] == t;
    LeadingDigitsOfDigits(t);
    assert t[..|t|] == t;
    NatTextValue(n);
  }

  // ---------------------------------------------------------------------------
  // Truncation, `%` and `Math.floor`.
  // ---------------------------------------------------------------------------

  /** Rounding toward zero: the integer next to `x` on the side of zero. */
  function Trunc(x: real): (r: int)
    ensures x >= 0.0 ==> 0 <= r && r as real <= x < r as real + 1.0
    ensures x < 0.0 ==> r <= 0 && r as real - 1.0 < x <= r as real
  {
    if x >= 0.0 then x.Floor else -((-x).Floor)
  }

  function Abs(x: real): real {
    if x < 0.0 then -x else x
  }

  /**
   * JavaScript's `a % b` on numbers (section 6.1.6.1.6 of ECMA-262,
   * Number::remainder): the dividend less a whole multiple of the divisor,
   * with the dividend's sign and a magnitude below the divisor's.
   */
  function Rem(a: real, b: real): (r: real)
    requires b != 0.0
    ensures a >= 0.0 ==> r >= 0.0
    ensures a < 0.0 ==> r <= 0.0
    ensures Abs(r) < Abs(b)
    ensures ((a - r) / b).Floor as real == (a - r) / b
  {
    var q := Trunc(a / b);
    RemBounds(a, b, q);
    a - b * q as real
  }

  /** The remainder left by the truncated quotient has the promised sign and size. */
  lemma RemBounds(a: real, b: real, q: int)
    requires b != 0.0 && q == Trunc(a / b)
    ensures var r := a - b * q as real;
      && (a >= 0.0 ==> r >= 0.0) && (a < 0.0 ==> r <= 0.0)
      && Abs(r) < Abs(b)
      && (a - r) / b == q as real
  {
    var x, m := a / b, q as real;
    var t := x - m;
    DivisionInverse(a, b, m);
    assert a - b * m == b * t;
    assert -1.0 < t < 1.0;
    assert a >= 0.0 <==> (b > 0.0 && x >= 0.0) || (b < 0.0 && x <= 0.0);
    assert x >= 0.0 ==> t >= 0.0;
    assert x < 0.0 ==> t <= 0.0;
    ScaledFraction(b, t);
  }

  lemma DivisionInverse(a: real, b: real, m: real)
    requires b != 0.0
    ensures a == b * (a / b)
    ensures (b * m) / b == m
  {
  }

  /** A fraction of the divisor strictly between -1 and 1 of it. */
  lemma ScaledFraction(b: real, t: real)
    requires b != 0.0 && -1.0 < t < 1.0
    ensures Abs(b * t) < Abs(b)
    ensures (b > 0.0) == (t >= 0.0) || t == 0.0 ==> b * t >= 0.0
    ensures (b > 0.0) != (t >= 0.0) || t == 0.0 ==> b * t <= 0.0
  {
    if b > 0.0 {
      if t >= 0.0 {
        assert b * t >= 0.0 && b * (t - 1.0) < 0.0;
      } else {
        assert b * t < 0.0 && b * (t + 1.0) > 0.0;
      }
    } else {
      if t >= 0.0 {
        assert b * t <= 0.0 && b * (1.0 - t) < 0.0;
      } else {
        assert b * t > 0.0 && b * (t + 1.0) < 0.0;
      }
    }
  }

  /** The one-decomposition-for-display of a number of hours. */
  datatype Breakdown = Breakdown(days: int, hours: int, minutes: int)

  /** `Math.floor(h / 24)`, `Math.floor(h % 24)`, `Math.floor((h % 1) * 60)`. */
  function BreakDown(h: real): Breakdown {
    Breakdown((h / 24.0).Floor, Rem(h, 24.0).Floor, (Rem(h, 1.0) * 60.0).Floor)
  }

  lemma FloorUnique(x: real, k: int)
    requires k as real <= x < k as real + 1.0
    ensures x.Floor == k
  {
  }

  /**
   * For a non-negative number of hours the three parts are in range and
   * reassemble to the number within one minute, rounded down.
   */
  lemma BreakDownBounds(h: real)
    requires h >= 0.0
    ensures var b := BreakDown(h);
      && b.days >= 0 && 0 <= b.hours < 24 && 0 <= b.minutes < 60
      && (b.days * 24 + b.hours) as real + b.minutes as real / 60.0 <= h
      && h < (b.days * 24 + b.hours) as real + (b.minutes + 1) as real / 60.0
  {
    var b := BreakDown(h);
    var d := (h / 24.0).Floor;
    assert d as real <= h / 24.0 < d as real + 1.0;
    assert 24.0 * (d as real) <= h < 24.0 * (d as real) + 24.0;
    var r := Rem(h, 24.0);
    assert r == h - 24.0 * d as real;
    var hr := r.Floor;
    assert 0 <= hr < 24;
    FloorUnique(h, d * 24 + hr);
    var f := Rem(h, 1.0);
    assert f == h - (d * 24 + hr) as real;
    assert 0.0 <= f < 1.0;
    var mi := (f * 60.0).Floor;
    assert mi as real <= f * 60.0 < mi as real + 1.0;
    assert 0 <= mi < 60;
    assert mi as real / 60.0 <= f < (mi + 1) as real / 60.0;
  }
}
