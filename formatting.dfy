/**
 * The formatting helpers of the calculator: number parsing, input validation,
 * the experience suffix, and the duration text built from a number of hours.
 */
module Formatting {
  import opened Wrappers
  import opened JsText
  import opened JsNumber

  /**
   * A piece of text the page shows: either a literal, or what the host's
   * `Intl.NumberFormat('zh-CN')` renders for `value` with exactly `decimals`
   * fraction digits (the rendering itself belongs to the host).
   */
  datatype NumberText = Literal(text: string) | Localized(value: real, decimals: nat)

  // ---------------------------------------------------------------------------
  // parseNumber
  // ---------------------------------------------------------------------------

  /**
   * `parseNumber(str)`: the empty string gives 0; otherwise every character
   * other than a digit, '.' or '-' is removed and the rest goes to
   * `parseFloat`, whose NaN becomes 0. The result is always a number.
   */
  function ParseNumber(str: string): (r: real)
    ensures str == "" ==> r == 0.0
  {
    if str == "" then 0.0
    else ParseFloat(Filter(str, true)).GetOr(0.0)
  }

  /** The empty-string shortcut agrees with `parseFloat`, which finds no number in "". */
  lemma ParseNumberByFilter(str: string)
    ensures ParseNumber(str) == ParseFloat(Filter(str, true)).GetOr(0.0)
  {
    if str == "" {
      assert Filter(str, true) == [];
      assert ParseFloat([]) == None;
    }
  }

  /** The result depends only on the digits, dots and minus signs of the input, in order. */
  lemma ParseNumberOfFiltered(str: string)
    ensures ParseNumber(str) == ParseNumber(Filter(str, true))
  {
    FilterIdempotent(str, true);
  }

  /** Inserting any other character (a thousands separator, a space, a letter) changes nothing. */
  lemma ParseNumberIgnoresInsertion(a: string, c: char, b: string)
    requires !Kept(c, true)
    ensures ParseNumber(a + [c] + b) == ParseNumber(a + b)
  {
    FilterConcat(a + [c], b, true);
    FilterConcat(a, [c], true);
    FilterConcat(a, b, true);
    assert [c][1..] == [];
    assert Filter([c], true) == [];
    assert Filter(a + [c] + b, true) == Filter(a + b, true);
    ParseNumberByFilter(a + [c] + b);
    ParseNumberByFilter(a + b);
  }

  /**
   * Over the filtered input, the result is the value of the longest prefix
   * `-?(digits[.digits?] | .digits)`, or 0 when no prefix has that form.
   */
  lemma ParseNumberIsLongestPrefix(str: string)
    ensures var f := Filter(str, true);
      && (NoLiteralPrefix(f) ==> ParseNumber(str) == 0.0)
      && (forall k :: LongestLiteralPrefix(f, k) ==> ParseNumber(str) == LiteralValue(f[..k]))
  {
    ParseNumberByFilter(str);
    NaNAsZeroIsLongestPrefix(Filter(str, true));
  }

  /** The decimal text of a natural number parses back to it. */
  lemma ParseNumberNatText(n: nat)
    ensures ParseNumber(NatText(n)) == n as real
  {
    FilterKeepsKept(NatText(n), true);
    ParseFloatNatText(n);
  }

  // ---------------------------------------------------------------------------
  // validateAndFormat
  // ---------------------------------------------------------------------------

  datatype InputKind = IntegerInput | DecimalInput

  datatype Validation = Validation(isValid: bool, value: real, formatted: NumberText, error: Option<string>)

  const NegativeMessage: string := "数值不能为负数"

  /**
   * `validateAndFormat(value, type)`. Its NaN branch cannot be taken, since
   * `parseNumber` never yields NaN; only a negative number is rejected.
   */
  function ValidateAndFormat(value: string, kind: InputKind): (r: Validation)
    ensures !r.isValid <==> ParseNumber(value) < 0.0
    ensures !r.isValid ==> r.value == 0.0 && r.formatted == Literal("0") && r.error == Some(NegativeMessage)
    ensures r.isValid ==> r.value == ParseNumber(value) && r.value >= 0.0 && r.error == None
    ensures r.isValid ==> r.formatted == Localized(r.value, if kind == DecimalInput then 2 else 0)
  {
    var numValue := ParseNumber(value);
    if numValue < 0.0 then Validation(false, 0.0, Literal("0"), Some(NegativeMessage))
    else
      var decimals := if kind == DecimalInput then 2 else 0;
      Validation(true, numValue, Localized(numValue, decimals), None)
  }

  // ---------------------------------------------------------------------------
  // formatExperience
  // ---------------------------------------------------------------------------

  /** A localized number followed by a unit suffix. */
  datatype Suffixed = Suffixed(number: NumberText, suffix: string)

  const Billion: real := 1000000000.0
  const Million: real := 1000000.0
  const Thousand: real := 1000.0

  /** The divisor a suffix stands for. */
  function SuffixScale(suffix: string): real {
    if suffix == "B" then Billion else if suffix == "M" then Million else if suffix == "K" then Thousand else 1.0
  }

  /**
   * `formatExperience(exp)`: the largest unit among B, M, K that the amount
   * reaches, with two, two and one fraction digits; below a thousand the plain
   * number.
   */
  function FormatExperience(exp: real): (r: Suffixed)
    ensures r.suffix == "B" <==> exp >= Billion
    ensures r.suffix == "M" <==> Million <= exp < Billion
    ensures r.suffix == "K" <==> Thousand <= exp < Million
    ensures r.suffix == "" <==> exp < Thousand
    ensures r.number.Localized? && r.number.value * SuffixScale(r.suffix) == exp
    ensures r.number.decimals == (if r.suffix == "K" then 1 else if r.suffix == "" then 0 else 2)
    ensures r.suffix != "" ==> 1.0 <= r.number.value
    ensures r.suffix == "M" || r.suffix == "K" ==> r.number.value < 1000.0
  {
    if exp >= Billion then Suffixed(Localized(exp / Billion, 2), "B")
    else if exp >= Million then Suffixed(Localized(exp / Million, 2), "M")
    else if exp >= Thousand then Suffixed(Localized(exp / Thousand, 1), "K")
    else Suffixed(Localized(exp, 0), "")
  }

  // ---------------------------------------------------------------------------
  // formatDuration(totalHours)
  // ---------------------------------------------------------------------------

  const DayUnit: string := "天"
  const HourUnit: string := "小时"
  const MinuteUnit: string := "分钟"

  /**
   * The text `formatDuration(totalHours)` produces: "0分钟" for a negative
   * input; otherwise the days part when there are whole days, the hours part
   * when there are remaining whole hours, and the minutes part when there are
   * minutes or nothing came before it.
   */
  function DurationText(totalHours: real): string {
    if totalHours < 0.0 then "0" + MinuteUnit
    else
      BreakDownBounds(totalHours);
      var b := BreakDown(totalHours);
      (if b.days > 0 then NatText(b.days) + DayUnit else "")
      + (if b.hours > 0 then NatText(b.hours) + HourUnit else "")
      + (if b.minutes > 0 || (b.days <= 0 && b.hours <= 0) then NatText(b.minutes) + MinuteUnit else "")
  }

  /** `formatDuration(totalHours)`: pushes the parts into a list, then joins it. */
  method FormatDuration(totalHours: real) returns (text: string)
    ensures text == DurationText(totalHours)
  {
    if totalHours < 0.0 {
      return "0分钟";
    }
    BreakDownBounds(totalHours);
    var days := (totalHours / 24.0).Floor;
    var hours := Rem(totalHours, 24.0).Floor;
    var minutes := (Rem(totalHours, 1.0) * 60.0).Floor;
    assert Breakdown(days, hours, minutes) == BreakDown(totalHours);
    var parts: seq<string> := [];
    if days > 0 {
      parts := parts + [NatText(days) + DayUnit];
    }
    if hours > 0 {
      parts := parts + [NatText(hours) + HourUnit];
    }
    if minutes > 0 || |parts| == 0 {
      parts := parts + [NatText(minutes) + MinuteUnit];
    }
    text := Concat(parts);
    ConcatPieces(parts);
  }

  lemma NoUnitInDigits(s: string, c: char)
    requires AllDigits(s) && !IsDigit(c)
    ensures c !in s
  {
  }

  /**
   * For a non-negative input the text is never empty, and each unit appears
   * exactly when its part is emitted: days iff there is a whole day, hours iff
   * the hour remainder is at least one, minutes iff there are minutes or no
   * earlier part.
   */
  lemma DurationTextParts(totalHours: real)
    requires totalHours >= 0.0
    ensures var t, b := DurationText(totalHours), BreakDown(totalHours);
      && |t| > 0
      && ('天' in t <==> b.days > 0)
      && ('时' in t <==> b.hours > 0)
      && ('分' in t <==> b.minutes > 0 || (b.days <= 0 && b.hours <= 0))
  {
    BreakDownBounds(totalHours);
    var b := BreakDown(totalHours);
    var d := if b.days > 0 then NatText(b.days) + DayUnit else "";
    var h := if b.hours > 0 then NatText(b.hours) + HourUnit else "";
    var withMinutes := b.minutes > 0 || (b.days <= 0 && b.hours <= 0);
    var m := if withMinutes then NatText(b.minutes) + MinuteUnit else "";
    assert DurationText(totalHours) == d + h + m;
    if b.days > 0 { NoUnitInDigits(NatText(b.days), '时'); NoUnitInDigits(NatText(b.days), '分'); }
    if b.hours > 0 { NoUnitInDigits(NatText(b.hours), '天'); NoUnitInDigits(NatText(b.hours), '分'); }
    if withMinutes {
      NoUnitInDigits(NatText(b.minutes), '天'); NoUnitInDigits(NatText(b.minutes), '时');
      assert '分' in m by { assert m[|NatText(b.minutes)|] == '分'; }
    }
    if b.days > 0 { assert '天' in d by { assert d[|NatText(b.days)|] == '天'; } }
    if b.hours > 0 { assert '时' in h by { assert h[|NatText(b.hours)| + 1] == '时'; } }
    assert forall c :: c in d + h + m <==> c in d || c in h || c in m;
  }

  /** A negative number of hours reads as zero minutes. */
  lemma DurationTextNegative(totalHours: real)
    requires totalHours < 0.0
    ensures DurationText(totalHours) == "0分钟"
  {
  }
}
