/**
 * The upgrade-time engine: how long the remaining experience takes at a given
 * rate, when that is, and the small helpers that sit beside it.
 */
module TimeCalculation {
  import opened Wrappers
  import opened JsText
  import opened JsNumber

  datatype CalculationInput = CalculationInput(
    requiredExp: real, currentExp: real, expPerHour: real, selectedTimezone: string)

  /** `error` is None where the source leaves the field out. */
  datatype CalculationResult = CalculationResult(
    completionTime: string,
    remainingExp: real,
    hoursNeeded: real,
    daysNeeded: int,
    hoursRemainder: int,
    minutesRemainder: int,
    timezone: string,
    error: Option<string>)

  const AlreadyCompleteMessage: string := "当前经验已达到或超过升级所需经验"
  const InvalidRateMessage: string := "每小时获取经验值必须大于0"
  const MillisecondsPerHour: real := 3600000.0

  /** The largest time value a `Date` holds, in milliseconds either side of the epoch. */
  const MaxTimeValue: real := 8640000000000000.0

  /**
   * `new Date(t)` for an instant `t` in milliseconds. By the TimeClip operation
   * of ECMA-262 it is an Invalid Date (None) beyond 8.64e15 ms either side of
   * the epoch, and otherwise the instant truncated to a whole millisecond.
   */
  function MakeDate(t: real): (d: Option<real>)
    ensures d.None? <==> Abs(t) > MaxTimeValue
    ensures d.Some? ==> Abs(d.value) <= MaxTimeValue && Abs(t - d.value) < 1.0 && d.value.Floor as real == d.value
  {
    if Abs(t) > MaxTimeValue then None else Some(Trunc(t) as real)
  }

  /**
   * `convertToTimezone(date, timezone)` on a `Date`, None standing for an
   * Invalid Date. `toZoned` is the host's zone conversion, None where it
   * throws or yields an Invalid Date, and `format` is the 'yyyy-MM-dd HH:mm'
   * rendering of a valid instant. A failed conversion falls back to
   * rendering the instant as it is. On an Invalid Date that fallback throws
   * as well, and nothing here catches it: the result is then None.
   */
  function ConvertToTimezone(
    date: Option<real>, timezone: string, toZoned: (real, string) -> Option<real>, format: real -> string): (s: Option<string>)
    ensures s.None? <==> date.None?
    ensures date.Some? && toZoned(date.value, timezone).None? ==> s == Some(format(date.value))
  {
    match date
    case None => None
    case Some(instant) =>
      match toZoned(instant, timezone)
      case Some(zoned) => Some(format(zoned))
      case None => Some(format(instant))
  }

  /** The completion instant: `now` plus the hours, in milliseconds. */
  function CompletionInstant(now: real, hoursNeeded: real): real {
    now + hoursNeeded * MillisecondsPerHour
  }

  /**
   * `calculateUpgradeTime(input)` with the current instant `now` (milliseconds)
   * passed in; None where it throws. The already-complete check comes before
   * the rate check, and only the success branch can throw: when the
   * completion instant is beyond the range of `Date`.
   */
  function CalculateUpgradeTime(
    input: CalculationInput, now: real,
    toZoned: (real, string) -> Option<real>, format: real -> string): (r: Option<CalculationResult>)
    ensures var remaining := input.requiredExp - input.currentExp;
      remaining <= 0.0 ==>
        r == Some(CalculationResult("", 0.0, 0.0, 0, 0, 0, input.selectedTimezone, Some(AlreadyCompleteMessage)))
    ensures var remaining := input.requiredExp - input.currentExp;
      remaining > 0.0 && input.expPerHour <= 0.0 ==>
        r == Some(CalculationResult("", remaining, 0.0, 0, 0, 0, input.selectedTimezone, Some(InvalidRateMessage)))
    ensures var remaining := input.requiredExp - input.currentExp;
      r.None? <==>
        remaining > 0.0 && input.expPerHour > 0.0
        && Abs(CompletionInstant(now, remaining / input.expPerHour)) > MaxTimeValue
    ensures r.Some? ==> r.value.timezone == input.selectedTimezone
    ensures r.Some? ==> (r.value.error.None? <==> input.requiredExp - input.currentExp > 0.0 && input.expPerHour > 0.0)
    ensures var remaining := input.requiredExp - input.currentExp;
      remaining > 0.0 && input.expPerHour > 0.0 ==>
        r == Completed(remaining, remaining / input.expPerHour, input.selectedTimezone, now, toZoned, format)
  {
    var remaining := input.requiredExp - input.currentExp;
    if remaining <= 0.0 then
      Some(CalculationResult("", 0.0, 0.0, 0, 0, 0, input.selectedTimezone, Some(AlreadyCompleteMessage)))
    else if input.expPerHour <= 0.0 then
      Some(CalculationResult("", remaining, 0.0, 0, 0, 0, input.selectedTimezone, Some(InvalidRateMessage)))
    else
      var hoursNeeded := remaining / input.expPerHour;
      assert hoursNeeded > 0.0;
      Completed(remaining, hoursNeeded, input.selectedTimezone, now, toZoned, format)
  }

  /**
   * The success branch for a positive number of hours. It throws (None)
   * exactly when the completion instant is an Invalid Date. Otherwise the
   * completion text is the conversion of that instant, and the breakdown is
   * in range and reassembles to the hours within one minute.
   */
  function Completed(
    remaining: real, hoursNeeded: real, timezone: string, now: real,
    toZoned: (real, string) -> Option<real>, format: real -> string): (r: Option<CalculationResult>)
    requires hoursNeeded > 0.0
    ensures r.None? <==> Abs(CompletionInstant(now, hoursNeeded)) > MaxTimeValue
    ensures r.Some? ==> r.value.error.None? && r.value.timezone == timezone
    ensures r.Some? ==> r.value.remainingExp == remaining && r.value.hoursNeeded == hoursNeeded
    ensures r.Some? ==>
      var v := r.value;
      && v.daysNeeded >= 0 && 0 <= v.hoursRemainder < 24 && 0 <= v.minutesRemainder < 60
      && (v.daysNeeded * 24 + v.hoursRemainder) as real + v.minutesRemainder as real / 60.0 <= hoursNeeded
      && hoursNeeded < (v.daysNeeded * 24 + v.hoursRemainder) as real + (v.minutesRemainder + 1) as real / 60.0
    ensures r.Some? ==>
      Some(r.value.completionTime) == ConvertToTimezone(MakeDate(CompletionInstant(now, hoursNeeded)), timezone, toZoned, format)
  {
    match ConvertToTimezone(MakeDate(CompletionInstant(now, hoursNeeded)), timezone, toZoned, format)
    case None => None
    case Some(text) =>
      BreakDownBounds(hoursNeeded);
      var b := BreakDown(hoursNeeded);
      Some(CalculationResult(text, remaining, hoursNeeded, b.days, b.hours, b.minutes, timezone, None))
  }

  /**
   * The selected timezone only decides how the completion instant is shown:
   * two inputs that differ in it alone either both throw or agree on every
   * number and on the error, and their completion texts render the same
   * instant.
   */
  lemma TimezoneOnlyAffectsDisplay(
    a: CalculationInput, tz: string, now: real,
    toZoned: (real, string) -> Option<real>, format: real -> string)
    ensures var ra, rb := CalculateUpgradeTime(a, now, toZoned, format),
                          CalculateUpgradeTime(a.(selectedTimezone := tz), now, toZoned, format);
      && (ra.None? <==> rb.None?)
      && (ra.Some? ==> ra.value.(completionTime := "", timezone := "") == rb.value.(completionTime := "", timezone := ""))
      && (ra.Some? && ra.value.error.None? ==>
            Some(rb.value.completionTime)
            == ConvertToTimezone(MakeDate(CompletionInstant(now, ra.value.hoursNeeded)), tz, toZoned, format))
  {
  }

  /** 800 experience left at 100 an hour: eight hours exactly, unless the clock is at the end of `Date`'s range. */
  lemma ExampleEightHours(now: real, toZoned: (real, string) -> Option<real>, format: real -> string)
    ensures var r := CalculateUpgradeTime(CalculationInput(1000.0, 200.0, 100.0, "Asia/Shanghai"), now, toZoned, format);
      && (r.None? <==> Abs(now + 8.0 * MillisecondsPerHour) > MaxTimeValue)
      && (r.Some? ==>
            && r.value.error == None && r.value.remainingExp == 800.0 && r.value.hoursNeeded == 8.0
            && r.value.daysNeeded == 0 && r.value.hoursRemainder == 8 && r.value.minutesRemainder == 0)
  {
    var r := CalculateUpgradeTime(CalculationInput(1000.0, 200.0, 100.0, "Asia/Shanghai"), now, toZoned, format);
    assert 800.0 / 100.0 == 8.0;
    FloorUnique(8.0 / 24.0, 0);
    FloorUnique(8.0, 8);
  }

  /**
   * 10000 experience at 300 an hour is 33 hours and 20 minutes: one day, nine
   * hours and twenty minutes.
   */
  lemma ExampleOneDayNineHours(now: real, toZoned: (real, string) -> Option<real>, format: real -> string)
    ensures var r := CalculateUpgradeTime(CalculationInput(10000.0, 0.0, 300.0, "UTC"), now, toZoned, format);
      r.Some? ==> r.value.error == None && r.value.daysNeeded == 1 && r.value.hoursRemainder == 9 && r.value.minutesRemainder == 20
  {
    var h := 10000.0 / 300.0;
    FloorUnique(h / 24.0, 1);
    FloorUnique(h, 33);
    assert Rem(h, 24.0) == h - 24.0;
    FloorUnique(h - 24.0, 9);
    assert Rem(h, 1.0) == h - 33.0;
    assert (h - 33.0) * 60.0 == 20.0;
  }

  /**
   * Ten billion experience at one an hour completes 3.6e16 ms after any
   * valid clock reading, beyond the range of `Date`: the engine throws.
   */
  lemma ExampleBeyondDateRange(now: real, toZoned: (real, string) -> Option<real>, format: real -> string)
    requires Abs(now) <= MaxTimeValue
    ensures CalculateUpgradeTime(CalculationInput(10000000000.0, 0.0, 1.0, "Asia/Shanghai"), now, toZoned, format) == None
  {
    assert CompletionInstant(now, 10000000000.0 / 1.0) == now + 36000000000000000.0;
  }

  // ---------------------------------------------------------------------------
  // validateInput, parseFormattedNumber, formatDuration(days, hours, minutes)
  // ---------------------------------------------------------------------------

  const RateFieldName: string := "每小时获取经验值"
  const ZeroRateMessage: string := "每小时获取经验值不能为0"

  /** `validateInput(value, fieldName)`; None stands for null. */
  function ValidateInput(value: real, fieldName: string): (r: Option<string>)
    ensures value < 0.0 <==> r == Some(fieldName + "必须是非负数")
    ensures r == Some(ZeroRateMessage) <==> fieldName == RateFieldName && value == 0.0
    ensures r.None? <==> value >= 0.0 && !(fieldName == RateFieldName && value == 0.0)
  {
    if value < 0.0 then
      var m := fieldName + "必须是非负数";
      assert m[|m| - 1] != ZeroRateMessage[|ZeroRateMessage| - 1];
      Some(m)
    else if fieldName == RateFieldName && value == 0.0 then Some(ZeroRateMessage)
    else None
  }

  /**
   * `parseFormattedNumber(str)`: keeps digits and dots only, then `parseFloat`,
   * NaN becoming 0. Having dropped the minus sign, it never yields a negative.
   */
  function ParseFormattedNumber(str: string): (r: real)
    ensures r >= 0.0
  {
    var clean := Filter(str, false);
    assert |clean| == 0 || clean[0] != '-';
    ParseFloat(clean).GetOr(0.0)
  }

  /**
   * Over the cleaned input, the result is the value of the longest prefix
   * `digits[.digits?]` or `.digits` (no sign survives the cleaning), or 0
   * when no prefix has that form.
   */
  lemma ParseFormattedNumberIsLongestPrefix(str: string)
    ensures var f := Filter(str, false);
      && (NoLiteralPrefix(f) ==> ParseFormattedNumber(str) == 0.0)
      && (forall k :: LongestLiteralPrefix(f, k) ==> ParseFormattedNumber(str) == LiteralValue(f[..k]))
  {
    var f := Filter(str, false);
    assert ParseFormattedNumber(str) == ParseFloat(f).GetOr(0.0);
    NaNAsZeroIsLongestPrefix(f);
  }

  /** Inserting any character other than a digit or '.' (a separator, a space, a minus sign) changes nothing. */
  lemma ParseFormattedNumberIgnoresInsertion(a: string, c: char, b: string)
    requires !Kept(c, false)
    ensures ParseFormattedNumber(a + [c] + b) == ParseFormattedNumber(a + b)
  {
    FilterConcat(a + [c], b, false);
    FilterConcat(a, [c], false);
    FilterConcat(a, b, false);
    FilterDropsOther(c, false);
    assert Filter(a + [c] + b, false) == Filter(a + b, false);
  }

  const LessThanAMinute: string := "不到1分钟"

  /** The positive parts in the order days, hours, minutes, each with its unit. */
  function PartsText(days: int, hours: int, minutes: int): string {
    (if days > 0 then NatText(days) + "天" else "")
    + (if hours > 0 then NatText(hours) + "小时" else "")
    + (if minutes > 0 then NatText(minutes) + "分钟" else "")
  }

  /** `formatDuration(days, hours, minutes)`: pushes the positive parts, then joins them. */
  method FormatDuration(days: int, hours: int, minutes: int) returns (text: string)
    ensures days <= 0 && hours <= 0 && minutes <= 0 ==> text == LessThanAMinute
    ensures !(days <= 0 && hours <= 0 && minutes <= 0) ==> text == PartsText(days, hours, minutes)
  {
    var parts: seq<string> := [];
    if days > 0 {
      parts := parts + [NatText(days) + "天"];
    }
    if hours > 0 {
      parts := parts + [NatText(hours) + "小时"];
    }
    if minutes > 0 {
      parts := parts + [NatText(minutes) + "分钟"];
    }
    if |parts| == 0 {
      return LessThanAMinute;
    }
    text := Concat(parts);
    ConcatPieces(parts);
  }

  /**
   * The "less than a minute" text is shown exactly when no part is positive:
   * any joined text starts with a digit, which that text does not.
   */
  lemma LessThanAMinuteExactly(days: int, hours: int, minutes: int)
    ensures PartsText(days, hours, minutes) == "" <==> days <= 0 && hours <= 0 && minutes <= 0
    ensures PartsText(days, hours, minutes) != LessThanAMinute
  {
    var t := PartsText(days, hours, minutes);
    if days > 0 {
      assert t[0] == NatText(days)[0];
    } else if hours > 0 {
      assert t[0] == NatText(hours)[0];
    } else if minutes > 0 {
      assert t[0] == NatText(minutes)[0];
    }
  }
}
