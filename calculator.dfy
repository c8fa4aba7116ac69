/**
 * The calculator form: the entered text of each field, the error shown
 * under each field, and the last result, with the three handlers that change
 * them.
 */
module Calculator {
  import opened Wrappers
  import opened JsText
  import opened Formatting
  import TimeCalculation
  import JsNumber

  datatype Field = RequiredExp | CurrentExp | ExpPerHour | Timezone

  /** The text of the four inputs. */
  datatype FormData = FormData(requiredExp: string, currentExp: string, expPerHour: string, timezone: string) {
    function Get(name: Field): string {
      match name
      case RequiredExp => requiredExp
      case CurrentExp => currentExp
      case ExpPerHour => expPerHour
      case Timezone => timezone
    }

    /** `{ ...formData, [name]: value }` */
    function With(name: Field, value: string): (r: FormData)
      ensures r.Get(name) == value
      ensures forall f :: f != name ==> r.Get(f) == Get(f)
    {
      match name
      case RequiredExp => this.(requiredExp := value)
      case CurrentExp => this.(currentExp := value)
      case ExpPerHour => this.(expPerHour := value)
      case Timezone => this.(timezone := value)
    }
  }

  const InitialForm: FormData := FormData("", "", "", "Asia/Shanghai")

  const InvalidInputMessage: string := "输入无效"
  const ZeroRateMessage: string := "每小时获取经验值不能为0"
  const CrossFieldMessage: string := "当前经验不能大于或等于升级所需经验"

  /** The "please enter" message of an amount field left empty. */
  function RequiredMessage(name: Field): (m: string)
    requires name != Timezone
  {
    match name
    case RequiredExp => "请输入升级所需经验值"
    case CurrentExp => "请输入现有经验值"
    case ExpPerHour => "请输入每小时获取经验值"
  }

  /** Both amounts are positive and the current one has reached the required one. */
  predicate Conflict(form: FormData) {
    var current := ParseNumber(form.currentExp);
    var required := ParseNumber(form.requiredExp);
    current >= required && current > 0.0 && required > 0.0
  }

  /**
   * `validateField(name, value)` with the form as it stands; None stands for
   * null. The amounts are checked for sign, the rate for zero, and an edit of
   * either experience amount against the other.
   */
  function ValidateField(form: FormData, name: Field, value: string): (r: Option<string>)
    ensures r == Some(NegativeMessage) <==> ParseNumber(value) < 0.0
    ensures r == Some(ZeroRateMessage) <==> name == ExpPerHour && ParseNumber(value) == 0.0
    ensures r == Some(CrossFieldMessage) <==>
      (name == CurrentExp || name == RequiredExp) && Conflict(form.With(name, value))
    ensures r.None? <==>
      && ParseNumber(value) >= 0.0
      && !(name == ExpPerHour && ParseNumber(value) == 0.0)
      && !((name == CurrentExp || name == RequiredExp) && Conflict(form.With(name, value)))
    ensures r.Some? ==> r.value != ""
  {
    var validation := ValidateAndFormat(value, if name == ExpPerHour then DecimalInput else IntegerInput);
    if !validation.isValid then Some(validation.error.GetOr(InvalidInputMessage))
    else if name == ExpPerHour && validation.value == 0.0 then Some(ZeroRateMessage)
    else if name == CurrentExp || name == RequiredExp then
      var current := ParseNumber(if name == CurrentExp then value else form.currentExp);
      var required := ParseNumber(if name == RequiredExp then value else form.requiredExp);
      if current >= required && current > 0.0 && required > 0.0 then Some(CrossFieldMessage) else None
    else None
  }

  // ---------------------------------------------------------------------------
  // handleInputChange
  // ---------------------------------------------------------------------------

  /**
   * The error map after `handleInputChange(name, value)`: the field's own
   * result (or '') is stored under it; then, for an experience field, the
   * cross-field message is put on `currentExp` when the amounts conflict,
   * and otherwise taken off it if it is there. A key that is absent stands
   * for undefined.
   */
  function ErrorsAfterInput(form: FormData, errors: map<Field, string>, name: Field, value: string): (r: map<Field, string>)
    ensures forall f :: f != name && (f != CurrentExp || name == ExpPerHour || name == Timezone) ==>
      (f in r <==> f in errors) && (f in errors ==> r[f] == errors[f])
    ensures name != CurrentExp ==> name in r && r[name] == ValidateField(form, name, value).GetOr("")
    ensures (name == CurrentExp || name == RequiredExp) && Conflict(form.With(name, value)) ==>
      CurrentExp in r && r[CurrentExp] == CrossFieldMessage
    ensures name == CurrentExp && !Conflict(form.With(name, value)) ==>
      CurrentExp in r && r[CurrentExp] == ValidateField(form, name, value).GetOr("")
    ensures name == RequiredExp && !Conflict(form.With(name, value)) ==>
      && (CurrentExp in r <==> CurrentExp in errors)
      && (CurrentExp in errors ==>
            r[CurrentExp] == if errors[CurrentExp] == CrossFieldMessage then "" else errors[CurrentExp])
  {
    var error := ValidateField(form, name, value);
    var first := errors[name := error.GetOr("")];
    if name == CurrentExp || name == RequiredExp then
      var current := ParseNumber(if name == CurrentExp then value else form.currentExp);
      var required := ParseNumber(if name == RequiredExp then value else form.requiredExp);
      if current > 0.0 && required > 0.0 && current >= required then first[CurrentExp := CrossFieldMessage]
      else if CurrentExp in first && first[CurrentExp] == CrossFieldMessage then first[CurrentExp := ""]
      else first
    else first
  }

  /** The cross-field message is on `currentExp` exactly while the amounts conflict. */
  predicate Consistent(form: FormData, errors: map<Field, string>) {
    (CurrentExp in errors && errors[CurrentExp] == CrossFieldMessage) <==> Conflict(form)
  }

  /**
   * Every edit keeps the cross-field message on `currentExp` in step with the
   * amounts, and an edit of either amount puts it in step from any state.
   */
  lemma InputKeepsConsistent(form: FormData, errors: map<Field, string>, name: Field, value: string)
    requires Consistent(form, errors) || name == CurrentExp || name == RequiredExp
    ensures Consistent(form.With(name, value), ErrorsAfterInput(form, errors, name, value))
  {
    var after := form.With(name, value);
    if name == ExpPerHour || name == Timezone {
      assert after.currentExp == form.currentExp && after.requiredExp == form.requiredExp;
    }
  }

  /**
   * A form restored from storage comes with an empty error map, so it can
   * start out of step: amounts that conflict, and no cross-field message.
   */
  lemma RestoredFormCanConflict()
    ensures Consistent(InitialForm, map[])
    ensures !Consistent(FormData("100", "500", "", "Asia/Shanghai"), map[])
  {
    assert NatText(500) == "500" && NatText(100) == "100";
    ParseNumberNatText(500);
    ParseNumberNatText(100);
  }

  /**
   * The message is not kept in step on `requiredExp`: after current 500,
   * required 100 and then current 50, the required field still shows it
   * although the amounts no longer conflict.
   */
  lemma StaleMessageOnRequired()
    ensures var f1 := InitialForm.With(CurrentExp, "500");
      var e1 := ErrorsAfterInput(InitialForm, map[], CurrentExp, "500");
      var f2 := f1.With(RequiredExp, "100");
      var e2 := ErrorsAfterInput(f1, e1, RequiredExp, "100");
      var f3 := f2.With(CurrentExp, "50");
      var e3 := ErrorsAfterInput(f2, e2, CurrentExp, "50");
      && !Conflict(f3)
      && e3[RequiredExp] == CrossFieldMessage
      && e3[CurrentExp] == ""
  {
    assert NatText(500) == "500" && NatText(100) == "100" && NatText(50) == "50";
    ParseNumberNatText(500);
    ParseNumberNatText(100);
    ParseNumberNatText(50);
    var f1 := InitialForm.With(CurrentExp, "500");
    var e1 := ErrorsAfterInput(InitialForm, map[], CurrentExp, "500");
    var f2 := f1.With(RequiredExp, "100");
    assert Conflict(f2);
    var e2 := ErrorsAfterInput(f1, e1, RequiredExp, "100");
    assert e2[RequiredExp] == CrossFieldMessage;
    var f3 := f2.With(CurrentExp, "50");
    assert !Conflict(f3);
    var e3 := ErrorsAfterInput(f2, e2, CurrentExp, "50");
    assert e3[RequiredExp] == CrossFieldMessage;
  }

  // ---------------------------------------------------------------------------
  // handleCalculate
  // ---------------------------------------------------------------------------

  /** What the validation pass records for one field, if anything. */
  function FieldError(form: FormData, name: Field): Option<string> {
    if name == Timezone then None
    else if form.Get(name) == "" then Some(RequiredMessage(name))
    else ValidateField(form, name, form.Get(name))
  }

  /**
   * The errors the validation pass of `handleCalculate` produces: the
   * timezone is never checked; an empty amount gets its "please enter"
   * message whatever else is wrong with it; any other amount gets the
   * message `validateField` gives it, if any.
   */
  function CalculationErrors(form: FormData): (r: map<Field, string>)
    ensures Timezone !in r
    ensures forall f :: f != Timezone && form.Get(f) == "" ==> f in r && r[f] == RequiredMessage(f)
    ensures forall f :: form.Get(f) != "" ==>
      (f in r <==> f != Timezone && ValidateField(form, f, form.Get(f)).Some?)
      && (f in r ==> r[f] == ValidateField(form, f, form.Get(f)).value)
    ensures forall f :: f in r ==> r[f] != ""
  {
    map f | f in {RequiredExp, CurrentExp, ExpPerHour} && FieldError(form, f).Some? :: FieldError(form, f).value
  }

  /** Where a field stands in the form's key order. */
  function Position(f: Field): nat {
    match f
    case RequiredExp => 0
    case CurrentExp => 1
    case ExpPerHour => 2
    case Timezone => 3
  }

  /**
   * The validation pass of `handleCalculate`: each field in turn except the
   * timezone, then the three required-field checks, which overwrite.
   */
  method ValidateAll(form: FormData) returns (newErrors: map<Field, string>)
    ensures newErrors == CalculationErrors(form)
  {
    newErrors := map[];
    var entries := [RequiredExp, CurrentExp, ExpPerHour, Timezone];
    for i := 0 to |entries|
      invariant forall f :: f in newErrors <==>
        Position(f) < i && f != Timezone && ValidateField(form, f, form.Get(f)).Some?
      invariant forall f :: f in newErrors ==> newErrors[f] == ValidateField(form, f, form.Get(f)).value
    {
      var key := entries[i];
      assert Position(key) == i;
      if key != Timezone {
        var error := ValidateField(form, key, form.Get(key));
        if error.Some? && error.value != "" {
          newErrors := newErrors[key := error.value];
        }
      }
    }
    if form.requiredExp == "" {
      newErrors := newErrors[RequiredExp := RequiredMessage(RequiredExp)];
    }
    if form.currentExp == "" {
      newErrors := newErrors[CurrentExp := RequiredMessage(CurrentExp)];
    }
    if form.expPerHour == "" {
      newErrors := newErrors[ExpPerHour := RequiredMessage(ExpPerHour)];
    }
    forall f
      ensures f in newErrors <==> f != Timezone && FieldError(form, f).Some?
      ensures f in newErrors ==> newErrors[f] == FieldError(form, f).value
    {
      match f
      case RequiredExp =>
      case CurrentExp =>
      case ExpPerHour =>
      case Timezone =>
    }
    ByFieldErrors(form, newErrors);
  }

  /** A map holding exactly the per-field errors is the pass's result. */
  lemma ByFieldErrors(form: FormData, m: map<Field, string>)
    requires forall f :: f in m <==> f != Timezone && FieldError(form, f).Some?
    requires forall f :: f in m ==> m[f] == FieldError(form, f).value
    ensures m == CalculationErrors(form)
  {
  }

  /** The calculation input `handleCalculate` builds from the form. */
  function InputOf(form: FormData): TimeCalculation.CalculationInput {
    TimeCalculation.CalculationInput(
      ParseNumber(form.requiredExp), ParseNumber(form.currentExp), ParseNumber(form.expPerHour), form.timezone)
  }

  /** After the validation pass the cross-field message is on `currentExp` exactly when the amounts conflict. */
  lemma CalculationErrorsConsistent(form: FormData)
    ensures Consistent(form, CalculationErrors(form))
  {
    assert form.With(CurrentExp, form.currentExp) == form;
    if form.currentExp == "" {
      assert ParseNumber(form.currentExp) == 0.0;
    }
  }

  /**
   * A form that passes validation has a positive rate and no conflict, so the
   * engine never reports an invalid rate; the only error left to it is
   * "already complete", which happens exactly when the required amount is 0.
   * It throws exactly when there is something to gain and the completion
   * instant is beyond the range of `Date`.
   */
  lemma ValidFormReachesEngine(
    form: FormData, now: real, toZoned: (real, string) -> Option<real>, format: real -> string)
    requires CalculationErrors(form) == map[]
    ensures ParseNumber(form.expPerHour) > 0.0
    ensures ParseNumber(form.requiredExp) >= 0.0 && ParseNumber(form.currentExp) >= 0.0 && !Conflict(form)
    ensures var input := InputOf(form);
      var r := TimeCalculation.CalculateUpgradeTime(input, now, toZoned, format);
      && (r.Some? ==> (r.value.error.None? <==> ParseNumber(form.requiredExp) > 0.0))
      && (r.Some? && r.value.error.Some? ==> r.value.error == Some(TimeCalculation.AlreadyCompleteMessage))
      && (r.None? <==>
            && ParseNumber(form.requiredExp) > 0.0
            && JsNumber.Abs(TimeCalculation.CompletionInstant(now, (input.requiredExp - input.currentExp) / input.expPerHour))
               > TimeCalculation.MaxTimeValue)
  {
    assert RequiredExp !in CalculationErrors(form);
    assert CurrentExp !in CalculationErrors(form);
    assert ExpPerHour !in CalculationErrors(form);
    assert form.With(CurrentExp, form.currentExp) == form;
  }

  /**
   * A form that passes validation can still make the engine throw: ten
   * billion experience at one an hour lies beyond the range of `Date` from
   * any valid clock reading.
   */
  lemma ValidFormCanThrow(now: real, toZoned: (real, string) -> Option<real>, format: real -> string)
    requires JsNumber.Abs(now) <= TimeCalculation.MaxTimeValue
    ensures var form := FormData("10000000000", "0", "1", "Asia/Shanghai");
      && CalculationErrors(form) == map[]
      && TimeCalculation.CalculateUpgradeTime(InputOf(form), now, toZoned, format) == None
  {
    var form := FormData("10000000000", "0", "1", "Asia/Shanghai");
    TenBillionText();
    ParseNumberNatText(10000000000);
    assert NatText(0) == form.currentExp && NatText(1) == form.expPerHour;
    ParseNumberNatText(0);
    ParseNumberNatText(1);
    NoFieldErrors(form);
    assert InputOf(form) == TimeCalculation.CalculationInput(10000000000.0, 0.0, 1.0, "Asia/Shanghai");
    TimeCalculation.ExampleBeyondDateRange(now, toZoned, format);
  }

  /** The text of ten billion, one digit at a time. */
  lemma TenBillionText()
    ensures NatText(10000000000) == "10000000000"
  {
    NatTextTimesTen(1);
    assert NatText(10) == "10";
    NatTextTimesTen(10);
    assert NatText(100) == "100";
    NatTextTimesTen(100);
    assert NatText(1000) == "1000";
    NatTextTimesTen(1000);
    assert NatText(10000) == "10000";
    NatTextTimesTen(10000);
    assert NatText(100000) == "100000";
    NatTextTimesTen(100000);
    assert NatText(1000000) == "1000000";
    NatTextTimesTen(1000000);
    assert NatText(10000000) == "10000000";
    NatTextTimesTen(10000000);
    assert NatText(100000000) == "100000000";
    NatTextTimesTen(100000000);
    assert NatText(1000000000) == "1000000000";
    NatTextTimesTen(1000000000);
    assert NatText(10000000000) == "10000000000";
  }

  /** Non-negative amounts, a positive rate and no conflict: the validation pass leaves no message. */
  lemma NoFieldErrors(form: FormData)
    requires form.requiredExp != "" && form.currentExp != "" && form.expPerHour != ""
    requires ParseNumber(form.requiredExp) >= 0.0 && ParseNumber(form.currentExp) >= 0.0
    requires ParseNumber(form.expPerHour) > 0.0 && !Conflict(form)
    ensures CalculationErrors(form) == map[]
  {
    assert form.With(CurrentExp, form.currentExp) == form && form.With(RequiredExp, form.requiredExp) == form;
    assert forall f :: f !in CalculationErrors(form);
  }

  // ---------------------------------------------------------------------------
  // The component state
  // ---------------------------------------------------------------------------

  /** The `formData`, `errors` and `result` state of the calculator component. */
  class CalculatorForm {
    var formData: FormData
    var errors: map<Field, string>
    var result: Option<TimeCalculation.CalculationResult>

    /** The cross-field message on `currentExp` agrees with the amounts entered. */
    predicate Valid()
      reads this
    {
      Consistent(formData, errors)
    }

    /** The initial state: empty amounts, the Shanghai timezone, no errors, no result. */
    constructor ()
      ensures formData == InitialForm && errors == map[] && result == None
      ensures Valid()
    {
      formData := InitialForm;
      errors := map[];
      result := None;
    }

    /**
     * The mount-time restore: the form saved in storage, if one was found and
     * parsed (None otherwise), replaces the form; errors and result stay.
     */
    method RestoreSaved(saved: Option<FormData>)
      modifies this
      ensures saved.Some? ==> formData == saved.value
      ensures saved.None? ==> formData == old(formData)
      ensures errors == old(errors) && result == old(result)
    {
      if saved.Some? {
        formData := saved.value;
      }
    }

    /**
     * `handleInputChange(name, value)`: the form, then the error map in the
     * two `setErrors` steps of the source (the edited field's message, then
     * the cross-field message), which `ErrorsAfterInput` gives as one value.
     * The invariant is kept, and an edit of either amount restores it.
     */
    method HandleInputChange(name: Field, value: string)
      modifies this
      ensures formData == old(formData).With(name, value)
      ensures errors == ErrorsAfterInput(old(formData), old(errors), name, value)
      ensures result == old(result)
      ensures old(Valid()) || name == CurrentExp || name == RequiredExp ==> Valid()
    {
      if Valid() || name == CurrentExp || name == RequiredExp {
        InputKeepsConsistent(formData, errors, name, value);
      }
      var previous := formData;
      formData := formData.With(name, value);
      var error := ValidateField(previous, name, value);
      errors := errors[name := error.GetOr("")];
      if name == CurrentExp || name == RequiredExp {
        var current := ParseNumber(if name == CurrentExp then value else previous.currentExp);
        var required := ParseNumber(if name == RequiredExp then value else previous.requiredExp);
        if current > 0.0 && required > 0.0 && current >= required {
          errors := errors[CurrentExp := CrossFieldMessage];
        } else if CurrentExp in errors && errors[CurrentExp] == CrossFieldMessage {
          errors := errors[CurrentExp := ""];
        }
      }
    }

    /**
     * `handleCalculate()` up to storing the result, with the current instant
     * and the host's timezone functions passed in. It reports whether the
     * validation let the calculation run. An engine that throws (a completion
     * instant beyond the range of `Date`) is caught, and the old result stays.
     */
    method HandleCalculate(now: real, toZoned: (real, string) -> Option<real>, format: real -> string)
      returns (calculated: bool)
      modifies this
      ensures formData == old(formData)
      ensures errors == CalculationErrors(formData)
      ensures calculated <==> forall f :: f in errors ==> errors[f] == ""
      ensures calculated <==> errors == map[]
      ensures calculated ==>
        var r := TimeCalculation.CalculateUpgradeTime(InputOf(formData), now, toZoned, format);
        result == if r.Some? then r else old(result)
      ensures !calculated ==> result == old(result)
      ensures Valid()
    {
      var newErrors := ValidateAll(formData);
      errors := newErrors;
      CalculationErrorsConsistent(formData);
      if exists f :: f in newErrors && newErrors[f] != "" {
        return false;
      }
      assert forall f :: f !in newErrors;
      var input := InputOf(formData);
      var r := TimeCalculation.CalculateUpgradeTime(input, now, toZoned, format);
      if r.Some? {
        result := r;
      }
      calculated := true;
    }

    /** `handleReset()`: back to the initial state. */
    method HandleReset()
      modifies this
      ensures formData == InitialForm && errors == map[] && result == None
      ensures Valid()
    {
      formData := InitialForm;
      result := None;
      errors := map[];
    }
  }
}
