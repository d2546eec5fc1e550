/** The controlled transaction form (src/components/AddTransactionForm.tsx): three fields,
    the rule that enables its submit button, the payload it emits, and the effect that
    resets the fields when the form's initial values change. */
module TransactionForm {
  import opened Wrappers
  import opened Transactions
  import opened JsNumber

  /** The initial values a caller passes; `None` is a prop left out. `initialType`
      `None` stands for both a missing prop and the empty string, which mean the same. */
  datatype FormProps = FormProps(
    initialType: Option<TransactionType>,
    initialAmount: Option<real>,
    initialDate: Option<string>)

  /** The initial values after defaults are applied: the effect's dependency list. */
  datatype Initial = Initial(kind: Option<TransactionType>, amount: real, date: string)

  /** Apply the defaults: no type, amount 0 and the current date, `today`, which the
      clock supplies on every render. */
  function Resolve(p: FormProps, today: string): (i: Initial)
    ensures i.kind == p.initialType
    ensures p.initialAmount.None? ==> i.amount == 0.0
    ensures p.initialAmount.Some? ==> i.amount == p.initialAmount.value
    ensures p.initialDate.None? ==> i.date == today
    ensures p.initialDate.Some? ==> i.date == p.initialDate.value
  {
    Initial(
      p.initialType,
      if p.initialAmount.Some? then p.initialAmount.value else 0.0,
      if p.initialDate.Some? then p.initialDate.value else today)
  }

  /** The submit button is disabled when the amount reads as a number that is not
      positive, or when no type is chosen. An amount that reads as NaN does not
      disable it, since every comparison with NaN is false. */
  predicate Disabled(kind: Option<TransactionType>, amount: string): (disabled: bool)
    ensures !disabled <==> kind.Some? && (ParseFloat(amount).None? || ParseFloat(amount).value > 0.0)
  {
    (ParseFloat(amount).Some? && ParseFloat(amount).value <= 0.0) || kind.None?
  }

  /** What the form hands to its `onSubmit` callback; `amount` is `None` for NaN. */
  datatype Submission = Submission(kind: TransactionType, amount: Option<real>, date: string)

  class Form {
    var kind: Option<TransactionType>
    var amount: string
    var date: string
    /** The resolved initial values seen at the last render. */
    var deps: Initial

    /** Whether the fields hold exactly what the initial values `i` put there. */
    predicate ShowsInitial(i: Initial)
      reads this
    {
      kind == i.kind && amount == NumberToString(i.amount) && date == i.date
    }

    constructor(p: FormProps, today: string)
      ensures deps == Resolve(p, today)
      ensures ShowsInitial(deps)
    {
      var i := Resolve(p, today);
      kind := i.kind;
      amount := NumberToString(i.amount);
      date := i.date;
      deps := i;
    }

    /** A render with new props: when any resolved initial value differs from the last
        render's, the effect puts all three fields back to the initial values;
        otherwise the fields keep what the user entered. */
    method Rerender(p: FormProps, today: string)
      modifies this
      ensures deps == Resolve(p, today)
      ensures deps != old(deps) ==> ShowsInitial(deps)
      ensures deps == old(deps) ==> kind == old(kind) && amount == old(amount) && date == old(date)
    {
      var i := Resolve(p, today);
      if i != deps {
        kind := i.kind;
        amount := NumberToString(i.amount);
        date := i.date;
      }
      deps := i;
    }

    /** The type select's change handler. */
    method SelectType(t: TransactionType)
      modifies this`kind
      ensures kind == Some(t)
    {
      kind := Some(t);
    }

    /** The amount field's change handler, given the field's unformatted value. */
    method EnterAmount(s: string)
      modifies this`amount
      ensures amount == s
    {
      amount := s;
    }

    /** The date field's change handler. */
    method EnterDate(s: string)
      modifies this`date
      ensures date == s
    {
      date := s;
    }

    /** The button's `disabled` prop for the fields as they stand: enabled exactly when
        a type is chosen and the amount is NaN or positive. */
    predicate IsDisabled(): (disabled: bool)
      reads this
      ensures !disabled <==> kind.Some? && (ParseFloat(amount).None? || ParseFloat(amount).value > 0.0)
    {
      Disabled(kind, amount)
    }

    /** A click on the submit button: a disabled button swallows it; otherwise the form
        emits its current type, the parsed amount and the date, unchanged. */
    method ClickSubmit() returns (emitted: Option<Submission>)
      ensures emitted.None? <==> IsDisabled()
      ensures emitted.Some? ==> emitted.value.kind == kind.value && emitted.value.date == date
      ensures emitted.Some? ==> emitted.value.amount == ParseFloat(amount)
    {
      if Disabled(kind, amount) {
        emitted := None;
      } else {
        emitted := Some(Submission(kind.value, ParseFloat(amount), date));
      }
    }
  }

  // ---------------------------------------------------------------------------
  // Properties of the enable rule.

  /** A form with no type chosen never submits, whatever the amount. */
  lemma UnsetTypeDisables(amount: string)
    ensures Disabled(None, amount)
  {
  }

  /** An empty amount field reads as NaN and leaves the button enabled once a type is chosen. */
  lemma EmptyAmountDoesNotDisable(t: TransactionType)
    ensures ParseFloat("") == None
    ensures !Disabled(Some(t), "")
  {
    assert TrimStart("") == "";
    assert LeadingDigits("") == 0;
    assert FractionAfter("") == [];
  }

  /** With a type chosen, an amount written as a number in cents disables the button
      exactly when it is not positive. */
  lemma {:induction false} EnabledIffPositive(t: TransactionType, x: real)
    requires IsCents(x)
    ensures !Disabled(Some(t), NumberToString(x)) <==> x > 0.0
  {
    ParseNumberToString(x, "");
    assert NumberToString(x) + "" == NumberToString(x);
  }

  /** The form a caller opens with no initial values starts disabled, and would stay
      disabled after a type is chosen, because its amount "0" reads as zero. */
  lemma {:induction false} DefaultFormDisabled(today: string, t: TransactionType)
    ensures var i := Resolve(FormProps(None, None, None), today);
      Disabled(i.kind, NumberToString(i.amount)) && Disabled(Some(t), NumberToString(i.amount))
  {
    EnabledIffPositive(t, 0.0);
  }
}
