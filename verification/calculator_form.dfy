/**
 * The form's gate on the Calculate button and the top of its contribution
 * input range. The rendering itself is not modelled.
 */
module CalculatorForm {
  import opened Wrappers
  import opened Scheme
  import opened Validation

  /** The props the gate reads: the four error slots, the withdrawal switch and amount. */
  datatype FormProps = FormProps(
    investmentError: Option<InputError>,
    ageError: Option<InputError>,
    isWithdrawalEnabled: bool,
    withdrawalAgeError: Option<InputError>,
    withdrawalAmountError: Option<InputError>,
    withdrawalAmount: real)

  predicate IsCoreInvalid(f: FormProps) {
    f.investmentError.Some? || f.ageError.Some?
  }

  predicate IsWithdrawalInvalid(f: FormProps) {
    f.isWithdrawalEnabled &&
    (f.withdrawalAgeError.Some? || f.withdrawalAmountError.Some? || f.withdrawalAmount <= 0.0)
  }

  /** The Calculate button is disabled exactly when this holds. */
  predicate IsInvalid(f: FormProps) {
    IsCoreInvalid(f) || IsWithdrawalInvalid(f)
  }

  /** Upper end of the monthly input and slider. */
  const MonthlyMax: real := MaxInvestment / 12.0

  /** Any core error disables the button, whatever the withdrawal fields say. */
  lemma CoreErrorsDisable(f: FormProps)
    requires f.investmentError.Some? || f.ageError.Some?
    ensures IsInvalid(f)
  {
  }

  /** With the withdrawal switched off, its error slots and amount never affect the button. */
  lemma WithdrawalOffIgnored(f: FormProps, g: FormProps)
    requires !f.isWithdrawalEnabled
    requires g == f.(withdrawalAgeError := g.withdrawalAgeError, withdrawalAmountError := g.withdrawalAmountError,
                     withdrawalAmount := g.withdrawalAmount)
    ensures IsInvalid(f) <==> IsInvalid(g)
  {
  }

  /** With the withdrawal on, a withdrawal error or a non-positive amount disables the button. */
  lemma WithdrawalOnChecked(f: FormProps)
    requires f.isWithdrawalEnabled
    requires f.withdrawalAgeError.Some? || f.withdrawalAmountError.Some? || f.withdrawalAmount <= 0.0
    ensures IsInvalid(f)
  {
  }

  /** The button is enabled exactly when every slot is clean and an enabled withdrawal is positive. */
  lemma EnabledExactlyWhenClean(f: FormProps)
    ensures !IsInvalid(f) <==>
      f.investmentError == None && f.ageError == None &&
      (f.isWithdrawalEnabled ==>
        f.withdrawalAgeError == None && f.withdrawalAmountError == None && f.withdrawalAmount > 0.0)
  {
  }

  /** The top of the monthly range is exactly the yearly maximum spread over twelve months. */
  lemma MonthlyMaxMatchesYearlyCap()
    ensures MonthlyMax * 12.0 == MaxInvestment
    ensures InvestmentInRange(MonthlyMax * 12.0)
  {
  }
}
