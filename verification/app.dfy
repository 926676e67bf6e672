/**
 * The calculator's top level: the Calculate action (re-validation, the
 * withdrawal-limit pre-pass, the main simulation) and the state it and the
 * field handlers update.
 */
module App {
  import opened Wrappers
  import opened Scheme
  import opened Types
  import opened Projection
  import opened Validation
  import opened CalculatorForm

  /** What the Calculate action reads. `None` stands for a field holding no number. */
  datatype Inputs = Inputs(
    monthlyInvestment: Option<real>,
    girlAge: Option<int>,
    withdrawalEnabled: bool,
    withdrawalAge: int,
    withdrawalAmount: real)

  /**
   * What one Calculate action does: nothing at all (an invalid core input),
   * a withdrawal error for the form, or a fresh projection.
   */
  datatype Outcome = Skipped | Rejected(error: InputError) | Computed(result: CalculationResult)

  /** Both core inputs are numbers and within their ranges. */
  predicate CoreValid(inp: Inputs) {
    inp.monthlyInvestment.Some? && inp.girlAge.Some? &&
    InvestmentInRange(inp.monthlyInvestment.value * 12.0) && AgeInRange(inp.girlAge.value)
  }

  function PlanOf(inp: Inputs): Plan
    requires CoreValid(inp)
  {
    Plan(inp.monthlyInvestment.value, inp.girlAge.value, inp.withdrawalEnabled, inp.withdrawalAge, inp.withdrawalAmount)
  }

  /** The specification of the Calculate action. */
  function Evaluate(inp: Inputs): Outcome {
    if !CoreValid(inp) then Skipped
    else
      var p := PlanOf(inp);
      if !p.withdrawalEnabled then Computed(Project(p))
      else if !WithdrawalAgeInRange(p.withdrawalAge) then
        Rejected(WithdrawalAgeOutOfRange(MinWithdrawalAge, MaturityPeriodYears - 1))
      else if p.withdrawalAmount <= 0.0 then Rejected(WithdrawalAmountNotPositive)
      else
        var cap := WithdrawalCap(p.WithdrawalYear(), p.YearlyInvestment());
        if p.withdrawalAmount > cap then Rejected(WithdrawalExceedsLimit(cap))
        else Computed(Project(p))
  }

  /** The Calculate action: validate, run the pre-pass when a withdrawal is asked for, then simulate. */
  method Calculate(inp: Inputs) returns (outcome: Outcome)
    ensures outcome == Evaluate(inp)
  {
    if inp.monthlyInvestment.None? || inp.girlAge.None? {
      // a field holding no number fails both range comparisons
      return Skipped;
    }
    var monthlyInvestment, girlAge := inp.monthlyInvestment.value, inp.girlAge.value;
    var yearlyInvestment := monthlyInvestment * 12.0;
    var isInvestmentValid := yearlyInvestment >= MinInvestment && yearlyInvestment <= MaxInvestment;
    var isAgeValid := girlAge >= MinGirlAge && girlAge <= MaxGirlAge;
    if !isInvestmentValid || !isAgeValid {
      return Skipped;
    }

    if inp.withdrawalEnabled {
      if inp.withdrawalAge < MinWithdrawalAge || inp.withdrawalAge >= MaturityPeriodYears {
        return Rejected(WithdrawalAgeOutOfRange(MinWithdrawalAge, MaturityPeriodYears - 1));
      }
      if inp.withdrawalAmount <= 0.0 {
        return Rejected(WithdrawalAmountNotPositive);
      }
      var balanceAtWithdrawalStart := BalanceAtWithdrawalStart(yearlyInvestment, inp.withdrawalAge - girlAge);
      var maxWithdrawal := balanceAtWithdrawalStart * WithdrawalShare;
      if inp.withdrawalAmount > maxWithdrawal {
        return Rejected(WithdrawalExceedsLimit(maxWithdrawal));
      }
    }

    var result := Simulate(Plan(monthlyInvestment, girlAge, inp.withdrawalEnabled, inp.withdrawalAge, inp.withdrawalAmount));
    outcome := Computed(result);
  }

  // ---------------------------------------------------------------------
  // What the Calculate action promises

  /**
   * Nothing happens unless the yearly contribution and the age are numbers within their
   * bounds, and the field handlers report an error under exactly the same conditions.
   */
  lemma EarlyRejection(inp: Inputs)
    ensures Evaluate(inp).Skipped? <==>
      !(inp.monthlyInvestment.Some? && inp.girlAge.Some? &&
        MinInvestment <= inp.monthlyInvestment.value * 12.0 <= MaxInvestment &&
        MinGirlAge <= inp.girlAge.value <= MaxGirlAge)
    ensures Evaluate(inp).Skipped? <==>
      MonthlyInvestmentError(inp.monthlyInvestment).Some? || GirlAgeError(inp.girlAge).Some?
  {
  }

  /** With the withdrawal on, the age is checked first and the sign of the amount second. */
  lemma WithdrawalInputOrder(inp: Inputs)
    requires CoreValid(inp) && inp.withdrawalEnabled
    ensures Evaluate(inp) == Rejected(WithdrawalAgeOutOfRange(MinWithdrawalAge, MaturityPeriodYears - 1)) <==>
      inp.withdrawalAge < MinWithdrawalAge || inp.withdrawalAge >= MaturityPeriodYears
    ensures Evaluate(inp) == Rejected(WithdrawalAmountNotPositive) <==>
      MinWithdrawalAge <= inp.withdrawalAge < MaturityPeriodYears && inp.withdrawalAmount <= 0.0
  {
  }

  /**
   * Past the age and sign checks, an amount strictly above half the balance accrued before the
   * withdrawal year is rejected, carrying that limit, and an amount up to it is accepted; the
   * limit is zero when the withdrawal would fall in the first year or earlier.
   */
  lemma WithdrawalCapEnforced(inp: Inputs)
    requires CoreValid(inp) && inp.withdrawalEnabled
    requires MinWithdrawalAge <= inp.withdrawalAge < MaturityPeriodYears && inp.withdrawalAmount > 0.0
    ensures var p := PlanOf(inp);
      var cap := WithdrawalCap(p.WithdrawalYear(), p.YearlyInvestment());
      (Evaluate(inp) == Rejected(WithdrawalExceedsLimit(cap)) <==> inp.withdrawalAmount > cap) &&
      (Evaluate(inp) == Computed(Project(p)) <==> inp.withdrawalAmount <= cap)
    ensures inp.withdrawalAge - inp.girlAge.value <= 1 ==> Evaluate(inp) == Rejected(WithdrawalExceedsLimit(0.0))
  {
  }

  /**
   * An accepted run is the projection of the inputs, it never takes the account below zero,
   * and its withdrawal is within half of the main loop's balance at the end of the year before.
   */
  lemma ComputedRun(inp: Inputs)
    requires Evaluate(inp).Computed?
    ensures CoreValid(inp) && Evaluate(inp).result == Project(PlanOf(inp))
    ensures forall k :: 0 <= k < MaturityPeriodYears ==> Evaluate(inp).result.yearlyData[k].closingBalance >= 0.0
    ensures inp.withdrawalEnabled ==>
      var wy := inp.withdrawalAge - inp.girlAge.value;
      2 <= wy &&
      (wy <= MaturityPeriodYears + 1 ==>
        inp.withdrawalAmount <= Evaluate(inp).result.yearlyData[wy - 2].closingBalance * WithdrawalShare)
  {
    var p := PlanOf(inp);
    BalancesStayNonNegative(p);
    CapMatchesMainLoop(p);
  }

  /**
   * When the form enables the button, with its error slots filled by the field handlers for the
   * current values, the only way Calculate can still refuse is the 50% limit.
   */
  lemma EnabledButtonOnlyCapRejects(inp: Inputs, withdrawalAmountError: Option<InputError>)
    requires !IsInvalid(FormProps(MonthlyInvestmentError(inp.monthlyInvestment), GirlAgeError(inp.girlAge),
                                  inp.withdrawalEnabled, WithdrawalAgeError(inp.withdrawalAge),
                                  withdrawalAmountError, inp.withdrawalAmount))
    ensures Evaluate(inp).Computed? || (Evaluate(inp).Rejected? && Evaluate(inp).error.WithdrawalExceedsLimit?)
  {
  }

  // ---------------------------------------------------------------------
  // The component state

  /** The values and error slots the calculator holds between user actions. */
  class AppState {
    var monthlyInvestment: Option<real>
    var girlAge: Option<int>
    var results: Option<CalculationResult>
    var investmentError: Option<InputError>
    var ageError: Option<InputError>
    var isWithdrawalEnabled: bool
    var withdrawalAge: int
    var withdrawalAmount: real
    var withdrawalAgeError: Option<InputError>
    var withdrawalAmountError: Option<InputError>

    /** The starting state: 4000 a month from age 1, no withdrawal, no result, no errors. */
    constructor ()
      ensures monthlyInvestment == Some(4000.0) && girlAge == Some(1) && results == None
      ensures investmentError == None && ageError == None
      ensures !isWithdrawalEnabled && withdrawalAge == 18 && withdrawalAmount == 100000.0
      ensures withdrawalAgeError == None && withdrawalAmountError == None
      ensures AgeInRange(1) ==> FieldsAgree()
    {
      monthlyInvestment := Some(4000.0);
      girlAge := Some(1);
      results := None;
      investmentError := None;
      ageError := None;
      isWithdrawalEnabled := false;
      withdrawalAge := 18;
      withdrawalAmount := 100000.0;
      withdrawalAgeError := None;
      withdrawalAmountError := None;
    }

    function CurrentInputs(): Inputs
      reads this
    {
      Inputs(monthlyInvestment, girlAge, isWithdrawalEnabled, withdrawalAge, withdrawalAmount)
    }

    /** The props handed to the form. */
    function Props(): FormProps
      reads this
    {
      FormProps(investmentError, ageError, isWithdrawalEnabled, withdrawalAgeError, withdrawalAmountError, withdrawalAmount)
    }

    /** The three input-driven error slots hold what their field validators say of the current values. */
    ghost predicate FieldsAgree()
      reads this
    {
      investmentError == MonthlyInvestmentError(monthlyInvestment) &&
      ageError == GirlAgeError(girlAge) &&
      withdrawalAgeError == WithdrawalAgeError(withdrawalAge)
    }

    /**
     * The Calculate action. An invalid core input changes nothing, so the previous result stays;
     * otherwise the amount error is cleared first, then a withdrawal error lands in its slot with
     * the previous result kept, or the new projection replaces the result.
     */
    method HandleCalculate()
      modifies this
      ensures CurrentInputs() == old(CurrentInputs())
      ensures investmentError == old(investmentError) && ageError == old(ageError)
      ensures match Evaluate(old(CurrentInputs()))
        case Skipped =>
          results == old(results) && withdrawalAgeError == old(withdrawalAgeError) &&
          withdrawalAmountError == old(withdrawalAmountError)
        case Rejected(e) =>
          results == old(results) &&
          if e.WithdrawalAgeOutOfRange? then withdrawalAgeError == Some(e) && withdrawalAmountError == None
          else withdrawalAgeError == old(withdrawalAgeError) && withdrawalAmountError == Some(e)
        case Computed(r) =>
          results == Some(r) && withdrawalAgeError == old(withdrawalAgeError) && withdrawalAmountError == None
      ensures Evaluate(old(CurrentInputs())).Rejected? ==> IsInvalid(Props())
      ensures old(FieldsAgree()) ==> FieldsAgree()
    {
      var outcome := Calculate(CurrentInputs());
      match outcome
      case Skipped =>
      case Rejected(e) =>
        withdrawalAmountError := None;
        if e.WithdrawalAgeOutOfRange? {
          withdrawalAgeError := Some(e);
        } else {
          withdrawalAmountError := Some(e);
        }
      case Computed(r) =>
        withdrawalAmountError := None;
        results := Some(r);
    }

    method HandleMonthlyInvestmentChange(value: Option<real>)
      modifies this
      ensures monthlyInvestment == value && investmentError == MonthlyInvestmentError(value)
      ensures girlAge == old(girlAge) && ageError == old(ageError) && results == old(results)
      ensures isWithdrawalEnabled == old(isWithdrawalEnabled) && withdrawalAge == old(withdrawalAge)
      ensures withdrawalAmount == old(withdrawalAmount)
      ensures withdrawalAgeError == old(withdrawalAgeError) && withdrawalAmountError == old(withdrawalAmountError)
      ensures old(FieldsAgree()) ==> FieldsAgree()
    {
      monthlyInvestment := value;
      investmentError := MonthlyInvestmentError(value);
    }

    method HandleAgeChange(value: Option<int>)
      modifies this
      ensures girlAge == value && ageError == GirlAgeError(value)
      ensures monthlyInvestment == old(monthlyInvestment) && investmentError == old(investmentError)
      ensures results == old(results)
      ensures isWithdrawalEnabled == old(isWithdrawalEnabled) && withdrawalAge == old(withdrawalAge)
      ensures withdrawalAmount == old(withdrawalAmount)
      ensures withdrawalAgeError == old(withdrawalAgeError) && withdrawalAmountError == old(withdrawalAmountError)
      ensures old(FieldsAgree()) ==> FieldsAgree()
    {
      girlAge := value;
      ageError := GirlAgeError(value);
    }

    method HandleWithdrawalAgeChange(value: int)
      modifies this
      ensures withdrawalAge == value && withdrawalAgeError == WithdrawalAgeError(value)
      ensures monthlyInvestment == old(monthlyInvestment) && investmentError == old(investmentError)
      ensures girlAge == old(girlAge) && ageError == old(ageError) && results == old(results)
      ensures isWithdrawalEnabled == old(isWithdrawalEnabled) && withdrawalAmount == old(withdrawalAmount)
      ensures withdrawalAmountError == old(withdrawalAmountError)
      ensures old(FieldsAgree()) ==> FieldsAgree()
    {
      withdrawalAge := value;
      withdrawalAgeError := WithdrawalAgeError(value);
    }

    method HandleWithdrawalAmountChange(value: real)
      modifies this
      ensures withdrawalAmount == value && withdrawalAmountError == WithdrawalAmountError(value)
      ensures monthlyInvestment == old(monthlyInvestment) && investmentError == old(investmentError)
      ensures girlAge == old(girlAge) && ageError == old(ageError) && results == old(results)
      ensures isWithdrawalEnabled == old(isWithdrawalEnabled) && withdrawalAge == old(withdrawalAge)
      ensures withdrawalAgeError == old(withdrawalAgeError)
      ensures old(FieldsAgree()) ==> FieldsAgree()
    {
      withdrawalAmount := value;
      withdrawalAmountError := WithdrawalAmountError(value);
    }

    /** The withdrawal switch sets its flag and nothing else. */
    method HandleWithdrawalEnabledChange(enabled: bool)
      modifies this
      ensures isWithdrawalEnabled == enabled
      ensures monthlyInvestment == old(monthlyInvestment) && investmentError == old(investmentError)
      ensures girlAge == old(girlAge) && ageError == old(ageError) && results == old(results)
      ensures withdrawalAge == old(withdrawalAge) && withdrawalAmount == old(withdrawalAmount)
      ensures withdrawalAgeError == old(withdrawalAgeError) && withdrawalAmountError == old(withdrawalAmountError)
      ensures old(FieldsAgree()) ==> FieldsAgree()
    {
      isWithdrawalEnabled := enabled;
    }
  }
}
