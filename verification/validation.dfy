/**
 * Input rules: the range checks the calculation re-applies, and the per-field
 * validators that run as each input changes. Errors are tagged values carrying
 * the bound that was crossed; wording is left to the presentation layer.
 */
module Validation {
  import opened Wrappers
  import opened Scheme

  datatype InputError =
    | InvalidNumber                               // the field does not hold a number
    | InvestmentBelowMinimum(minimum: real)       // yearly total under the scheme minimum
    | InvestmentAboveMaximum(maximum: real)       // yearly total over the scheme maximum
    | AgeBelowMinimum(minimumAge: int)
    | AgeAboveMaximum(maximumAge: int)
    | WithdrawalAgeOutOfRange(lowest: int, highest: int)
    | WithdrawalAmountNotPositive
    | WithdrawalExceedsLimit(maxWithdrawal: real) // more than half the balance accrued before the withdrawal year

  /** The yearly-contribution check the calculation applies before simulating. */
  predicate InvestmentInRange(yearly: real) {
    yearly >= MinInvestment && yearly <= MaxInvestment
  }

  /** The opening-age check the calculation applies before simulating. */
  predicate AgeInRange(age: int) {
    age >= MinGirlAge && age <= MaxGirlAge
  }

  /** The withdrawal-age check, shared by the field handler and the calculation. */
  predicate WithdrawalAgeInRange(age: int) {
    !(age < MinWithdrawalAge || age >= MaturityPeriodYears)
  }

  /** Error for the monthly-contribution field; `None` input stands for a non-numeric entry. */
  function MonthlyInvestmentError(value: Option<real>): (e: Option<InputError>)
    ensures e.None? <==> value.Some? && InvestmentInRange(value.value * 12.0)
    ensures value.None? ==> e == Some(InvalidNumber)
    ensures e == Some(InvestmentBelowMinimum(MinInvestment)) <==> value.Some? && value.value * 12.0 < MinInvestment
    ensures e == Some(InvestmentAboveMaximum(MaxInvestment)) <==> value.Some? && value.value * 12.0 > MaxInvestment
  {
    match value
    case None => Some(InvalidNumber)
    case Some(v) =>
      var yearlyValue := v * 12.0;
      if yearlyValue < MinInvestment then Some(InvestmentBelowMinimum(MinInvestment))
      else if yearlyValue > MaxInvestment then Some(InvestmentAboveMaximum(MaxInvestment))
      else None
  }

  /** Error for the opening-age field; `None` input stands for a non-numeric entry. */
  function GirlAgeError(value: Option<int>): (e: Option<InputError>)
    ensures e.None? <==> value.Some? && AgeInRange(value.value)
    ensures value.None? ==> e == Some(InvalidNumber)
    ensures e == Some(AgeBelowMinimum(MinGirlAge)) <==> value.Some? && value.value < MinGirlAge
    ensures e == Some(AgeAboveMaximum(MaxGirlAge)) <==> value.Some? && value.value > MaxGirlAge
  {
    match value
    case None => Some(InvalidNumber)
    case Some(v) =>
      if v < MinGirlAge then Some(AgeBelowMinimum(MinGirlAge))
      else if v > MaxGirlAge then Some(AgeAboveMaximum(MaxGirlAge))
      else None
  }

  /** Error for the withdrawal-age field: ages 18 to one year short of maturity are allowed. */
  function WithdrawalAgeError(value: int): (e: Option<InputError>)
    ensures e.None? <==> MinWithdrawalAge <= value < MaturityPeriodYears
    ensures e.Some? ==> e.value == WithdrawalAgeOutOfRange(MinWithdrawalAge, MaturityPeriodYears - 1)
  {
    if value < MinWithdrawalAge || value >= MaturityPeriodYears then
      Some(WithdrawalAgeOutOfRange(MinWithdrawalAge, MaturityPeriodYears - 1))
    else None
  }

  /** Error for the withdrawal-amount field; the 50% cap is only checked by the calculation. */
  function WithdrawalAmountError(value: real): (e: Option<InputError>)
    ensures e.None? <==> value > 0.0
    ensures e.Some? ==> e.value == WithdrawalAmountNotPositive
  {
    if value <= 0.0 then Some(WithdrawalAmountNotPositive) else None
  }
}
