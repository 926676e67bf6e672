/**
 * The fixed parameters of the savings scheme. The two age bounds are left
 * abstract: nothing below depends on their values, only on the minimum
 * not exceeding the maximum, which holds because the maximum is the minimum
 * plus a natural span.
 */
module Scheme {
  /** Years in which contributions are accepted. */
  const DepositPeriodYears: nat := 15
  /** Years the account accrues interest before maturity. */
  const MaturityPeriodYears: nat := 21
  /** Annual compounding rate, 8.2% (exactly 41/500). */
  const InterestRate: real := 0.082
  /** Bounds on the YEARLY contribution. */
  const MinInvestment: real := 250.0
  const MaxInvestment: real := 150000.0
  /** Bounds on the account holder's age at opening. */
  const MinGirlAge: int
  const GirlAgeSpan: nat
  const MaxGirlAge: int := MinGirlAge + GirlAgeSpan
  /** Earliest age at which the partial withdrawal may be taken. */
  const MinWithdrawalAge: int := 18
  /** Share of the accrued balance that a withdrawal may take at most. */
  const WithdrawalShare: real := 0.5
}
