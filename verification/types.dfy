/** The records the projection produces, field for field as the display layer receives them. */
module Types {
  /** One simulated year. */
  datatype YearlyData = YearlyData(
    year: int,
    age: int,
    monthlyInvestment: real,
    investment: real,        // the yearly contribution applied this year
    interest: real,
    closingBalance: real,
    totalInvestment: real,   // running sum of contributions up to this year
    withdrawal: real)

  /** The whole projection: the yearly table and its summary totals. */
  datatype CalculationResult = CalculationResult(
    yearlyData: seq<YearlyData>,
    totalInvestment: real,
    totalInterest: real,
    maturityValue: real,
    totalWithdrawal: real)
}
