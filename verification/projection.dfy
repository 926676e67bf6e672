/**
 * The projection engine: the withdrawal-limit pre-pass and the main
 * year-by-year simulation, each as a method with a loop, both proved
 * against the recursive specification functions below, and the lemmas
 * that state what the produced table and totals mean.
 */
module Projection {
  import opened Scheme
  import opened Types

  /** The validated numbers one projection runs on. */
  datatype Plan = Plan(
    monthlyInvestment: real,
    girlAge: int,
    withdrawalEnabled: bool,
    withdrawalAge: int,
    withdrawalAmount: real)
  {
    function YearlyInvestment(): real { monthlyInvestment * 12.0 }

    /** The simulated year (counted from 1) in which the holder reaches the withdrawal age. */
    function WithdrawalYear(): int { withdrawalAge - girlAge }

    /** The same plan with the partial withdrawal switched off. */
    function WithoutWithdrawal(): Plan { this.(withdrawalEnabled := false) }
  }

  /** The contribution made in year `year`: `amount` during the deposit period, nothing after it. */
  function Deposit(year: int, amount: real): real {
    if year <= DepositPeriodYears then amount else 0.0
  }

  /** Interest credited on the opening balance plus that year's contribution. */
  function InterestOn(opening: real, contribution: real): real {
    (opening + contribution) * InterestRate
  }

  /** Balance after `n` years of contribution and interest with no withdrawal. */
  function BalanceAfter(n: nat, yearly: real): real {
    if n == 0 then 0.0
    else
      var b := BalanceAfter(n - 1, yearly);
      var c := Deposit(n, yearly);
      b + c + InterestOn(b, c)
  }

  /** The largest withdrawal the pre-pass admits for a withdrawal in year `withdrawalYear`. */
  function WithdrawalCap(withdrawalYear: int, yearly: real): real {
    if withdrawalYear <= 1 then 0.0 else BalanceAfter(withdrawalYear - 1, yearly) * WithdrawalShare
  }

  /** (1 + rate)^m: what one unit removed from the balance costs m years later. */
  function Growth(m: nat): real {
    if m == 0 then 1.0 else Growth(m - 1) * (1.0 + InterestRate)
  }

  /** Closing balance of the last year of `rows`; the opening balance of the year after. */
  function Closing(rows: seq<YearlyData>): real {
    if rows == [] then 0.0 else rows[|rows| - 1].closingBalance
  }

  /** Running contribution total at the end of `rows`. */
  function Invested(rows: seq<YearlyData>): real {
    if rows == [] then 0.0 else rows[|rows| - 1].totalInvestment
  }

  function SumWithdrawal(rows: seq<YearlyData>): real {
    if rows == [] then 0.0 else SumWithdrawal(rows[..|rows| - 1]) + rows[|rows| - 1].withdrawal
  }

  function SumInterest(rows: seq<YearlyData>): real {
    if rows == [] then 0.0 else SumInterest(rows[..|rows| - 1]) + rows[|rows| - 1].interest
  }

  /** The record of year `year`, given the balance it opens with and the contributions before it. */
  function Row(p: Plan, year: int, opening: real, investedBefore: real): YearlyData {
    var age := p.girlAge + year;
    var investment := Deposit(year, p.YearlyInvestment());
    var interest := InterestOn(opening, investment);
    var withdrawal := if p.withdrawalEnabled && age == p.withdrawalAge then p.withdrawalAmount else 0.0;
    YearlyData(year, age, Deposit(year, p.monthlyInvestment), investment, interest,
               opening + investment + interest - withdrawal, investedBefore + investment, withdrawal)
  }

  /** The records of the first `n` years, each year opening with the previous closing balance. */
  function Schedule(p: Plan, n: nat): (rows: seq<YearlyData>)
    ensures |rows| == n
  {
    if n == 0 then []
    else
      var prev := Schedule(p, n - 1);
      prev + [Row(p, n, Closing(prev), Invested(prev))]
  }

  /** The full projection, with the totals derived from the table. */
  function Project(p: Plan): CalculationResult {
    var rows := Schedule(p, MaturityPeriodYears);
    var withdrawn := SumWithdrawal(rows);
    CalculationResult(rows, Invested(rows), Closing(rows) + withdrawn - Invested(rows), Closing(rows), withdrawn)
  }

  /** The balance a year opens with: zero in the first year, the previous closing balance after. */
  function OpeningBalance(rows: seq<YearlyData>, k: nat): real
    requires k <= |rows|
  {
    if k == 0 then 0.0 else rows[k - 1].closingBalance
  }

  /** The pre-pass: compound contributions for the years before the withdrawal year. */
  method BalanceAtWithdrawalStart(yearly: real, withdrawalYear: int) returns (balance: real)
    ensures withdrawalYear <= 1 ==> balance == 0.0
    ensures withdrawalYear > 1 ==> balance == BalanceAfter(withdrawalYear - 1, yearly)
  {
    balance := 0.0;
    var i := 1;
    while i < withdrawalYear
      invariant 1 <= i
      invariant withdrawalYear <= 1 ==> i == 1
      invariant withdrawalYear > 1 ==> i <= withdrawalYear
      invariant balance == BalanceAfter(i - 1, yearly)
    {
      var investment := Deposit(i, yearly);
      var interest := InterestOn(balance, investment);
      balance := balance + investment + interest;
      i := i + 1;
    }
  }

  /** The main loop: one record per year of the maturity period, then the totals. */
  method Simulate(p: Plan) returns (result: CalculationResult)
    ensures result == Project(p)
  {
    var yearlyInvestment := p.YearlyInvestment();
    var openingBalance := 0.0;
    var totalInvestment := 0.0;
    var yearlyData: seq<YearlyData> := [];
    var totalWithdrawal := 0.0;
    for i := 1 to MaturityPeriodYears + 1
      invariant yearlyData == Schedule(p, i - 1)
      invariant openingBalance == Closing(yearlyData)
      invariant totalInvestment == Invested(yearlyData)
      invariant totalWithdrawal == SumWithdrawal(yearlyData)
    {
      var currentAge := p.girlAge + i;
      var currentYearInvestment := Deposit(i, yearlyInvestment);
      var currentMonthInvestment := Deposit(i, p.monthlyInvestment);
      totalInvestment := totalInvestment + currentYearInvestment;

      var interest := InterestOn(openingBalance, currentYearInvestment);
      var closingBalance := openingBalance + currentYearInvestment + interest;

      var currentYearWithdrawal := 0.0;
      if p.withdrawalEnabled && currentAge == p.withdrawalAge {
        currentYearWithdrawal := p.withdrawalAmount;
        closingBalance := closingBalance - currentYearWithdrawal;
        totalWithdrawal := totalWithdrawal + currentYearWithdrawal;
      }

      var row := YearlyData(i, currentAge, currentMonthInvestment, currentYearInvestment, interest,
                            closingBalance, totalInvestment, currentYearWithdrawal);
      assert row == Row(p, i, Closing(yearlyData), Invested(yearlyData));
      assert (yearlyData + [row])[..i - 1] == yearlyData;
      yearlyData := yearlyData + [row];
      openingBalance := closingBalance;
    }
    var totalInterest := openingBalance + totalWithdrawal - totalInvestment;
    result := CalculationResult(yearlyData, totalInvestment, totalInterest, openingBalance, totalWithdrawal);
  }

  // ---------------------------------------------------------------------
  // Structure of the schedule

  /** Dropping the last record of the first `n` years gives the first `n - 1` years. */
  lemma ScheduleInit(p: Plan, n: nat)
    requires n > 0
    ensures Schedule(p, n)[..n - 1] == Schedule(p, n - 1)
  {
    var prev := Schedule(p, n - 1);
    assert Schedule(p, n) == prev + [Row(p, n, Closing(prev), Invested(prev))];
  }

  /** A shorter run is a prefix of a longer one: later years never rewrite earlier ones. */
  lemma {:induction false} SchedulePrefix(p: Plan, m: nat, n: nat)
    requires m <= n
    ensures Schedule(p, m) == Schedule(p, n)[..m]
    decreases n
  {
    if m < n {
      SchedulePrefix(p, m, n - 1);
      ScheduleInit(p, n);
      assert Schedule(p, n)[..m] == Schedule(p, n)[..n - 1][..m];
    }
  }

  /** Record `k` of any run is the record of year `k + 1` built from the years before it. */
  lemma ScheduleAt(p: Plan, n: nat, k: nat)
    requires k < n
    ensures Schedule(p, n)[k] == Row(p, k + 1, Closing(Schedule(p, k)), Invested(Schedule(p, k)))
  {
    SchedulePrefix(p, k + 1, n);
    assert Schedule(p, n)[k] == Schedule(p, k + 1)[k];
  }

  /** The closing balance after `k` years is the closing balance of record `k - 1` of a longer run. */
  lemma ClosingAt(p: Plan, n: nat, k: nat)
    requires 0 < k <= n
    ensures Closing(Schedule(p, k)) == Schedule(p, n)[k - 1].closingBalance
  {
    SchedulePrefix(p, k, n);
    assert Schedule(p, k)[k - 1] == Schedule(p, n)[k - 1];
  }

  /** Exactly one record per year, in order: record k is year k + 1 at age girlAge + k + 1. */
  lemma RecordShape(p: Plan)
    ensures |Project(p).yearlyData| == MaturityPeriodYears
    ensures forall k :: 0 <= k < MaturityPeriodYears ==>
      Project(p).yearlyData[k].year == k + 1 && Project(p).yearlyData[k].age == p.girlAge + k + 1
  {
    forall k | 0 <= k < MaturityPeriodYears
      ensures Project(p).yearlyData[k].year == k + 1 && Project(p).yearlyData[k].age == p.girlAge + k + 1
    {
      ScheduleAt(p, MaturityPeriodYears, k);
    }
  }

  // ---------------------------------------------------------------------
  // Contributions

  /** How many of the first `n` years are deposit years. */
  function DepositYears(n: nat): nat {
    if n <= DepositPeriodYears then n else DepositPeriodYears
  }

  /** The sum of the contributions of the first `n` years. */
  function Contributed(n: nat, yearly: real): real {
    if n == 0 then 0.0 else Contributed(n - 1, yearly) + Deposit(n, yearly)
  }

  /** Contributions over `n` years are one yearly amount per deposit year. */
  lemma {:induction false} ContributedClosedForm(n: nat, yearly: real)
    ensures Contributed(n, yearly) == DepositYears(n) as real * yearly
  {
    if n > 0 {
      ContributedClosedForm(n - 1, yearly);
      if n <= DepositPeriodYears {
        assert (n - 1) as real * yearly + yearly == n as real * yearly;
      }
    }
  }

  /** The running contribution total after `n` years is the sum of their contributions. */
  lemma {:induction false} InvestedAfter(p: Plan, n: nat)
    ensures Invested(Schedule(p, n)) == Contributed(n, p.YearlyInvestment())
  {
    if n > 0 {
      InvestedAfter(p, n - 1);
    }
  }

  /** Record `k` of a run: its contributions are those of year `k + 1`, added to the running total. */
  lemma ContributionAt(p: Plan, n: nat, k: nat)
    requires k < n
    ensures Schedule(p, n)[k].investment == (if k < DepositPeriodYears then p.YearlyInvestment() else 0.0)
    ensures Schedule(p, n)[k].monthlyInvestment == (if k < DepositPeriodYears then p.monthlyInvestment else 0.0)
    ensures Schedule(p, n)[k].totalInvestment ==
      (if k == 0 then 0.0 else Schedule(p, n)[k - 1].totalInvestment) + Schedule(p, n)[k].investment
  {
    ScheduleAt(p, n, k);
    if k > 0 {
      SchedulePrefix(p, k, n);
      assert Schedule(p, k)[k - 1] == Schedule(p, n)[k - 1];
    }
  }

  /**
   * Contributions stop after the deposit period, each record's running total adds that year's
   * contribution to the previous one, and the final total is fifteen yearly amounts.
   */
  lemma ContributionCutoff(p: Plan)
    ensures forall k :: 0 <= k < MaturityPeriodYears ==>
      Project(p).yearlyData[k].investment == (if k < DepositPeriodYears then p.YearlyInvestment() else 0.0) &&
      Project(p).yearlyData[k].monthlyInvestment == (if k < DepositPeriodYears then p.monthlyInvestment else 0.0) &&
      Project(p).yearlyData[k].totalInvestment ==
        (if k == 0 then 0.0 else Project(p).yearlyData[k - 1].totalInvestment) + Project(p).yearlyData[k].investment
    ensures Project(p).totalInvestment == DepositPeriodYears as real * p.YearlyInvestment()
  {
    forall k | 0 <= k < MaturityPeriodYears
      ensures Project(p).yearlyData[k].investment == (if k < DepositPeriodYears then p.YearlyInvestment() else 0.0) &&
        Project(p).yearlyData[k].monthlyInvestment == (if k < DepositPeriodYears then p.monthlyInvestment else 0.0) &&
        Project(p).yearlyData[k].totalInvestment ==
          (if k == 0 then 0.0 else Project(p).yearlyData[k - 1].totalInvestment) + Project(p).yearlyData[k].investment
    {
      ContributionAt(p, MaturityPeriodYears, k);
    }
    InvestedAfter(p, MaturityPeriodYears);
    ContributedClosedForm(MaturityPeriodYears, p.YearlyInvestment());
  }

  // ---------------------------------------------------------------------
  // Balances

  /**
   * The balance recurrence: the first year opens at zero, every later year opens with the
   * previous closing balance, interest is credited on opening balance plus contribution,
   * and the closing balance is opening + contribution + interest - withdrawal.
   */
  lemma BalanceChain(p: Plan)
    ensures forall k :: 0 <= k < MaturityPeriodYears ==>
      var rows := Project(p).yearlyData;
      rows[k].interest == (OpeningBalance(rows, k) + rows[k].investment) * InterestRate &&
      rows[k].closingBalance == OpeningBalance(rows, k) + rows[k].investment + rows[k].interest - rows[k].withdrawal
  {
    var rows := Project(p).yearlyData;
    forall k | 0 <= k < MaturityPeriodYears
      ensures rows[k].interest == (OpeningBalance(rows, k) + rows[k].investment) * InterestRate &&
        rows[k].closingBalance == OpeningBalance(rows, k) + rows[k].investment + rows[k].interest - rows[k].withdrawal
    {
      ScheduleAt(p, MaturityPeriodYears, k);
      if k > 0 {
        ClosingAt(p, MaturityPeriodYears, k);
      }
    }
  }

  /** Before the withdrawal year the main loop's balance is the pre-pass recurrence. */
  lemma {:induction false} PrePassMatchesSchedule(p: Plan, n: nat)
    requires !p.withdrawalEnabled || n < p.WithdrawalYear()
    ensures Closing(Schedule(p, n)) == BalanceAfter(n, p.YearlyInvestment())
  {
    if n > 0 {
      PrePassMatchesSchedule(p, n - 1);
    }
  }

  /**
   * The withdrawal cap is half the main loop's closing balance in the year before the
   * withdrawal year; there is no such year, and the cap is zero, when that year is 1 or less.
   */
  lemma CapMatchesMainLoop(p: Plan)
    ensures p.WithdrawalYear() <= 1 ==> WithdrawalCap(p.WithdrawalYear(), p.YearlyInvestment()) == 0.0
    ensures 2 <= p.WithdrawalYear() <= MaturityPeriodYears + 1 ==>
      WithdrawalCap(p.WithdrawalYear(), p.YearlyInvestment()) ==
        Project(p).yearlyData[p.WithdrawalYear() - 2].closingBalance * WithdrawalShare
  {
    var wy := p.WithdrawalYear();
    if 2 <= wy <= MaturityPeriodYears + 1 {
      PrePassMatchesSchedule(p, wy - 1);
      ClosingAt(p, MaturityPeriodYears, wy - 1);
    }
  }

  /** Every balance the pre-pass reaches is non-negative when contributions are. */
  lemma {:induction false} BalanceAfterNonNegative(n: nat, yearly: real)
    requires yearly >= 0.0
    ensures BalanceAfter(n, yearly) >= 0.0
  {
    if n > 0 {
      BalanceAfterNonNegative(n - 1, yearly);
    }
  }

  lemma {:induction false} ClosingNonNegative(p: Plan, n: nat)
    requires p.monthlyInvestment >= 0.0
    requires p.withdrawalEnabled ==> p.withdrawalAmount <= WithdrawalCap(p.WithdrawalYear(), p.YearlyInvestment())
    ensures Closing(Schedule(p, n)) >= 0.0
  {
    if n > 0 {
      ClosingNonNegative(p, n - 1);
      var wy := p.WithdrawalYear();
      if p.withdrawalEnabled && n == wy && wy > 1 {
        PrePassMatchesSchedule(p, n - 1);
      }
    }
  }

  /**
   * A withdrawal within the pre-pass cap never drives the account negative: every closing
   * balance of the run is at least zero.
   */
  lemma BalancesStayNonNegative(p: Plan)
    requires p.monthlyInvestment >= 0.0
    requires p.withdrawalEnabled ==> p.withdrawalAmount <= WithdrawalCap(p.WithdrawalYear(), p.YearlyInvestment())
    ensures forall k :: 0 <= k < MaturityPeriodYears ==> Project(p).yearlyData[k].closingBalance >= 0.0
  {
    forall k | 0 <= k < MaturityPeriodYears
      ensures Project(p).yearlyData[k].closingBalance >= 0.0
    {
      ClosingNonNegative(p, k + 1);
      ClosingAt(p, MaturityPeriodYears, k + 1);
    }
  }

  // ---------------------------------------------------------------------
  // The withdrawal

  /**
   * At most one record carries a withdrawal: the one whose age is the withdrawal age,
   * and only when the withdrawal is enabled.
   */
  lemma SingleWithdrawal(p: Plan)
    ensures forall k :: 0 <= k < MaturityPeriodYears ==>
      Project(p).yearlyData[k].withdrawal ==
        (if p.withdrawalEnabled && Project(p).yearlyData[k].age == p.withdrawalAge then p.withdrawalAmount else 0.0)
    ensures forall j, k :: 0 <= j < k < MaturityPeriodYears && Project(p).yearlyData[j].withdrawal != 0.0 ==>
      Project(p).yearlyData[k].withdrawal == 0.0
  {
    var rows := Project(p).yearlyData;
    forall k | 0 <= k < MaturityPeriodYears
      ensures rows[k].withdrawal == (if p.withdrawalEnabled && rows[k].age == p.withdrawalAge then p.withdrawalAmount else 0.0)
      ensures rows[k].age == p.girlAge + k + 1
    {
      ScheduleAt(p, MaturityPeriodYears, k);
    }
  }

  lemma {:induction false} WithdrawnAfter(p: Plan, n: nat)
    ensures SumWithdrawal(Schedule(p, n)) ==
      (if p.withdrawalEnabled && 1 <= p.WithdrawalYear() <= n then p.withdrawalAmount else 0.0)
  {
    if n > 0 {
      WithdrawnAfter(p, n - 1);
      ScheduleInit(p, n);
    }
  }

  /** The total withdrawn is the withdrawal amount exactly when the withdrawal age falls inside the run. */
  lemma TotalWithdrawal(p: Plan)
    ensures Project(p).totalWithdrawal ==
      (if p.withdrawalEnabled && p.girlAge + 1 <= p.withdrawalAge <= p.girlAge + MaturityPeriodYears
       then p.withdrawalAmount else 0.0)
  {
    WithdrawnAfter(p, MaturityPeriodYears);
  }

  /**
   * How much lower the closing balance after `n` years is than it would be without the
   * withdrawal: the amount taken in the withdrawal year, compounded at the scheme's rate.
   */
  function Shortfall(p: Plan, n: nat): real {
    if n == 0 then 0.0
    else Shortfall(p, n - 1) * (1.0 + InterestRate) +
         (if p.withdrawalEnabled && p.WithdrawalYear() == n then p.withdrawalAmount else 0.0)
  }

  /** The shortfall is zero before the withdrawal year and `amount * 1.082^(n - withdrawalYear)` from it on. */
  lemma {:induction false} ShortfallClosedForm(p: Plan, n: nat)
    ensures Shortfall(p, n) ==
      if p.withdrawalEnabled && 1 <= p.WithdrawalYear() <= n then p.withdrawalAmount * Growth(n - p.WithdrawalYear()) else 0.0
  {
    if n > 0 {
      ShortfallClosedForm(p, n - 1);
      var wy := p.WithdrawalYear();
      if p.withdrawalEnabled && 1 <= wy <= n - 1 {
        var a, g := p.withdrawalAmount, Growth(n - 1 - wy);
        assert Growth(n - wy) == g * (1.0 + InterestRate);
        assert a * (g * (1.0 + InterestRate)) == (a * g) * (1.0 + InterestRate);
      }
    }
  }

  /** The closing balance after `n` years, read off the last record. */
  lemma ClosingStep(p: Plan, n: nat)
    requires n > 0
    ensures var prev := Closing(Schedule(p, n - 1));
      var c := Deposit(n, p.YearlyInvestment());
      Closing(Schedule(p, n)) == prev + c + InterestOn(prev, c) -
        (if p.withdrawalEnabled && p.WithdrawalYear() == n then p.withdrawalAmount else 0.0)
  {
  }

  /**
   * A withdrawal lowers the closing balance of its own year by exactly its amount, and every
   * later closing balance by that amount compounded forward, compared with the same plan without it.
   */
  lemma {:induction false} WithdrawalShift(p: Plan, n: nat)
    ensures Closing(Schedule(p, n)) == Closing(Schedule(p.WithoutWithdrawal(), n)) - Shortfall(p, n)
  {
    if n > 0 {
      var q := p.WithoutWithdrawal();
      WithdrawalShift(p, n - 1);
      ClosingStep(p, n);
      ClosingStep(q, n);
    }
  }

  lemma WithdrawalShiftAt(p: Plan, n: nat, k: nat)
    requires k < n
    ensures Schedule(p, n)[k].closingBalance == Schedule(p.WithoutWithdrawal(), n)[k].closingBalance - Shortfall(p, k + 1)
  {
    ClosingAt(p, n, k + 1);
    ClosingAt(p.WithoutWithdrawal(), n, k + 1);
    WithdrawalShift(p, k + 1);
  }

  /**
   * For every record of a result: the withdrawal lowers its own year's closing balance by
   * exactly the amount and each later year's by the amount compounded forward.
   */
  lemma WithdrawalShiftsBalances(p: Plan)
    ensures forall k :: 0 <= k < MaturityPeriodYears ==>
      Project(p).yearlyData[k].closingBalance ==
        Project(p.WithoutWithdrawal()).yearlyData[k].closingBalance - Shortfall(p, k + 1)
  {
    forall k | 0 <= k < MaturityPeriodYears
      ensures Project(p).yearlyData[k].closingBalance ==
        Project(p.WithoutWithdrawal()).yearlyData[k].closingBalance - Shortfall(p, k + 1)
    {
      WithdrawalShiftAt(p, MaturityPeriodYears, k);
    }
  }

  // ---------------------------------------------------------------------
  // Totals

  lemma {:induction false} ClosingDecomposes(p: Plan, n: nat)
    ensures Closing(Schedule(p, n)) ==
      Invested(Schedule(p, n)) + SumInterest(Schedule(p, n)) - SumWithdrawal(Schedule(p, n))
  {
    if n > 0 {
      ClosingDecomposes(p, n - 1);
      ScheduleInit(p, n);
    }
  }

  /** The pre-pass balance of the reference plan, 48000 a year, year by year to maturity. */
  lemma ReferencePrePass()
    ensures BalanceAfter(MaturityPeriodYears, 48000.0) == 2298278.134376021263228640250053583677992233182540542692465297063936
  {
    assert BalanceAfter(1, 48000.0) == 51936.0;
    assert BalanceAfter(2, 48000.0) == 108130.752;
    assert BalanceAfter(3, 48000.0) == 168933.473664;
    assert BalanceAfter(4, 48000.0) == 234722.018504448;
    assert BalanceAfter(5, 48000.0) == 305905.224021812736;
    assert BalanceAfter(6, 48000.0) == 382925.452391601380352;
    assert BalanceAfter(7, 48000.0) == 466261.339487712693540864;
    assert BalanceAfter(8, 48000.0) == 556430.769325705134411214848;
    assert BalanceAfter(9, 48000.0) == 653994.092410412955432934465536;
    assert BalanceAfter(10, 48000.0) == 759557.607988066817778435091709952;
    assert BalanceAfter(11, 48000.0) == 873777.331843088296836266769230168064;
    assert BalanceAfter(12, 48000.0) == 997363.073054221537176840644307041845248;
    assert BalanceAfter(13, 48000.0) == 1131082.845044667703225341577140219276558336;
    assert BalanceAfter(14, 48000.0) == 1275767.638338330454889819586465717257236119552;
    assert BalanceAfter(15, 48000.0) == 1432316.584682073552190784792555906072329481355264;
    assert BalanceAfter(16, 48000.0) == 1549766.544626003583470429145545490370260498826395648;
    assert BalanceAfter(17, 48000.0) == 1676847.401285335877315004335480220580621859730160091136;
    assert BalanceAfter(18, 48000.0) == 1814348.888190733419254834690989598668232852228033218609152;
    assert BalanceAfter(19, 48000.0) == 1963125.497022373559633731135650745759027946110731942535102464;
    assert BalanceAfter(20, 48000.0) == 2124101.787778208191523697088774106911268237691811961822980866048;
    assert BalanceAfter(21, 48000.0) == 2298278.134376021263228640250053583677992233182540542692465297063936;
  }

  /**
   * The maturity value is the last closing balance, and the derived total interest
   * (maturity + withdrawn - invested) equals the sum of the interest credited year by year.
   */
  lemma Totals(p: Plan)
    ensures Project(p).maturityValue == Project(p).yearlyData[MaturityPeriodYears - 1].closingBalance
    ensures Project(p).totalInterest == SumInterest(Project(p).yearlyData)
    ensures Project(p).totalInterest ==
      Project(p).maturityValue + Project(p).totalWithdrawal - Project(p).totalInvestment
  {
    ClosingDecomposes(p, MaturityPeriodYears);
  }

  // ---------------------------------------------------------------------
  // The reference scenario: 4000 a month from age 1, no withdrawal

  lemma ReferenceScenario(p: Plan)
    requires p.monthlyInvestment == 4000.0 && !p.withdrawalEnabled
    ensures Project(p).yearlyData[0].investment == 48000.0
    ensures Project(p).yearlyData[0].interest == 3936.0
    ensures Project(p).yearlyData[0].closingBalance == 51936.0
    ensures Project(p).yearlyData[15].investment == 0.0
    ensures Project(p).yearlyData[15].closingBalance == Project(p).yearlyData[14].closingBalance * 1.082
    ensures Project(p).maturityValue == 2298278.134376021263228640250053583677992233182540542692465297063936
  {
    assert Project(p).maturityValue == BalanceAfter(MaturityPeriodYears, 48000.0) by {
      PrePassMatchesSchedule(p, MaturityPeriodYears);
    }
    ReferencePrePass();
    assert Project(p).yearlyData[0] == Row(p, 1, 0.0, 0.0) by {
      ScheduleAt(p, MaturityPeriodYears, 0);
    }
    var opening := Project(p).yearlyData[14].closingBalance;
    assert Project(p).yearlyData[15] == Row(p, 16, opening, Invested(Schedule(p, 15))) by {
      ScheduleAt(p, MaturityPeriodYears, 15);
      ClosingAt(p, MaturityPeriodYears, 15);
    }
  }
}
