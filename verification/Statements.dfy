/** The financial statements computed from account balances, and how they tie to each other. */
module Statements {
  import opened Money
  import opened ChartOfAccounts
  import opened Journal
  import opened Ledger
  import opened GeneralLedgerService

  const REVENUE_ACCOUNTS: seq<GlAccountCode> := [ServiceRevenue, RentalRevenue]
  const COGS_ACCOUNTS: seq<GlAccountCode> := [Cogs, CostOfServices]
  const EXPENSE_ACCOUNTS: seq<GlAccountCode> := [
    ExpenseRent, ExpenseUtilities, ExpensePayroll, ExpenseSupplies, ExpenseMarketing,
    ExpenseMaintenance, ExpenseTaxes, ExpenseDepreciation, ExpenseInterest, ExpenseOther]

  const DEBIT_ASSETS: seq<GlAccountCode> := [Cash, TenderClearing, AccountsReceivable, Inventory, FixedAssets]
  const LIABILITIES: seq<GlAccountCode> := [
    SupplierPayables, TaxPayable, TipsPayable, CustomerDeposits, DeferredRevenue, AccruedLiabilities, LongTermDebt]

  /** The category an expense account is reported under. */
  function ExpenseLabel(code: GlAccountCode): string {
    match code
    case ExpenseRent => "RENT"
    case ExpenseUtilities => "UTILITIES"
    case ExpensePayroll => "PAYROLL"
    case ExpenseSupplies => "SUPPLIES"
    case ExpenseMarketing => "MARKETING"
    case ExpenseMaintenance => "MAINTENANCE"
    case ExpenseTaxes => "TAXES"
    case ExpenseDepreciation => "DEPRECIATION"
    case ExpenseInterest => "INTEREST"
    case _ => "OTHER"
  }

  datatype ProfitAndLoss = ProfitAndLoss(
    revenueNet: int, tax: int, cogs: int, grossProfit: int, expensesByCategory: map<string, int>,
    totalExpenses: int, netProfit: int)

  datatype SheetAssets = SheetAssets(
    cash: int, tenderClearing: int, accountsReceivable: int, inventoryValue: int,
    fixedAssetsGross: int, accumulatedDepreciation: int, fixedAssetsNet: int, total: int)

  datatype SheetLiabilities = SheetLiabilities(
    supplierPayables: int, taxPayable: int, tipsPayable: int, customerDeposits: int,
    deferredRevenue: int, accruedLiabilities: int, longTermDebt: int, total: int)

  datatype BalanceSheet = BalanceSheet(assets: SheetAssets, liabilities: SheetLiabilities, equity: int)

  function SumBalances(ledger: Books, branch: int, codes: seq<GlAccountCode>, range: BalanceRange): int {
    if codes == [] then 0
    else Balance(ledger, branch, codes[0], range) + SumBalances(ledger, branch, codes[1..], range)
  }

  /** The amount of each account that has one, under its name. */
  function ByName(
    ledger: Books, branch: int, codes: seq<GlAccountCode>, nameOf: GlAccountCode -> string,
    range: BalanceRange): map<string, int>
  {
    if codes == [] then map[]
    else
      var last := |codes| - 1;
      var before := ByName(ledger, branch, codes[..last], nameOf, range);
      var amount := Balance(ledger, branch, codes[last], range);
      if amount != 0 then before[nameOf(codes[last]) := amount] else before
  }

  function ProfitAndLossOf(ledger: Books, branch: int, range: BalanceRange): ProfitAndLoss {
    ProfitAndLossOver(ledger, branch, REVENUE_ACCOUNTS, COGS_ACCOUNTS, EXPENSE_ACCOUNTS, range)
  }

  /** The report over given lists of revenue, cost and expense accounts. */
  function ProfitAndLossOver(
    ledger: Books, branch: int, revenue: seq<GlAccountCode>, costs: seq<GlAccountCode>,
    expenses: seq<GlAccountCode>, range: BalanceRange): ProfitAndLoss
  {
    var revenueNet := SumBalances(ledger, branch, revenue, range);
    var cogs := SumBalances(ledger, branch, costs, range);
    var totalExpenses := SumBalances(ledger, branch, expenses, range);
    ProfitAndLoss(revenueNet, Balance(ledger, branch, TaxPayable, range), cogs, revenueNet - cogs,
                  ByName(ledger, branch, expenses, ExpenseLabel, range), totalExpenses,
                  revenueNet - cogs - totalExpenses)
  }

  /** The asset figures; the total is the sum of the asset accounts less the contra account. */
  function AssetsOf(ledger: Books, branch: int, range: BalanceRange): SheetAssets {
    var bal := (code: GlAccountCode) => Balance(ledger, branch, code, range);
    SheetAssets(
      bal(Cash), bal(TenderClearing), bal(AccountsReceivable), bal(Inventory),
      bal(FixedAssets), bal(AccumulatedDepreciation), bal(FixedAssets) - bal(AccumulatedDepreciation),
      SumBalances(ledger, branch, DEBIT_ASSETS, range) - bal(AccumulatedDepreciation))
  }

  /** The liability figures; the total is the sum of the liability accounts. */
  function LiabilitiesOf(ledger: Books, branch: int, range: BalanceRange): SheetLiabilities {
    var bal := (code: GlAccountCode) => Balance(ledger, branch, code, range);
    SheetLiabilities(
      bal(SupplierPayables), bal(TaxPayable), bal(TipsPayable), bal(CustomerDeposits),
      bal(DeferredRevenue), bal(AccruedLiabilities), bal(LongTermDebt),
      SumBalances(ledger, branch, LIABILITIES, range))
  }

  /** Booked owner capital plus the net profit since inception. */
  function EquityOf(ledger: Books, branch: int, range: BalanceRange): int {
    Balance(ledger, branch, OwnerEquity, range)
    + (SumBalances(ledger, branch, REVENUE_ACCOUNTS, range)
       - (SumBalances(ledger, branch, COGS_ACCOUNTS, range) + SumBalances(ledger, branch, EXPENSE_ACCOUNTS, range)))
  }

  function BalanceSheetOf(ledger: Books, branch: int, asOf: int): BalanceSheet {
    BalanceSheet(AssetsOf(ledger, branch, AsOf(asOf)), LiabilitiesOf(ledger, branch, AsOf(asOf)),
                 EquityOf(ledger, branch, AsOf(asOf)))
  }

  // ----- Sums over lists of accounts, added up account by account -----

  lemma {:induction false} BalancesAppend(
    ledger: Books, b: int, a: seq<GlAccountCode>, c: seq<GlAccountCode>, r: BalanceRange)
    ensures SumBalances(ledger, b, a + c, r) == SumBalances(ledger, b, a, r) + SumBalances(ledger, b, c, r)
  {
    if a == [] {
      assert a + c == c;
    } else {
      assert (a + c)[1..] == a[1..] + c;
      BalancesAppend(ledger, b, a[1..], c, r);
    }
  }

  lemma SumOf1(ledger: Books, b: int, c: GlAccountCode, r: BalanceRange)
    ensures SumBalances(ledger, b, [c], r) == Balance(ledger, b, c, r)
  {
  }

  lemma SumOf2(ledger: Books, b: int, c: GlAccountCode, d: GlAccountCode, r: BalanceRange)
    ensures SumBalances(ledger, b, [c, d], r) == Balance(ledger, b, c, r) + Balance(ledger, b, d, r)
  {
    assert [c, d] == [c] + [d];
    BalancesAppend(ledger, b, [c], [d], r);
    SumOf1(ledger, b, c, r);
    SumOf1(ledger, b, d, r);
  }

  lemma SumOfAssets(ledger: Books, b: int, r: BalanceRange)
    ensures SumBalances(ledger, b, DEBIT_ASSETS, r)
            == Balance(ledger, b, Cash, r) + Balance(ledger, b, TenderClearing, r)
               + Balance(ledger, b, AccountsReceivable, r) + Balance(ledger, b, Inventory, r)
               + Balance(ledger, b, FixedAssets, r)
  {
    assert DEBIT_ASSETS == [Cash, TenderClearing] + [AccountsReceivable, Inventory] + [FixedAssets];
    BalancesAppend(ledger, b, [Cash, TenderClearing] + [AccountsReceivable, Inventory], [FixedAssets], r);
    BalancesAppend(ledger, b, [Cash, TenderClearing], [AccountsReceivable, Inventory], r);
    SumOf2(ledger, b, Cash, TenderClearing, r);
    SumOf2(ledger, b, AccountsReceivable, Inventory, r);
    SumOf1(ledger, b, FixedAssets, r);
  }

  lemma SumOfLiabilities(ledger: Books, b: int, r: BalanceRange)
    ensures SumBalances(ledger, b, LIABILITIES, r)
            == Balance(ledger, b, SupplierPayables, r) + Balance(ledger, b, TaxPayable, r)
               + Balance(ledger, b, TipsPayable, r) + Balance(ledger, b, CustomerDeposits, r)
               + Balance(ledger, b, DeferredRevenue, r) + Balance(ledger, b, AccruedLiabilities, r)
               + Balance(ledger, b, LongTermDebt, r)
  {
    var first, second := [SupplierPayables, TaxPayable], [TipsPayable, CustomerDeposits];
    var third, last := [DeferredRevenue, AccruedLiabilities], [LongTermDebt];
    assert LIABILITIES == first + second + third + last;
    BalancesAppend(ledger, b, first + second + third, last, r);
    BalancesAppend(ledger, b, first + second, third, r);
    BalancesAppend(ledger, b, first, second, r);
    SumOf2(ledger, b, SupplierPayables, TaxPayable, r);
    SumOf2(ledger, b, TipsPayable, CustomerDeposits, r);
    SumOf2(ledger, b, DeferredRevenue, AccruedLiabilities, r);
    SumOf1(ledger, b, LongTermDebt, r);
  }

  // ----- The trial balance -----

  datatype TrialLine = TrialLine(account: GlAccountCode, debit: int, credit: int)

  datatype TrialBalance = TrialBalance(lines: seq<TrialLine>, debit: int, credit: int, balanced: bool)

  function TrialNet(totals: map<GlAccountCode, Totals>, code: GlAccountCode): int {
    if code in totals then totals[code].debit - totals[code].credit else 0
  }

  /** A non-zero net, in its natural column. */
  function LineFor(code: GlAccountCode, net: int): seq<TrialLine> {
    if net == 0 then [] else [TrialLine(code, if net > 0 then net else 0, if net < 0 then -net else 0)]
  }

  /** One line for each account with a non-zero net. */
  function TrialLines(seed: seq<GlAccountSeed>, totals: map<GlAccountCode, Totals>): seq<TrialLine> {
    if seed == [] then []
    else LineFor(seed[0].code, TrialNet(totals, seed[0].code)) + TrialLines(seed[1..], totals)
  }

  function TrialDebit(lines: seq<TrialLine>): int {
    if lines == [] then 0 else lines[0].debit + TrialDebit(lines[1..])
  }

  function TrialCredit(lines: seq<TrialLine>): int {
    if lines == [] then 0 else lines[0].credit + TrialCredit(lines[1..])
  }

  lemma {:induction false} TrialAppend(a: seq<TrialLine>, b: seq<TrialLine>)
    ensures TrialDebit(a + b) == TrialDebit(a) + TrialDebit(b)
    ensures TrialCredit(a + b) == TrialCredit(a) + TrialCredit(b)
  {
    if a == [] {
      assert a + b == b;
    } else {
      assert (a + b)[1..] == a[1..] + b;
      TrialAppend(a[1..], b);
    }
  }

  lemma {:induction false} TrialLinesAppend(
    a: seq<GlAccountSeed>, b: seq<GlAccountSeed>, totals: map<GlAccountCode, Totals>)
    ensures TrialLines(a + b, totals) == TrialLines(a, totals) + TrialLines(b, totals)
  {
    if a == [] {
      assert a + b == b;
    } else {
      assert (a + b)[1..] == a[1..] + b;
      TrialLinesAppend(a[1..], b, totals);
    }
  }

  /** One more account: its line, if it has one, and its amounts. */
  lemma TrialStep(seed: seq<GlAccountSeed>, i: nat, totals: map<GlAccountCode, Totals>)
    requires i < |seed|
    ensures var line := LineFor(seed[i].code, TrialNet(totals, seed[i].code));
            && TrialLines(seed[..i + 1], totals) == TrialLines(seed[..i], totals) + line
            && TrialDebit(TrialLines(seed[..i + 1], totals))
               == TrialDebit(TrialLines(seed[..i], totals)) + TrialDebit(line)
            && TrialCredit(TrialLines(seed[..i + 1], totals))
               == TrialCredit(TrialLines(seed[..i], totals)) + TrialCredit(line)
            && (line != [] ==> TrialDebit(line) == line[0].debit && TrialCredit(line) == line[0].credit)
  {
    var line := LineFor(seed[i].code, TrialNet(totals, seed[i].code));
    assert seed[..i + 1] == seed[..i] + [seed[i]] && [seed[i]][1..] == [];
    TrialLinesAppend(seed[..i], [seed[i]], totals);
    assert TrialLines([seed[i]], totals) == line + [];
    TrialAppend(TrialLines(seed[..i], totals), line);
    if line != [] {
      assert line[1..] == [];
    }
  }

  class LedgerStatementsService {
    const ledger: GeneralLedgerService

    constructor (ledger: GeneralLedgerService)
      ensures this.ledger == ledger
    {
      this.ledger := ledger;
    }

    method GetProfitAndLoss(branchId: int, range: BalanceRange) returns (report: ProfitAndLoss)
      ensures report == ProfitAndLossOf(ledger.State(), branchId, range)
    {
      report := ProfitAndLossFor(branchId, REVENUE_ACCOUNTS, COGS_ACCOUNTS, EXPENSE_ACCOUNTS, range);
    }

    method ProfitAndLossFor(
      branchId: int, revenue: seq<GlAccountCode>, costs: seq<GlAccountCode>, expenses: seq<GlAccountCode>,
      range: BalanceRange) returns (report: ProfitAndLoss)
      ensures report == ProfitAndLossOver(ledger.State(), branchId, revenue, costs, expenses, range)
    {
      var revenueNet := AddBalances(branchId, revenue, range);
      var cogs := AddBalances(branchId, costs, range);
      var tax := ledger.Balance(branchId, TaxPayable, range);
      var totalExpenses, expensesByCategory := AddExpenses(branchId, expenses, range);
      var grossProfit := revenueNet - cogs;
      return ProfitAndLoss(
        revenueNet, tax, cogs, grossProfit, expensesByCategory, totalExpenses, grossProfit - totalExpenses);
    }

    method AddBalances(branchId: int, codes: seq<GlAccountCode>, range: BalanceRange) returns (sum: int)
      ensures sum == SumBalances(ledger.State(), branchId, codes, range)
    {
      sum := 0;
      for i := 0 to |codes|
        invariant sum + SumBalances(ledger.State(), branchId, codes[i..], range)
                  == SumBalances(ledger.State(), branchId, codes, range)
      {
        assert codes[i..][1..] == codes[i + 1..];
        var amount := ledger.Balance(branchId, codes[i], range);
        sum := sum + amount;
      }
    }

    /** The expense loop: accounts without an amount are skipped. */
    method AddExpenses(branchId: int, codes: seq<GlAccountCode>, range: BalanceRange)
      returns (sum: int, byCategory: map<string, int>)
      ensures sum == SumBalances(ledger.State(), branchId, codes, range)
      ensures byCategory == ByName(ledger.State(), branchId, codes, ExpenseLabel, range)
    {
      sum, byCategory := 0, map[];
      for i := 0 to |codes|
        invariant sum + SumBalances(ledger.State(), branchId, codes[i..], range)
                  == SumBalances(ledger.State(), branchId, codes, range)
        invariant byCategory == ByName(ledger.State(), branchId, codes[..i], ExpenseLabel, range)
      {
        assert codes[i..][1..] == codes[i + 1..] && codes[..i + 1][..i] == codes[..i];
        var amount := ledger.Balance(branchId, codes[i], range);
        if amount != 0 {
          byCategory := byCategory[ExpenseLabel(codes[i]) := amount];
          sum := sum + amount;
        }
      }
      assert codes[..|codes|] == codes;
    }

    method GetTrialBalance(branchId: int, asOfAt: int) returns (report: TrialBalance)
      ensures var lines := TrialLines(GL_ACCOUNT_SEED, AccountTotals(ledger.State(), branchId, AsOf(asOfAt)));
              report == TrialBalance(lines, TrialDebit(lines), TrialCredit(lines),
                                     TrialDebit(lines) == TrialCredit(lines))
    {
      var totals := ledger.AccountTotals(branchId, AsOf(asOfAt));
      var lines, totalDebit, totalCredit := ListAccounts(GL_ACCOUNT_SEED, totals);
      return TrialBalance(lines, totalDebit, totalCredit, Abs(totalDebit - totalCredit) < 1);
    }

    static method ListAccounts(seed: seq<GlAccountSeed>, totals: map<GlAccountCode, Totals>)
      returns (lines: seq<TrialLine>, totalDebit: int, totalCredit: int)
      ensures lines == TrialLines(seed, totals)
      ensures totalDebit == TrialDebit(lines) && totalCredit == TrialCredit(lines)
    {
      lines, totalDebit, totalCredit := [], 0, 0;
      for i := 0 to |seed|
        invariant lines == TrialLines(seed[..i], totals)
        invariant totalDebit == TrialDebit(lines) && totalCredit == TrialCredit(lines)
      {
        TrialStep(seed, i, totals);
        var code := seed[i].code;
        var t := if code in totals then totals[code] else Totals(0, 0);
        var net := t.debit - t.credit;
        if net == 0 {
          continue;
        }
        var debit := if net > 0 then net else 0;
        var credit := if net < 0 then -net else 0;
        lines := lines + [TrialLine(code, debit, credit)];
        totalDebit := totalDebit + debit;
        totalCredit := totalCredit + credit;
      }
      assert seed[..|seed|] == seed;
    }

    method GetBalanceSheet(branchId: int, asOfAt: int) returns (report: BalanceSheet)
      ensures report == BalanceSheetOf(ledger.State(), branchId, asOfAt)
    {
      var to := AsOf(asOfAt);
      var assets := ReadAssets(branchId, to);
      var liabilities := ReadLiabilities(branchId, to);
      var ownerEquity := ledger.Balance(branchId, OwnerEquity, to);
      var revenueToDate := AddBalances(branchId, REVENUE_ACCOUNTS, to);
      var cogsToDate := AddBalances(branchId, COGS_ACCOUNTS, to);
      var expensesToDate := AddBalances(branchId, EXPENSE_ACCOUNTS, to);
      return BalanceSheet(assets, liabilities, ownerEquity + (revenueToDate - (cogsToDate + expensesToDate)));
    }

    method ReadAssets(branchId: int, to: BalanceRange) returns (assets: SheetAssets)
      ensures assets == AssetsOf(ledger.State(), branchId, to)
    {
      var cash := ledger.Balance(branchId, Cash, to);
      var tenderClearing := ledger.Balance(branchId, TenderClearing, to);
      var accountsReceivable := ledger.Balance(branchId, AccountsReceivable, to);
      var inventoryValue := ledger.Balance(branchId, Inventory, to);
      var fixedAssetsGross := ledger.Balance(branchId, FixedAssets, to);
      var accumulatedDepreciation := ledger.Balance(branchId, AccumulatedDepreciation, to);
      var fixedAssetsNet := fixedAssetsGross - accumulatedDepreciation;
      SumOfAssets(ledger.State(), branchId, to);
      return SheetAssets(
        cash, tenderClearing, accountsReceivable, inventoryValue, fixedAssetsGross, accumulatedDepreciation,
        fixedAssetsNet, cash + tenderClearing + accountsReceivable + inventoryValue + fixedAssetsNet);
    }

    method ReadLiabilities(branchId: int, to: BalanceRange) returns (liabilities: SheetLiabilities)
      ensures liabilities == LiabilitiesOf(ledger.State(), branchId, to)
    {
      var supplierPayables := ledger.Balance(branchId, SupplierPayables, to);
      var taxPayable := ledger.Balance(branchId, TaxPayable, to);
      var tipsPayable := ledger.Balance(branchId, TipsPayable, to);
      var customerDeposits := ledger.Balance(branchId, CustomerDeposits, to);
      var deferredRevenue := ledger.Balance(branchId, DeferredRevenue, to);
      var accruedLiabilities := ledger.Balance(branchId, AccruedLiabilities, to);
      var longTermDebt := ledger.Balance(branchId, LongTermDebt, to);
      SumOfLiabilities(ledger.State(), branchId, to);
      return SheetLiabilities(
        supplierPayables, taxPayable, tipsPayable, customerDeposits, deferredRevenue, accruedLiabilities, longTermDebt,
        supplierPayables + taxPayable + tipsPayable + customerDeposits + deferredRevenue + accruedLiabilities
        + longTermDebt);
    }
  }
}
