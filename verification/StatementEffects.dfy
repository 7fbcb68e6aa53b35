/**
 What one post does to the statements, figure by figure, on the posted lines alone; and the statements' account lists
 against the types in the chart.
 */
module StatementEffects {
  import opened Outcomes
  import opened ChartOfAccounts
  import opened Journal
  import opened Ledger
  import opened LedgerInvariant
  import opened Posting
  import opened ReadPaths
  import opened Statements
  import opened StatementLaws

  // ----- The chart's types and the statements' lists -----

  /** The balance sheet and the profit and loss list every account of the chart, by its type. */
  lemma ListsFollowTheTypes(code: GlAccountCode)
    requires !code.Unknown?
    ensures var account := GetGlAccountMeta(code).value;
            && (code in DEBIT_ASSETS <==> account.kind == Asset && !account.contra)
            && (code == AccumulatedDepreciation <==> account.kind == Asset && account.contra)
            && (code in LIABILITIES <==> account.kind == Liability)
            && (code == OwnerEquity <==> account.kind == Equity)
            && (code in REVENUE_ACCOUNTS <==> account.kind == Revenue)
            && (code in COGS_ACCOUNTS || code in EXPENSE_ACCOUNTS <==> account.kind == Expense)
  {
    ExpenseListed(code);
    SheetListed(code);
  }

  lemma SheetListed(code: GlAccountCode)
    requires !code.Unknown?
    ensures code in DEBIT_ASSETS <==> Row(code) <= 4
    ensures code in LIABILITIES <==> 6 <= Row(code) <= 12
    ensures code in REVENUE_ACCOUNTS <==> 14 <= Row(code) <= 15
    ensures code in COGS_ACCOUNTS <==> 16 <= Row(code) <= 17
  {
  }

  lemma ExpenseListed(code: GlAccountCode)
    ensures code in EXPENSE_ACCOUNTS <==> 18 <= Row(code) <= 27
  {
    ExpenseRows();
    if 18 <= Row(code) <= 27 {
      RowIsInjective(EXPENSE_ACCOUNTS[Row(code) - 18], code);
    }
  }

  // ----- What a fresh post moves -----

  /** The net that the lines put on the accounts together. */
  function NetsOn(lines: seq<LineInput>, codes: seq<GlAccountCode>): int {
    if codes == [] then 0 else InputNetOn(lines, codes[0]) + NetsOn(lines, codes[1..])
  }

  /** Every balance of the branch moves by what the lines put on its account, in the account's natural direction. */
  ghost predicate Moves(before: Books, after: Books, branch: int, lines: seq<LineInput>, range: BalanceRange) {
    forall code: GlAccountCode :: !code.Unknown? ==>
      Balance(after, branch, code, range)
      == Balance(before, branch, code, range)
         + (if CreditNormal(code) then -InputNetOn(lines, code) else InputNetOn(lines, code))
  }

  /** A post that the ledger takes and that is new to it, dated within the range. */
  lemma PostMoves(ledger: Books, input: PostInput, range: BalanceRange)
    requires Valid(ledger) && Accepted(input) && range.Contains(input.occurredAt)
    requires FindByKey(ledger.entries, input.branchId, input.idempotencyKey) == None
    ensures Moves(ledger, Post(ledger, input).0, input.branchId, input.lines, range)
  {
    forall code: GlAccountCode | !code.Unknown?
      ensures Balance(Post(ledger, input).0, input.branchId, code, range)
              == Balance(ledger, input.branchId, code, range)
                 + (if CreditNormal(code) then -InputNetOn(input.lines, code) else InputNetOn(input.lines, code))
    {
      PostMovesBalance(ledger, input, input.branchId, code, range);
      SignOf(code);
    }
  }

  lemma {:induction false} SumMoves(
    before: Books, after: Books, branch: int, lines: seq<LineInput>, codes: seq<GlAccountCode>, range: BalanceRange,
    credit: bool)
    requires Moves(before, after, branch, lines, range)
    requires AllOn(codes, credit)
    ensures SumBalances(after, branch, codes, range)
            == SumBalances(before, branch, codes, range)
               + (if credit then -NetsOn(lines, codes) else NetsOn(lines, codes))
  {
    if codes != [] {
      SumMoves(before, after, branch, lines, codes[1..], range, credit);
    }
  }

  /** Chart accounts that are all credit-normal, or all debit-normal. */
  ghost predicate AllOn(codes: seq<GlAccountCode>, credit: bool) {
    forall k :: 0 <= k < |codes| ==> !codes[k].Unknown? && CreditNormal(codes[k]) == credit
  }

  lemma ListsAreSigned()
    ensures AllOn(REVENUE_ACCOUNTS, true) && AllOn(COGS_ACCOUNTS, false) && AllOn(EXPENSE_ACCOUNTS, false)
    ensures AllOn(LIABILITIES, true) && AllOn(DEBIT_ASSETS, false)
  {
    ExpenseRows();
    RetainedRows();
    LiabilitiesAreSigned();
  }

  lemma LiabilitiesAreSigned()
    ensures AllOn(LIABILITIES, true) && AllOn(DEBIT_ASSETS, false)
  {
  }

  /** The report's figures over any account lists, from the movements of the lists. */
  lemma ReportMoves(
    before: Books, after: Books, branch: int, range: BalanceRange,
    revenue: seq<GlAccountCode>, costs: seq<GlAccountCode>, expenses: seq<GlAccountCode>,
    dr: int, dc: int, de: int, dt: int)
    requires SumBalances(after, branch, revenue, range) == SumBalances(before, branch, revenue, range) + dr
    requires SumBalances(after, branch, costs, range) == SumBalances(before, branch, costs, range) + dc
    requires SumBalances(after, branch, expenses, range) == SumBalances(before, branch, expenses, range) + de
    requires Balance(after, branch, TaxPayable, range) == Balance(before, branch, TaxPayable, range) + dt
    ensures var x := ProfitAndLossOver(before, branch, revenue, costs, expenses, range);
            var y := ProfitAndLossOver(after, branch, revenue, costs, expenses, range);
            && y.revenueNet == x.revenueNet + dr && y.tax == x.tax + dt && y.cogs == x.cogs + dc
            && y.grossProfit == x.grossProfit + dr - dc && y.totalExpenses == x.totalExpenses + de
            && y.netProfit == x.netProfit + dr - dc - de
  {
  }

  lemma ProfitAndLossMoves(
    before: Books, after: Books, branch: int, lines: seq<LineInput>, range: BalanceRange,
    revenue: seq<GlAccountCode>, costs: seq<GlAccountCode>, expenses: seq<GlAccountCode>)
    requires Moves(before, after, branch, lines, range)
    requires AllOn(revenue, true) && AllOn(costs, false) && AllOn(expenses, false)
    ensures var x := ProfitAndLossOver(before, branch, revenue, costs, expenses, range);
            var y := ProfitAndLossOver(after, branch, revenue, costs, expenses, range);
            var dr, dc, de := NetsOn(lines, revenue), NetsOn(lines, costs), NetsOn(lines, expenses);
            && y.revenueNet == x.revenueNet - dr && y.tax == x.tax - InputNetOn(lines, TaxPayable)
            && y.cogs == x.cogs + dc && y.grossProfit == x.grossProfit - dr - dc
            && y.totalExpenses == x.totalExpenses + de && y.netProfit == x.netProfit - dr - dc - de
  {
    SumMoves(before, after, branch, lines, revenue, range, true);
    SumMoves(before, after, branch, lines, costs, range, false);
    SumMoves(before, after, branch, lines, expenses, range, false);
    ReportMoves(before, after, branch, range, revenue, costs, expenses, -NetsOn(lines, revenue), NetsOn(lines, costs),
                NetsOn(lines, expenses), -InputNetOn(lines, TaxPayable));
  }

  /** Revenue, tax, costs and expenses of a period move by what the posted lines put on their accounts. */
  lemma PostMovesProfitAndLoss(ledger: Books, input: PostInput, range: BalanceRange)
    requires Valid(ledger) && Accepted(input) && range.Contains(input.occurredAt)
    requires FindByKey(ledger.entries, input.branchId, input.idempotencyKey) == None
    ensures var x := ProfitAndLossOf(ledger, input.branchId, range);
            var y := ProfitAndLossOf(Post(ledger, input).0, input.branchId, range);
            var revenue := NetsOn(input.lines, [ServiceRevenue, RentalRevenue]);
            var costs := NetsOn(input.lines, [Cogs, CostOfServices]);
            var expenses := NetsOn(input.lines, [
              ExpenseRent, ExpenseUtilities, ExpensePayroll, ExpenseSupplies, ExpenseMarketing, ExpenseMaintenance,
              ExpenseTaxes, ExpenseDepreciation, ExpenseInterest, ExpenseOther]);
            && y.revenueNet == x.revenueNet - revenue
            && y.tax == x.tax - InputNetOn(input.lines, TaxPayable)
            && y.cogs == x.cogs + costs
            && y.grossProfit == x.grossProfit - revenue - costs
            && y.totalExpenses == x.totalExpenses + expenses
            && y.netProfit == x.netProfit - revenue - costs - expenses
  {
    PostMoves(ledger, input, range);
    ListsAreSigned();
    ProfitAndLossMoves(ledger, Post(ledger, input).0, input.branchId, input.lines, range,
                       REVENUE_ACCOUNTS, COGS_ACCOUNTS, EXPENSE_ACCOUNTS);
  }

  lemma AssetsMove(before: Books, after: Books, branch: int, lines: seq<LineInput>, range: BalanceRange)
    requires Moves(before, after, branch, lines, range)
    ensures var x, y := AssetsOf(before, branch, range), AssetsOf(after, branch, range);
            && y.cash == x.cash + InputNetOn(lines, Cash)
            && y.tenderClearing == x.tenderClearing + InputNetOn(lines, TenderClearing)
            && y.accountsReceivable == x.accountsReceivable + InputNetOn(lines, AccountsReceivable)
            && y.inventoryValue == x.inventoryValue + InputNetOn(lines, Inventory)
            && y.fixedAssetsGross == x.fixedAssetsGross + InputNetOn(lines, FixedAssets)
            && y.accumulatedDepreciation == x.accumulatedDepreciation - InputNetOn(lines, AccumulatedDepreciation)
            && y.fixedAssetsNet == x.fixedAssetsNet + InputNetOn(lines, FixedAssets)
                                   + InputNetOn(lines, AccumulatedDepreciation)
            && y.total == x.total + NetsOn(lines, DEBIT_ASSETS) + InputNetOn(lines, AccumulatedDepreciation)
  {
    LiabilitiesAreSigned();
    SumMoves(before, after, branch, lines, DEBIT_ASSETS, range, false);
  }

  /** Each asset figure moves by what the lines put on its account, contra and net included. */
  lemma PostMovesAssets(ledger: Books, input: PostInput, asOf: int)
    requires Valid(ledger) && Accepted(input) && input.occurredAt <= asOf
    requires FindByKey(ledger.entries, input.branchId, input.idempotencyKey) == None
    ensures var x := BalanceSheetOf(ledger, input.branchId, asOf).assets;
            var y := BalanceSheetOf(Post(ledger, input).0, input.branchId, asOf).assets;
            && y.cash == x.cash + InputNetOn(input.lines, Cash)
            && y.tenderClearing == x.tenderClearing + InputNetOn(input.lines, TenderClearing)
            && y.accountsReceivable == x.accountsReceivable + InputNetOn(input.lines, AccountsReceivable)
            && y.inventoryValue == x.inventoryValue + InputNetOn(input.lines, Inventory)
            && y.fixedAssetsGross == x.fixedAssetsGross + InputNetOn(input.lines, FixedAssets)
            && y.accumulatedDepreciation
               == x.accumulatedDepreciation - InputNetOn(input.lines, AccumulatedDepreciation)
            && y.fixedAssetsNet == x.fixedAssetsNet + InputNetOn(input.lines, FixedAssets)
                                   + InputNetOn(input.lines, AccumulatedDepreciation)
            && y.total == x.total + InputNetOn(input.lines, AccumulatedDepreciation)
                          + NetsOn(input.lines, [Cash, TenderClearing, AccountsReceivable, Inventory, FixedAssets])
  {
    PostMoves(ledger, input, AsOf(asOf));
    AssetsMove(ledger, Post(ledger, input).0, input.branchId, input.lines, AsOf(asOf));
  }

  lemma LiabilitySumMoves(before: Books, after: Books, branch: int, lines: seq<LineInput>, range: BalanceRange)
    requires Moves(before, after, branch, lines, range)
    ensures SumBalances(after, branch, LIABILITIES, range)
            == SumBalances(before, branch, LIABILITIES, range) - NetsOn(lines, LIABILITIES)
  {
    LiabilitiesAreSigned();
    SumMoves(before, after, branch, lines, LIABILITIES, range, true);
  }

  lemma LiabilityFigures(ledger: Books, branch: int, range: BalanceRange)
    ensures var figures := LiabilitiesOf(ledger, branch, range);
            && figures.supplierPayables == Balance(ledger, branch, SupplierPayables, range)
            && figures.taxPayable == Balance(ledger, branch, TaxPayable, range)
            && figures.tipsPayable == Balance(ledger, branch, TipsPayable, range)
            && figures.customerDeposits == Balance(ledger, branch, CustomerDeposits, range)
            && figures.deferredRevenue == Balance(ledger, branch, DeferredRevenue, range)
            && figures.accruedLiabilities == Balance(ledger, branch, AccruedLiabilities, range)
            && figures.longTermDebt == Balance(ledger, branch, LongTermDebt, range)
  {
  }

  lemma CreditMovesOn(
    before: Books, after: Books, branch: int, lines: seq<LineInput>, range: BalanceRange, code: GlAccountCode)
    requires Moves(before, after, branch, lines, range) && CreditNormal(code)
    ensures Balance(after, branch, code, range) == Balance(before, branch, code, range) - InputNetOn(lines, code)
  {
  }

  lemma LiabilitiesMove(before: Books, after: Books, branch: int, lines: seq<LineInput>, range: BalanceRange)
    requires Moves(before, after, branch, lines, range)
    ensures var x, y := LiabilitiesOf(before, branch, range), LiabilitiesOf(after, branch, range);
            && y.supplierPayables == x.supplierPayables - InputNetOn(lines, SupplierPayables)
            && y.taxPayable == x.taxPayable - InputNetOn(lines, TaxPayable)
            && y.tipsPayable == x.tipsPayable - InputNetOn(lines, TipsPayable)
            && y.customerDeposits == x.customerDeposits - InputNetOn(lines, CustomerDeposits)
            && y.deferredRevenue == x.deferredRevenue - InputNetOn(lines, DeferredRevenue)
            && y.accruedLiabilities == x.accruedLiabilities - InputNetOn(lines, AccruedLiabilities)
            && y.longTermDebt == x.longTermDebt - InputNetOn(lines, LongTermDebt)
  {
    LiabilityFigures(before, branch, range);
    LiabilityFigures(after, branch, range);
    CreditMovesOn(before, after, branch, lines, range, SupplierPayables);
    CreditMovesOn(before, after, branch, lines, range, TaxPayable);
    CreditMovesOn(before, after, branch, lines, range, TipsPayable);
    CreditMovesOn(before, after, branch, lines, range, CustomerDeposits);
    CreditMovesOn(before, after, branch, lines, range, DeferredRevenue);
    CreditMovesOn(before, after, branch, lines, range, AccruedLiabilities);
    CreditMovesOn(before, after, branch, lines, range, LongTermDebt);
  }

  lemma LiabilityTotalMoves(before: Books, after: Books, branch: int, lines: seq<LineInput>, range: BalanceRange)
    requires Moves(before, after, branch, lines, range)
    ensures LiabilitiesOf(after, branch, range).total
            == LiabilitiesOf(before, branch, range).total - NetsOn(lines, LIABILITIES)
  {
    LiabilitySumMoves(before, after, branch, lines, range);
  }

  /** Each liability figure moves by what the lines put on its account, in credit. */
  lemma PostMovesLiabilities(ledger: Books, input: PostInput, asOf: int)
    requires Valid(ledger) && Accepted(input) && input.occurredAt <= asOf
    requires FindByKey(ledger.entries, input.branchId, input.idempotencyKey) == None
    ensures var x := BalanceSheetOf(ledger, input.branchId, asOf).liabilities;
            var y := BalanceSheetOf(Post(ledger, input).0, input.branchId, asOf).liabilities;
            && y.supplierPayables == x.supplierPayables - InputNetOn(input.lines, SupplierPayables)
            && y.taxPayable == x.taxPayable - InputNetOn(input.lines, TaxPayable)
            && y.tipsPayable == x.tipsPayable - InputNetOn(input.lines, TipsPayable)
            && y.customerDeposits == x.customerDeposits - InputNetOn(input.lines, CustomerDeposits)
            && y.deferredRevenue == x.deferredRevenue - InputNetOn(input.lines, DeferredRevenue)
            && y.accruedLiabilities == x.accruedLiabilities - InputNetOn(input.lines, AccruedLiabilities)
            && y.longTermDebt == x.longTermDebt - InputNetOn(input.lines, LongTermDebt)
            && y.total == x.total - NetsOn(input.lines, [
                 SupplierPayables, TaxPayable, TipsPayable, CustomerDeposits, DeferredRevenue, AccruedLiabilities,
                 LongTermDebt])
  {
    PostMoves(ledger, input, AsOf(asOf));
    LiabilitiesMove(ledger, Post(ledger, input).0, input.branchId, input.lines, AsOf(asOf));
    LiabilityTotalMoves(ledger, Post(ledger, input).0, input.branchId, input.lines, AsOf(asOf));
  }

  /** Equity over any account lists, from the movements of the lists. */
  lemma CapitalMoves(
    before: Books, after: Books, branch: int, range: BalanceRange,
    revenue: seq<GlAccountCode>, costs: seq<GlAccountCode>, expenses: seq<GlAccountCode>,
    dr: int, dc: int, de: int, own: int)
    requires SumBalances(after, branch, revenue, range) == SumBalances(before, branch, revenue, range) + dr
    requires SumBalances(after, branch, costs, range) == SumBalances(before, branch, costs, range) + dc
    requires SumBalances(after, branch, expenses, range) == SumBalances(before, branch, expenses, range) + de
    requires Balance(after, branch, OwnerEquity, range) == Balance(before, branch, OwnerEquity, range) + own
    ensures Capital(after, branch, range, revenue, costs, expenses)
            == Capital(before, branch, range, revenue, costs, expenses) + own + dr - dc - de
  {
  }

  function Capital(
    ledger: Books, branch: int, range: BalanceRange, revenue: seq<GlAccountCode>, costs: seq<GlAccountCode>,
    expenses: seq<GlAccountCode>): int
  {
    Balance(ledger, branch, OwnerEquity, range)
    + (SumBalances(ledger, branch, revenue, range)
       - (SumBalances(ledger, branch, costs, range) + SumBalances(ledger, branch, expenses, range)))
  }

  lemma EquityMoves(
    before: Books, after: Books, branch: int, lines: seq<LineInput>, range: BalanceRange,
    revenue: seq<GlAccountCode>, costs: seq<GlAccountCode>, expenses: seq<GlAccountCode>)
    requires Moves(before, after, branch, lines, range)
    requires AllOn(revenue, true) && AllOn(costs, false) && AllOn(expenses, false)
    ensures Capital(after, branch, range, revenue, costs, expenses)
            == Capital(before, branch, range, revenue, costs, expenses) - InputNetOn(lines, OwnerEquity)
               - NetsOn(lines, revenue) - NetsOn(lines, costs) - NetsOn(lines, expenses)
  {
    SumMoves(before, after, branch, lines, revenue, range, true);
    SumMoves(before, after, branch, lines, costs, range, false);
    SumMoves(before, after, branch, lines, expenses, range, false);
    CapitalMoves(before, after, branch, range, revenue, costs, expenses, -NetsOn(lines, revenue), NetsOn(lines, costs),
                 NetsOn(lines, expenses), -InputNetOn(lines, OwnerEquity));
  }

  /** A post dated by the day of the sheet moves its equity by its owner capital, revenue and cost lines. */
  lemma PostMovesEquity(ledger: Books, input: PostInput, asOf: int)
    requires Valid(ledger) && Accepted(input) && input.occurredAt <= asOf
    requires FindByKey(ledger.entries, input.branchId, input.idempotencyKey) == None
    ensures BalanceSheetOf(Post(ledger, input).0, input.branchId, asOf).equity
            == BalanceSheetOf(ledger, input.branchId, asOf).equity - InputNetOn(input.lines, OwnerEquity)
               - NetsOn(input.lines, [ServiceRevenue, RentalRevenue])
               - NetsOn(input.lines, [Cogs, CostOfServices])
               - NetsOn(input.lines, [
                   ExpenseRent, ExpenseUtilities, ExpensePayroll, ExpenseSupplies, ExpenseMarketing,
                   ExpenseMaintenance, ExpenseTaxes, ExpenseDepreciation, ExpenseInterest, ExpenseOther])
  {
    PostMoves(ledger, input, AsOf(asOf));
    ListsAreSigned();
    EquityMoves(ledger, Post(ledger, input).0, input.branchId, input.lines, AsOf(asOf),
                REVENUE_ACCOUNTS, COGS_ACCOUNTS, EXPENSE_ACCOUNTS);
  }

  /** A later post leaves the sheet as it is. */
  lemma LaterPostsDoNotMatter(ledger: Books, input: PostInput, branch: int, code: GlAccountCode, asOf: int)
    requires Valid(ledger) && Accepted(input) && asOf < input.occurredAt
    requires FindByKey(ledger.entries, input.branchId, input.idempotencyKey) == None
    ensures Balance(Post(ledger, input).0, branch, code, AsOf(asOf)) == Balance(ledger, branch, code, AsOf(asOf))
  {
    PostMovesBalance(ledger, input, branch, code, AsOf(asOf));
  }

  // ----- The trial balance, line by line -----

  lemma {:induction false} LineIsListed(seed: seq<GlAccountSeed>, totals: map<GlAccountCode, Totals>, i: nat)
    requires DistinctCodes(seed) && i < |seed|
    ensures var lines, net := TrialLines(seed, totals), TrialNet(totals, seed[i].code);
            && (net > 0 ==> TrialLine(seed[i].code, net, 0) in lines)
            && (net < 0 ==> TrialLine(seed[i].code, 0, -net) in lines)
            && (forall line :: line in lines && line.account == seed[i].code ==>
                 line == TrialLine(seed[i].code, if net > 0 then net else 0, if net < 0 then -net else 0) && net != 0)
  {
    if i > 0 {
      LineIsListed(seed[1..], totals, i - 1);
      assert seed[0].code != seed[i].code;
    } else {
      forall line | line in TrialLines(seed[1..], totals)
        ensures line.account != seed[0].code
      {
        LinesAreSeeded(seed[1..], totals, line);
      }
    }
  }

  lemma {:induction false} LinesAreSeeded(seed: seq<GlAccountSeed>, totals: map<GlAccountCode, Totals>, line: TrialLine)
    requires line in TrialLines(seed, totals)
    ensures exists i :: 0 <= i < |seed| && seed[i].code == line.account
  {
    if line in TrialLines(seed[1..], totals) {
      LinesAreSeeded(seed[1..], totals, line);
      var i :| 0 <= i < |seed[1..]| && seed[1..][i].code == line.account;
      assert seed[i + 1].code == line.account;
    } else {
      assert seed[0].code == line.account;
    }
  }

  /** The lines show the account in the debit column, in the credit column, or not at all, as the net says. */
  ghost predicate Shows(lines: seq<TrialLine>, code: GlAccountCode, net: int) {
    && (net > 0 ==> TrialLine(code, net, 0) in lines)
    && (net < 0 ==> TrialLine(code, 0, -net) in lines)
    && (forall line :: line in lines && line.account == code ==>
         if net > 0 then line == TrialLine(code, net, 0) else net < 0 && line == TrialLine(code, 0, -net))
  }

  lemma ShownIn(seed: seq<GlAccountSeed>, totals: map<GlAccountCode, Totals>, i: nat)
    requires DistinctCodes(seed) && i < |seed|
    ensures Shows(TrialLines(seed, totals), seed[i].code, TrialNet(totals, seed[i].code))
  {
    LineIsListed(seed, totals, i);
  }

  lemma SeedRow(code: GlAccountCode) returns (i: nat)
    requires !code.Unknown?
    ensures DistinctCodes(GL_ACCOUNT_SEED) && i < |GL_ACCOUNT_SEED| && GL_ACCOUNT_SEED[i].code == code
  {
    SeedIsDisciplined();
    SeedAt(code);
    i := Row(code);
  }

  lemma ShownInTrialBalance(totals: map<GlAccountCode, Totals>, code: GlAccountCode)
    requires !code.Unknown?
    ensures Shows(TrialLines(GL_ACCOUNT_SEED, totals), code, TrialNet(totals, code))
  {
    var i := SeedRow(code);
    ShownIn(GL_ACCOUNT_SEED, totals, i);
  }

  lemma TrialNetIsBalance(ledger: Books, branch: int, range: BalanceRange, code: GlAccountCode)
    requires !code.Unknown?
    ensures TrialNet(AccountTotals(ledger, branch, range), code)
            == var balance := Balance(ledger, branch, code, range);
               if CreditNormal(code) then -balance else balance
  {
    ReadPathsAgree(ledger, branch, range, code);
    SignOf(code);
  }

  /**
   The trial balance lists an account exactly when its balance is not zero: a debit-normal balance in the debit column,
   a credit-normal one in the credit column, a negative balance in the other.
   */
  lemma TrialBalanceShowsBalances(ledger: Books, branch: int, asOf: int, code: GlAccountCode)
    requires !code.Unknown?
    ensures Shows(TrialLines(GL_ACCOUNT_SEED, AccountTotals(ledger, branch, AsOf(asOf))), code,
                  if CreditNormal(code) then -Balance(ledger, branch, code, AsOf(asOf))
                  else Balance(ledger, branch, code, AsOf(asOf)))
  {
    TrialNetIsBalance(ledger, branch, AsOf(asOf), code);
    ShownInTrialBalance(AccountTotals(ledger, branch, AsOf(asOf)), code);
  }
}
