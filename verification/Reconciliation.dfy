/** Building the opening entry from the legacy balance sheet, and comparing legacy with ledger statements. */
module Reconciliation {
  import opened Outcomes
  import opened Money
  import opened ChartOfAccounts
  import opened Journal
  import opened Statements

  // ----- The legacy statements -----

  datatype LegacyAssets = LegacyAssets(
    cash: real, tenderClearing: real, inventoryValue: real, fixedAssetsGross: real,
    accumulatedDepreciation: real, fixedAssetsNet: real)

  /** `longTermDebt` is the non-current portion. */
  datatype LegacyLiabilities = LegacyLiabilities(
    supplierPayables: real, taxPayable: real, accruedLiabilities: real,
    currentPortionLongTermDebt: real, longTermDebt: real)

  datatype LegacyBalanceSheet = LegacyBalanceSheet(assets: LegacyAssets, liabilities: LegacyLiabilities, equity: real)

  datatype LegacyProfitAndLoss = LegacyProfitAndLoss(
    revenueNet: real, tax: real, cogs: real, totalExpenses: real, netProfit: real)

  // ----- buildOpeningBalanceLines -----

  function DebitLeg(code: GlAccountCode, amount: real): LineInput {
    LineInput(code, Some(Round2(amount) as real), None)
  }

  function CreditLeg(code: GlAccountCode, amount: real): LineInput {
    LineInput(code, None, Some(Round2(amount) as real))
  }

  function LongTermTotal(bs: LegacyBalanceSheet): real {
    bs.liabilities.currentPortionLongTermDebt + bs.liabilities.longTermDebt
  }

  function OpeningLegs(bs: LegacyBalanceSheet): seq<LineInput> {
    [ DebitLeg(Cash, bs.assets.cash),
      DebitLeg(TenderClearing, bs.assets.tenderClearing),
      DebitLeg(Inventory, bs.assets.inventoryValue),
      DebitLeg(FixedAssets, bs.assets.fixedAssetsGross),
      CreditLeg(AccumulatedDepreciation, bs.assets.accumulatedDepreciation),
      CreditLeg(SupplierPayables, bs.liabilities.supplierPayables),
      CreditLeg(TaxPayable, bs.liabilities.taxPayable),
      CreditLeg(AccruedLiabilities, bs.liabilities.accruedLiabilities),
      CreditLeg(LongTermDebt, LongTermTotal(bs)),
      CreditLeg(OwnerEquity, bs.equity) ]
  }

  /** Keeps the legs with a positive amount; this drops the zero legs, and the negative ones too. */
  function KeepPositive(legs: seq<LineInput>): seq<LineInput> {
    if legs == [] then []
    else if Amount(legs[0].debit) > 0.0 || Amount(legs[0].credit) > 0.0 then [legs[0]] + KeepPositive(legs[1..])
    else KeepPositive(legs[1..])
  }

  function BuildOpeningBalanceLines(bs: LegacyBalanceSheet): seq<LineInput> {
    KeepPositive(OpeningLegs(bs))
  }

  // ----- reconcileStatements -----

  datatype StatementLine =
    | CashLine | TenderClearingLine | InventoryValueLine | FixedAssetsNetLine
    | SupplierPayablesLine | TaxPayableLine | AccruedLiabilitiesLine | LongTermDebtLine | EquityLine
    | RevenueNetLine | TaxLine | CogsLine | TotalExpensesLine | NetProfitLine

  datatype Pair = Pair(line: StatementLine, legacy: real, ledger: int)

  datatype ReconciliationLine = ReconciliationLine(
    line: StatementLine, legacy: int, ledger: int, diff: int, exempt: bool)

  datatype ReconciliationResult = ReconciliationResult(
    matched: bool, tolerance: real, discrepancies: seq<ReconciliationLine>, lines: seq<ReconciliationLine>)

  /** One cent. */
  const DEFAULT_TOLERANCE: real := 1.0

  const DEFAULT_EXEMPT: set<StatementLine> := {CashLine, EquityLine}

  function SheetPairs(legacy: LegacyBalanceSheet, ledger: BalanceSheet): seq<Pair> {
    [ Pair(CashLine, legacy.assets.cash, ledger.assets.cash),
      Pair(TenderClearingLine, legacy.assets.tenderClearing, ledger.assets.tenderClearing),
      Pair(InventoryValueLine, legacy.assets.inventoryValue, ledger.assets.inventoryValue),
      Pair(FixedAssetsNetLine, legacy.assets.fixedAssetsNet, ledger.assets.fixedAssetsNet),
      Pair(SupplierPayablesLine, legacy.liabilities.supplierPayables, ledger.liabilities.supplierPayables),
      Pair(TaxPayableLine, legacy.liabilities.taxPayable, ledger.liabilities.taxPayable),
      Pair(AccruedLiabilitiesLine, legacy.liabilities.accruedLiabilities, ledger.liabilities.accruedLiabilities),
      Pair(LongTermDebtLine, Round2(LongTermTotal(legacy)) as real, ledger.liabilities.longTermDebt),
      Pair(EquityLine, legacy.equity, ledger.equity) ]
  }

  function ProfitPairs(legacy: LegacyProfitAndLoss, ledger: ProfitAndLoss): seq<Pair> {
    [ Pair(RevenueNetLine, legacy.revenueNet, ledger.revenueNet),
      Pair(TaxLine, legacy.tax, ledger.tax),
      Pair(CogsLine, legacy.cogs, ledger.cogs),
      Pair(TotalExpensesLine, legacy.totalExpenses, ledger.totalExpenses),
      Pair(NetProfitLine, legacy.netProfit, ledger.netProfit) ]
  }

  function Compare(pairs: seq<Pair>, exempt: set<StatementLine>): (lines: seq<ReconciliationLine>)
    ensures |lines| == |pairs|
  {
    seq(|pairs|, i requires 0 <= i < |pairs| =>
      var p := pairs[i];
      ReconciliationLine(p.line, Round2(p.legacy), p.ledger, Round2(p.legacy - p.ledger as real), p.line in exempt))
  }

  function Discrepancies(lines: seq<ReconciliationLine>, tolerance: real): seq<ReconciliationLine> {
    if lines == [] then []
    else if !lines[0].exempt && Abs(lines[0].diff) as real > tolerance
    then [lines[0]] + Discrepancies(lines[1..], tolerance)
    else Discrepancies(lines[1..], tolerance)
  }

  function ReconcileStatements(
    legacyBS: LegacyBalanceSheet, ledgerBS: BalanceSheet, legacyPL: LegacyProfitAndLoss, ledgerPL: ProfitAndLoss,
    tolerance: Option<real>, exemptLines: Option<set<StatementLine>>): ReconciliationResult
  {
    var allowed := if tolerance.Some? then tolerance.value else DEFAULT_TOLERANCE;
    var exempt := if exemptLines.Some? then exemptLines.value else DEFAULT_EXEMPT;
    var lines := Compare(SheetPairs(legacyBS, ledgerBS) + ProfitPairs(legacyPL, ledgerPL), exempt);
    var discrepancies := Discrepancies(lines, allowed);
    ReconciliationResult(discrepancies == [], allowed, discrepancies, lines)
  }
}
