/** What a match means, why cash and equity may be exempt, and that the opening entry reconciles. */
module ReconciliationLaws {
  import opened Outcomes
  import opened Money
  import opened ChartOfAccounts
  import opened Journal
  import opened Ledger
  import opened LedgerInvariant
  import opened Statements
  import opened StatementLaws
  import opened Reconciliation
  import opened OpeningBalance

  // ----- What a match means -----

  predicate Agrees(line: ReconciliationLine, tolerance: real) {
    line.exempt || Abs(line.diff) as real <= tolerance
  }

  lemma {:induction false} NoDiscrepancyIff(lines: seq<ReconciliationLine>, tolerance: real)
    ensures Discrepancies(lines, tolerance) == [] <==> forall k :: 0 <= k < |lines| ==> Agrees(lines[k], tolerance)
  {
    if lines != [] {
      NoDiscrepancyIff(lines[1..], tolerance);
      assert Agrees(lines[0], tolerance) || !Agrees(lines[0], tolerance);
      assert forall k :: 1 <= k < |lines| ==> lines[k] == lines[1..][k - 1];
    }
  }

  function AllPairs(
    legacyBS: LegacyBalanceSheet, ledgerBS: BalanceSheet,
    legacyPL: LegacyProfitAndLoss, ledgerPL: ProfitAndLoss): seq<Pair>
  {
    SheetPairs(legacyBS, ledgerBS) + ProfitPairs(legacyPL, ledgerPL)
  }

  lemma {:induction false} DiscrepanciesAre(lines: seq<ReconciliationLine>, tolerance: real, line: ReconciliationLine)
    ensures line in Discrepancies(lines, tolerance) <==> line in lines && !Agrees(line, tolerance)
  {
    if lines != [] {
      DiscrepanciesAre(lines[1..], tolerance, line);
      assert lines == [lines[0]] + lines[1..];
    }
  }

  /**
   The discrepancies are exactly the lines of the report that are not exempt and differ by more than the tolerance,
   either way.
   */
  lemma DiscrepanciesAreExact(
    legacyBS: LegacyBalanceSheet, ledgerBS: BalanceSheet, legacyPL: LegacyProfitAndLoss, ledgerPL: ProfitAndLoss,
    tolerance: real, exempt: set<StatementLine>, line: ReconciliationLine)
    ensures var r := ReconcileStatements(legacyBS, ledgerBS, legacyPL, ledgerPL, Some(tolerance), Some(exempt));
            && |r.lines| == 14 && r.tolerance == tolerance
            && (line in r.discrepancies <==>
                 line in r.lines && line.line !in exempt && !(-tolerance <= line.diff as real <= tolerance))
  {
    var lines := Compare(AllPairs(legacyBS, ledgerBS, legacyPL, ledgerPL), exempt);
    DiscrepanciesAre(lines, tolerance, line);
    assert line in lines ==> line.exempt == (line.line in exempt);
  }

  /** The figure each line takes from the legacy statements; the current portion is part of the long-term debt. */
  function LegacyFigure(name: StatementLine, bs: LegacyBalanceSheet, pl: LegacyProfitAndLoss): real {
    match name
    case CashLine => bs.assets.cash
    case TenderClearingLine => bs.assets.tenderClearing
    case InventoryValueLine => bs.assets.inventoryValue
    case FixedAssetsNetLine => bs.assets.fixedAssetsNet
    case SupplierPayablesLine => bs.liabilities.supplierPayables
    case TaxPayableLine => bs.liabilities.taxPayable
    case AccruedLiabilitiesLine => bs.liabilities.accruedLiabilities
    case LongTermDebtLine => Round2(bs.liabilities.currentPortionLongTermDebt + bs.liabilities.longTermDebt) as real
    case EquityLine => bs.equity
    case RevenueNetLine => pl.revenueNet
    case TaxLine => pl.tax
    case CogsLine => pl.cogs
    case TotalExpensesLine => pl.totalExpenses
    case NetProfitLine => pl.netProfit
  }

  /** The figure of the ledger's statements it is compared with. */
  function LedgerFigure(name: StatementLine, bs: BalanceSheet, pl: ProfitAndLoss): int {
    match name
    case CashLine => bs.assets.cash
    case TenderClearingLine => bs.assets.tenderClearing
    case InventoryValueLine => bs.assets.inventoryValue
    case FixedAssetsNetLine => bs.assets.fixedAssetsNet
    case SupplierPayablesLine => bs.liabilities.supplierPayables
    case TaxPayableLine => bs.liabilities.taxPayable
    case AccruedLiabilitiesLine => bs.liabilities.accruedLiabilities
    case LongTermDebtLine => bs.liabilities.longTermDebt
    case EquityLine => bs.equity
    case RevenueNetLine => pl.revenueNet
    case TaxLine => pl.tax
    case CogsLine => pl.cogs
    case TotalExpensesLine => pl.totalExpenses
    case NetProfitLine => pl.netProfit
  }

  function PlaceOf(name: StatementLine): nat {
    match name
    case CashLine => 0
    case TenderClearingLine => 1
    case InventoryValueLine => 2
    case FixedAssetsNetLine => 3
    case SupplierPayablesLine => 4
    case TaxPayableLine => 5
    case AccruedLiabilitiesLine => 6
    case LongTermDebtLine => 7
    case EquityLine => 8
    case RevenueNetLine => 9
    case TaxLine => 10
    case CogsLine => 11
    case TotalExpensesLine => 12
    case NetProfitLine => 13
  }

  lemma PairAt(
    legacyBS: LegacyBalanceSheet, ledgerBS: BalanceSheet, legacyPL: LegacyProfitAndLoss, ledgerPL: ProfitAndLoss,
    name: StatementLine)
    ensures var pairs := AllPairs(legacyBS, ledgerBS, legacyPL, ledgerPL);
            PlaceOf(name) < |pairs| == 14
            && pairs[PlaceOf(name)]
               == Pair(name, LegacyFigure(name, legacyBS, legacyPL), LedgerFigure(name, ledgerBS, ledgerPL))
  {
  }

  /** Every figure is reported, under its own name: both sides, and the legacy one less the ledger's, to the cent. */
  lemma EveryFigureIsReported(
    legacyBS: LegacyBalanceSheet, ledgerBS: BalanceSheet, legacyPL: LegacyProfitAndLoss, ledgerPL: ProfitAndLoss,
    tolerance: real, exempt: set<StatementLine>, name: StatementLine) returns (line: ReconciliationLine)
    ensures line in ReconcileStatements(
      legacyBS, ledgerBS, legacyPL, ledgerPL, Some(tolerance), Some(exempt)).lines
    ensures var (legacy, ledger) := (LegacyFigure(name, legacyBS, legacyPL), LedgerFigure(name, ledgerBS, ledgerPL));
            && line.line == name && line.ledger == ledger && (line.exempt <==> name in exempt)
            && legacy - 0.5 < line.legacy as real <= legacy + 0.5
            && legacy - ledger as real - 0.5 < line.diff as real <= legacy - ledger as real + 0.5
  {
    var pairs := AllPairs(legacyBS, ledgerBS, legacyPL, ledgerPL);
    PairAt(legacyBS, ledgerBS, legacyPL, ledgerPL, name);
    line := Compare(pairs, exempt)[PlaceOf(name)];
  }

  /** A match means: each compared line is exempt or differs by no more than the tolerance. */
  lemma MatchedIff(
    legacyBS: LegacyBalanceSheet, ledgerBS: BalanceSheet, legacyPL: LegacyProfitAndLoss, ledgerPL: ProfitAndLoss,
    tolerance: real, exempt: set<StatementLine>)
    ensures ReconcileStatements(legacyBS, ledgerBS, legacyPL, ledgerPL, Some(tolerance), Some(exempt)).matched <==>
            forall p :: p in AllPairs(legacyBS, ledgerBS, legacyPL, ledgerPL) ==> PairAgrees(p, exempt, tolerance)
  {
    ComparedAgree(AllPairs(legacyBS, ledgerBS, legacyPL, ledgerPL), exempt, tolerance);
  }

  predicate Near(legacy: real, ledger: int, tolerance: real) {
    Abs(Round2(legacy - ledger as real)) as real <= tolerance
  }

  /** The same, line by line: the nine figures of the balance sheet and the five of the profit and loss. */
  lemma MatchedLineByLine(
    legacyBS: LegacyBalanceSheet, ledgerBS: BalanceSheet, legacyPL: LegacyProfitAndLoss, ledgerPL: ProfitAndLoss,
    tolerance: real, exempt: set<StatementLine>)
    ensures ReconcileStatements(legacyBS, ledgerBS, legacyPL, ledgerPL, Some(tolerance), Some(exempt)).matched <==>
            && SheetMatches(legacyBS, ledgerBS, tolerance, exempt)
            && ProfitMatches(legacyPL, ledgerPL, tolerance, exempt)
  {
    MatchedIff(legacyBS, ledgerBS, legacyPL, ledgerPL, tolerance, exempt);
    SheetPairsAgree(legacyBS, ledgerBS, tolerance, exempt);
    ProfitPairsAgree(legacyPL, ledgerPL, tolerance, exempt);
    assert forall p :: p in AllPairs(legacyBS, ledgerBS, legacyPL, ledgerPL) <==>
                       p in SheetPairs(legacyBS, ledgerBS) || p in ProfitPairs(legacyPL, ledgerPL);
  }

  predicate SheetMatches(
    legacy: LegacyBalanceSheet, ledger: BalanceSheet, tolerance: real, exempt: set<StatementLine>)
  {
    var (a, b) := (legacy.assets, ledger.assets);
    var (l, m) := (legacy.liabilities, ledger.liabilities);
    && LineMatches(CashLine, a.cash, b.cash, tolerance, exempt)
    && LineMatches(TenderClearingLine, a.tenderClearing, b.tenderClearing, tolerance, exempt)
    && LineMatches(InventoryValueLine, a.inventoryValue, b.inventoryValue, tolerance, exempt)
    && LineMatches(FixedAssetsNetLine, a.fixedAssetsNet, b.fixedAssetsNet, tolerance, exempt)
    && LineMatches(SupplierPayablesLine, l.supplierPayables, m.supplierPayables, tolerance, exempt)
    && LineMatches(TaxPayableLine, l.taxPayable, m.taxPayable, tolerance, exempt)
    && LineMatches(AccruedLiabilitiesLine, l.accruedLiabilities, m.accruedLiabilities, tolerance, exempt)
    && LineMatches(LongTermDebtLine, Round2(l.currentPortionLongTermDebt + l.longTermDebt) as real, m.longTermDebt,
                   tolerance, exempt)
    && LineMatches(EquityLine, legacy.equity, ledger.equity, tolerance, exempt)
  }

  predicate ProfitMatches(
    legacy: LegacyProfitAndLoss, ledger: ProfitAndLoss, tolerance: real, exempt: set<StatementLine>)
  {
    && LineMatches(RevenueNetLine, legacy.revenueNet, ledger.revenueNet, tolerance, exempt)
    && LineMatches(TaxLine, legacy.tax, ledger.tax, tolerance, exempt)
    && LineMatches(CogsLine, legacy.cogs, ledger.cogs, tolerance, exempt)
    && LineMatches(TotalExpensesLine, legacy.totalExpenses, ledger.totalExpenses, tolerance, exempt)
    && LineMatches(NetProfitLine, legacy.netProfit, ledger.netProfit, tolerance, exempt)
  }

  predicate LineMatches(
    line: StatementLine, legacy: real, ledger: int, tolerance: real, exempt: set<StatementLine>)
  {
    line in exempt || Near(legacy, ledger, tolerance)
  }

  lemma InOrder(pairs: seq<Pair>, tolerance: real, exempt: set<StatementLine>)
    ensures (forall p :: p in pairs ==> PairAgrees(p, exempt, tolerance)) <==>
            forall k :: 0 <= k < |pairs| ==> PairMatches(pairs[k], tolerance, exempt)
  {
    forall p
      ensures PairAgrees(p, exempt, tolerance) <==> PairMatches(p, tolerance, exempt)
    {
    }
    if forall p :: p in pairs ==> PairAgrees(p, exempt, tolerance) {
      forall k | 0 <= k < |pairs|
        ensures PairMatches(pairs[k], tolerance, exempt)
      {
        assert pairs[k] in pairs;
      }
    }
  }

  predicate PairMatches(p: Pair, tolerance: real, exempt: set<StatementLine>) {
    LineMatches(p.line, p.legacy, p.ledger, tolerance, exempt)
  }

  lemma SheetPairsAgree(
    legacy: LegacyBalanceSheet, ledger: BalanceSheet, tolerance: real, exempt: set<StatementLine>)
    ensures (forall p :: p in SheetPairs(legacy, ledger) ==> PairAgrees(p, exempt, tolerance))
            <==> SheetMatches(legacy, ledger, tolerance, exempt)
  {
    var pairs := SheetPairs(legacy, ledger);
    InOrder(pairs, tolerance, exempt);
    assert |pairs| == 9;
    assert (forall k :: 0 <= k < |pairs| ==> PairMatches(pairs[k], tolerance, exempt)) <==>
      && PairMatches(pairs[0], tolerance, exempt) && PairMatches(pairs[1], tolerance, exempt)
      && PairMatches(pairs[2], tolerance, exempt) && PairMatches(pairs[3], tolerance, exempt)
      && PairMatches(pairs[4], tolerance, exempt) && PairMatches(pairs[5], tolerance, exempt)
      && PairMatches(pairs[6], tolerance, exempt) && PairMatches(pairs[7], tolerance, exempt)
      && PairMatches(pairs[8], tolerance, exempt);
  }

  lemma ProfitPairsAgree(
    legacy: LegacyProfitAndLoss, ledger: ProfitAndLoss, tolerance: real, exempt: set<StatementLine>)
    ensures (forall p :: p in ProfitPairs(legacy, ledger) ==> PairAgrees(p, exempt, tolerance))
            <==> ProfitMatches(legacy, ledger, tolerance, exempt)
  {
    var pairs := ProfitPairs(legacy, ledger);
    InOrder(pairs, tolerance, exempt);
    assert |pairs| == 5;
    assert (forall k :: 0 <= k < |pairs| ==> PairMatches(pairs[k], tolerance, exempt)) <==>
      && PairMatches(pairs[0], tolerance, exempt) && PairMatches(pairs[1], tolerance, exempt)
      && PairMatches(pairs[2], tolerance, exempt) && PairMatches(pairs[3], tolerance, exempt)
      && PairMatches(pairs[4], tolerance, exempt);
  }

  /** Left out, the tolerance is one cent and the exempt lines are cash and equity. */
  lemma DefaultsAreCashAndEquityAtACent(
    legacyBS: LegacyBalanceSheet, ledgerBS: BalanceSheet, legacyPL: LegacyProfitAndLoss, ledgerPL: ProfitAndLoss)
    ensures ReconcileStatements(legacyBS, ledgerBS, legacyPL, ledgerPL, None, None).matched <==>
            && SheetMatches(legacyBS, ledgerBS, 1.0, {CashLine, EquityLine})
            && ProfitMatches(legacyPL, ledgerPL, 1.0, {CashLine, EquityLine})
  {
    MatchedLineByLine(legacyBS, ledgerBS, legacyPL, ledgerPL, 1.0, {CashLine, EquityLine});
  }

  predicate PairAgrees(p: Pair, exempt: set<StatementLine>, tolerance: real) {
    p.line in exempt || Abs(Round2(p.legacy - p.ledger as real)) as real <= tolerance
  }

  lemma ComparedAgree(pairs: seq<Pair>, exempt: set<StatementLine>, tolerance: real)
    ensures Discrepancies(Compare(pairs, exempt), tolerance) == []
            <==> forall p :: p in pairs ==> PairAgrees(p, exempt, tolerance)
  {
    var lines := Compare(pairs, exempt);
    NoDiscrepancyIff(lines, tolerance);
    assert forall k :: 0 <= k < |pairs| ==> (Agrees(lines[k], tolerance) <==> PairAgrees(pairs[k], exempt, tolerance));
  }

  /** A match survives a larger tolerance and a larger exempt set. */
  lemma MatchIsMonotone(
    legacyBS: LegacyBalanceSheet, ledgerBS: BalanceSheet, legacyPL: LegacyProfitAndLoss, ledgerPL: ProfitAndLoss,
    tolerance: real, larger: real, exempt: set<StatementLine>, more: set<StatementLine>)
    requires ReconcileStatements(legacyBS, ledgerBS, legacyPL, ledgerPL, Some(tolerance), Some(exempt)).matched
    requires tolerance <= larger && exempt <= more
    ensures ReconcileStatements(legacyBS, ledgerBS, legacyPL, ledgerPL, Some(larger), Some(more)).matched
  {
    MatchedIff(legacyBS, ledgerBS, legacyPL, ledgerPL, tolerance, exempt);
    MatchedIff(legacyBS, ledgerBS, legacyPL, ledgerPL, larger, more);
  }

  // ----- Why cash and equity may be exempt -----

  /** The legacy sheet's identity: net fixed assets are gross less depreciation, equity is assets less liabilities. */
  predicate LegacyIdentity(bs: LegacyBalanceSheet) {
    && bs.assets.fixedAssetsNet == bs.assets.fixedAssetsGross - bs.assets.accumulatedDepreciation
    && bs.equity == bs.assets.cash + bs.assets.tenderClearing + bs.assets.inventoryValue + bs.assets.fixedAssetsNet
                    - (bs.liabilities.supplierPayables + bs.liabilities.taxPayable
                       + bs.liabilities.accruedLiabilities + LongTermTotal(bs))
  }

  /** The ledger-only accounts, by which the two identities differ. */
  function LedgerOnly(sheet: BalanceSheet): int {
    sheet.assets.accountsReceivable - sheet.liabilities.tipsPayable
    - sheet.liabilities.customerDeposits - sheet.liabilities.deferredRevenue
  }

  ghost predicate SheetLinesAgree(legacy: LegacyBalanceSheet, ledger: BalanceSheet, tolerance: real) {
    forall k :: 1 <= k < 8 ==>
      AbsReal(SheetPairs(legacy, ledger)[k].legacy - SheetPairs(legacy, ledger)[k].ledger as real) <= tolerance
  }

  /** The totals of a ledger sheet are the sums of its figures, and it balances. */
  predicate SheetIdentity(sheet: BalanceSheet) {
    && sheet.assets.total == sheet.assets.cash + sheet.assets.tenderClearing + sheet.assets.accountsReceivable
                             + sheet.assets.inventoryValue + sheet.assets.fixedAssetsNet
    && sheet.liabilities.total == sheet.liabilities.supplierPayables + sheet.liabilities.taxPayable
                                  + sheet.liabilities.tipsPayable + sheet.liabilities.customerDeposits
                                  + sheet.liabilities.deferredRevenue + sheet.liabilities.accruedLiabilities
                                  + sheet.liabilities.longTermDebt
    && sheet.assets.total == sheet.liabilities.total + sheet.equity
  }

  lemma SevenDifferences(legacy: LegacyBalanceSheet, ledger: BalanceSheet, tolerance: real)
    requires SheetLinesAgree(legacy, ledger, tolerance)
    ensures -tolerance <= legacy.assets.tenderClearing - ledger.assets.tenderClearing as real <= tolerance
    ensures -tolerance <= legacy.assets.inventoryValue - ledger.assets.inventoryValue as real <= tolerance
    ensures -tolerance <= legacy.assets.fixedAssetsNet - ledger.assets.fixedAssetsNet as real <= tolerance
    ensures -tolerance <= legacy.liabilities.supplierPayables - ledger.liabilities.supplierPayables as real <= tolerance
    ensures -tolerance <= legacy.liabilities.taxPayable - ledger.liabilities.taxPayable as real <= tolerance
    ensures -tolerance
            <= legacy.liabilities.accruedLiabilities - ledger.liabilities.accruedLiabilities as real
            <= tolerance
    ensures -tolerance <= Round2(LongTermTotal(legacy)) as real - ledger.liabilities.longTermDebt as real <= tolerance
  {
    var pairs := SheetPairs(legacy, ledger);
    assert pairs[1].line == TenderClearingLine && pairs[2].line == InventoryValueLine;
    assert pairs[3].line == FixedAssetsNetLine;
    assert pairs[4].line == SupplierPayablesLine && pairs[5].line == TaxPayableLine;
    assert pairs[6].line == AccruedLiabilitiesLine && pairs[7].line == LongTermDebtLine;
  }

  /** The part of the equity difference that neither cash nor the ledger-only accounts explain. */
  function Unexplained(legacy: LegacyBalanceSheet, ledger: BalanceSheet): real {
    (legacy.equity - ledger.equity as real) - (legacy.assets.cash - ledger.assets.cash as real)
    + LedgerOnly(ledger) as real
  }

  /** Seven agreeing lines pin the equity difference to the cash difference. */
  lemma EquityFollowsCash(legacy: LegacyBalanceSheet, ledger: BalanceSheet, tolerance: real)
    requires LegacyIdentity(legacy) && SheetIdentity(ledger) && SheetLinesAgree(legacy, ledger, tolerance)
    ensures AbsReal(Unexplained(legacy, ledger))
            <= 7.0 * tolerance + AbsReal(Round2(LongTermTotal(legacy)) as real - LongTermTotal(legacy))
  {
    SevenDifferences(legacy, ledger, tolerance);
    var a, l := ledger.assets, ledger.liabilities;
    assert ledger.equity as real
        == a.cash as real + a.tenderClearing as real + a.accountsReceivable as real + a.inventoryValue as real
           + a.fixedAssetsNet as real
           - (l.supplierPayables as real + l.taxPayable as real + l.tipsPayable as real + l.customerDeposits as real
              + l.deferredRevenue as real + l.accruedLiabilities as real + l.longTermDebt as real);
    assert LedgerOnly(ledger) as real
        == a.accountsReceivable as real - l.tipsPayable as real - l.customerDeposits as real
           - l.deferredRevenue as real;
  }

  /** With the default exemptions, a match means the seven other sheet lines agree, up to a difference's rounding. */
  lemma MatchedSheetLines(
    legacyBS: LegacyBalanceSheet, ledgerBS: BalanceSheet,
    legacyPL: LegacyProfitAndLoss, ledgerPL: ProfitAndLoss, tolerance: real)
    requires ReconcileStatements(legacyBS, ledgerBS, legacyPL, ledgerPL, Some(tolerance), None).matched
    ensures SheetLinesAgree(legacyBS, ledgerBS, tolerance + 0.5)
    ensures WholeSheet(legacyBS) ==> SheetLinesAgree(legacyBS, ledgerBS, tolerance)
  {
    forall k | 1 <= k < 8
      ensures AbsReal(SheetPairs(legacyBS, ledgerBS)[k].legacy - SheetPairs(legacyBS, ledgerBS)[k].ledger as real)
              <= tolerance + 0.5
      ensures WholeSheet(legacyBS) ==>
                AbsReal(SheetPairs(legacyBS, ledgerBS)[k].legacy - SheetPairs(legacyBS, ledgerBS)[k].ledger as real)
                <= tolerance
    {
      MatchedLine(legacyBS, ledgerBS, legacyPL, ledgerPL, tolerance, k);
      if WholeSheet(legacyBS) {
        WholePair(legacyBS, ledgerBS, k);
      }
      RoundedDifference(SheetPairs(legacyBS, ledgerBS)[k]);
    }
  }

  lemma MatchedLine(
    legacyBS: LegacyBalanceSheet, ledgerBS: BalanceSheet, legacyPL: LegacyProfitAndLoss, ledgerPL: ProfitAndLoss,
    tolerance: real, k: nat)
    requires ReconcileStatements(legacyBS, ledgerBS, legacyPL, ledgerPL, Some(tolerance), None).matched && 1 <= k < 8
    ensures var p := SheetPairs(legacyBS, ledgerBS)[k]; Abs(Round2(p.legacy - p.ledger as real)) as real <= tolerance
  {
    MatchedIff(legacyBS, ledgerBS, legacyPL, ledgerPL, tolerance, DEFAULT_EXEMPT);
    var pairs, all := SheetPairs(legacyBS, ledgerBS), AllPairs(legacyBS, ledgerBS, legacyPL, ledgerPL);
    assert pairs[k] == all[k] && all[k] in all;
    NotExempt(legacyBS, ledgerBS, k);
    assert PairAgrees(pairs[k], DEFAULT_EXEMPT, tolerance);
  }

  lemma NotExempt(legacy: LegacyBalanceSheet, ledger: BalanceSheet, k: nat)
    requires 1 <= k < 8
    ensures SheetPairs(legacy, ledger)[k].line !in DEFAULT_EXEMPT
  {
  }

  lemma RoundedDifference(p: Pair)
    ensures AbsReal(p.legacy - p.ledger as real) <= Abs(Round2(p.legacy - p.ledger as real)) as real + 0.5
    ensures WholeCents(p.legacy) ==>
              AbsReal(p.legacy - p.ledger as real) == Abs(Round2(p.legacy - p.ledger as real)) as real
  {
    if WholeCents(p.legacy) {
      RoundCents(p.legacy.Floor - p.ledger);
    }
  }

  predicate WholeSheet(bs: LegacyBalanceSheet) {
    && WholeCents(bs.assets.cash) && WholeCents(bs.assets.tenderClearing) && WholeCents(bs.assets.inventoryValue)
    && WholeCents(bs.assets.fixedAssetsGross) && WholeCents(bs.assets.accumulatedDepreciation)
    && WholeCents(bs.assets.fixedAssetsNet)
    && WholeCents(bs.liabilities.supplierPayables) && WholeCents(bs.liabilities.taxPayable)
    && WholeCents(bs.liabilities.accruedLiabilities) && WholeCents(bs.liabilities.currentPortionLongTermDebt)
    && WholeCents(bs.liabilities.longTermDebt) && WholeCents(bs.equity)
  }

  lemma WholePair(legacy: LegacyBalanceSheet, ledger: BalanceSheet, k: nat)
    requires WholeSheet(legacy) && k < 9
    ensures WholeCents(SheetPairs(legacy, ledger)[k].legacy)
  {
  }

  lemma WholeLongTerm(bs: LegacyBalanceSheet)
    requires WholeSheet(bs)
    ensures Round2(LongTermTotal(bs)) as real == LongTermTotal(bs)
  {
    RoundCents(bs.liabilities.currentPortionLongTermDebt.Floor + bs.liabilities.longTermDebt.Floor);
  }

  /** A match with the default exemptions, against any ledger sheet that balances. */
  lemma MatchBoundsUnexplained(
    legacyBS: LegacyBalanceSheet, ledgerBS: BalanceSheet,
    legacyPL: LegacyProfitAndLoss, ledgerPL: ProfitAndLoss, tolerance: real)
    requires LegacyIdentity(legacyBS) && SheetIdentity(ledgerBS)
    requires ReconcileStatements(legacyBS, ledgerBS, legacyPL, ledgerPL, Some(tolerance), None).matched
    ensures AbsReal(Unexplained(legacyBS, ledgerBS)) <= 7.0 * tolerance + 4.0
    ensures WholeSheet(legacyBS) ==> AbsReal(Unexplained(legacyBS, ledgerBS)) <= 7.0 * tolerance
  {
    MatchedSheetLines(legacyBS, ledgerBS, legacyPL, ledgerPL, tolerance);
    EquityFollowsCash(legacyBS, ledgerBS, tolerance + 0.5);
    if WholeSheet(legacyBS) {
      WholeLongTerm(legacyBS);
      EquityFollowsCash(legacyBS, ledgerBS, tolerance);
    }
  }

  /** The sheet's totals are the sums of its own lines. */
  lemma SheetTotals(ledger: Books, branch: int, asOf: int)
    ensures var a := AssetsOf(ledger, branch, AsOf(asOf));
            a.total == a.cash + a.tenderClearing + a.accountsReceivable + a.inventoryValue + a.fixedAssetsNet
    ensures var l := LiabilitiesOf(ledger, branch, AsOf(asOf));
            l.total == l.supplierPayables + l.taxPayable + l.tipsPayable + l.customerDeposits + l.deferredRevenue
                       + l.accruedLiabilities + l.longTermDebt
  {
    SumOfAssets(ledger, branch, AsOf(asOf));
    SumOfLiabilities(ledger, branch, AsOf(asOf));
  }

  lemma RunSheetIdentity(ops: seq<Op>, branch: int, asOf: int)
    requires WholeCentOps(ops)
    ensures SheetIdentity(BalanceSheetOf(Run(EMPTY, ops), branch, asOf))
  {
    SheetTotals(Run(EMPTY, ops), branch, asOf);
    BalanceSheetBalances(ops, branch, asOf);
  }

  /**
   Exempting cash and equity is sound. Against the ledger of any whole-cent run, a match with the default
   exemptions bounds the unexplained part of the equity difference: what the cash difference and the
   ledger-only accounts do not account for is at most seven times the tolerance (plus four cents, for legacy
   figures with fractions of a cent).
   */
  lemma ExemptionIsSound(
    legacyBS: LegacyBalanceSheet, legacyPL: LegacyProfitAndLoss, ledgerPL: ProfitAndLoss,
    ops: seq<Op>, branch: int, asOf: int, tolerance: real)
    requires WholeCentOps(ops) && LegacyIdentity(legacyBS)
    requires ReconcileStatements(legacyBS, BalanceSheetOf(Run(EMPTY, ops), branch, asOf), legacyPL, ledgerPL,
                                 Some(tolerance), None).matched
    ensures AbsReal(Unexplained(legacyBS, BalanceSheetOf(Run(EMPTY, ops), branch, asOf))) <= 7.0 * tolerance + 4.0
    ensures WholeSheet(legacyBS) ==>
              AbsReal(Unexplained(legacyBS, BalanceSheetOf(Run(EMPTY, ops), branch, asOf))) <= 7.0 * tolerance
  {
    RunSheetIdentity(ops, branch, asOf);
    MatchBoundsUnexplained(legacyBS, BalanceSheetOf(Run(EMPTY, ops), branch, asOf), legacyPL, ledgerPL, tolerance);
  }

  // ----- The opening entry reconciles -----

  /** On whole cents, the sheet's identity is the identity of its legs. */
  lemma IdentityBalancesLegs(bs: LegacyBalanceSheet)
    requires WholeSheet(bs) && LegacyIdentity(bs)
    ensures SheetBalances(bs)
  {
    WholeLongTerm(bs);
    RoundWhole(bs.assets.cash);
    RoundWhole(bs.assets.tenderClearing);
    RoundWhole(bs.assets.inventoryValue);
    RoundWhole(bs.assets.fixedAssetsGross);
    RoundWhole(bs.assets.accumulatedDepreciation);
    RoundWhole(bs.liabilities.supplierPayables);
    RoundWhole(bs.liabilities.taxPayable);
    RoundWhole(bs.liabilities.accruedLiabilities);
    RoundWhole(bs.equity);
    var d, c := DebitFigures(bs), CreditFigures(bs);
    SumOfFour(d[0], d[1], d[2], d[3]);
    SumOfSix(c[0], c[1], c[2], c[3], c[4], c[5]);
    assert d == [d[0], d[1], d[2], d[3]] && c == [c[0], c[1], c[2], c[3], c[4], c[5]];
  }

  lemma {:induction false} SumOfZeros(ledger: Books, branch: int, codes: seq<GlAccountCode>, range: BalanceRange)
    requires forall k :: 0 <= k < |codes| ==> Balance(ledger, branch, codes[k], range) == 0
    ensures SumBalances(ledger, branch, codes, range) == 0
  {
    if codes != [] {
      SumOfZeros(ledger, branch, codes[1..], range);
    }
  }

  ghost predicate OpenedWith(ledger: Books, branch: int, range: BalanceRange, bs: LegacyBalanceSheet) {
    forall code: GlAccountCode :: !code.Unknown? ==> Balance(ledger, branch, code, range) == OpeningFigure(bs, code)
  }

  lemma NothingRetained(ledger: Books, branch: int, range: BalanceRange, bs: LegacyBalanceSheet)
    requires OpenedWith(ledger, branch, range, bs)
    ensures EquityOf(ledger, branch, range) == Round2(bs.equity)
  {
    NoRevenueOrCosts(ledger, branch, range, bs);
    OwnerOpens(ledger, branch, range, bs);
  }

  lemma OwnerOpens(ledger: Books, branch: int, range: BalanceRange, bs: LegacyBalanceSheet)
    requires OpenedWith(ledger, branch, range, bs)
    ensures Balance(ledger, branch, OwnerEquity, range) == Round2(bs.equity)
  {
  }

  lemma NoRevenueOrCosts(ledger: Books, branch: int, range: BalanceRange, bs: LegacyBalanceSheet)
    requires OpenedWith(ledger, branch, range, bs)
    ensures SumBalances(ledger, branch, REVENUE_ACCOUNTS, range) == 0
    ensures SumBalances(ledger, branch, COGS_ACCOUNTS, range) == 0
    ensures SumBalances(ledger, branch, EXPENSE_ACCOUNTS, range) == 0
  {
    RetainedRows();
    ExpenseRows();
    UnopenedSum(ledger, branch, range, bs, REVENUE_ACCOUNTS, 14);
    UnopenedSum(ledger, branch, range, bs, COGS_ACCOUNTS, 16);
    UnopenedSum(ledger, branch, range, bs, EXPENSE_ACCOUNTS, 18);
  }

  lemma UnopenedSum(
    ledger: Books, branch: int, range: BalanceRange, bs: LegacyBalanceSheet, codes: seq<GlAccountCode>, start: nat)
    requires OpenedWith(ledger, branch, range, bs) && RowsFrom(codes, start) && start >= 14
    ensures SumBalances(ledger, branch, codes, range) == 0
  {
    forall k | 0 <= k < |codes|
      ensures Balance(ledger, branch, codes[k], range) == 0
    {
      UnopenedIsZero(bs, codes[k]);
    }
    SumOfZeros(ledger, branch, codes, range);
  }

  lemma UnopenedIsZero(bs: LegacyBalanceSheet, code: GlAccountCode)
    requires Row(code) >= 14
    ensures OpeningFigure(bs, code) == 0
  {
  }

  lemma OpenedAssets(ledger: Books, branch: int, range: BalanceRange, bs: LegacyBalanceSheet)
    requires OpenedWith(ledger, branch, range, bs)
    ensures var assets := AssetsOf(ledger, branch, range);
            && assets.cash == Round2(bs.assets.cash) && assets.tenderClearing == Round2(bs.assets.tenderClearing)
            && assets.inventoryValue == Round2(bs.assets.inventoryValue)
            && assets.fixedAssetsNet == Round2(bs.assets.fixedAssetsGross) - Round2(bs.assets.accumulatedDepreciation)
  {
  }

  lemma OpenedLiabilities(ledger: Books, branch: int, range: BalanceRange, bs: LegacyBalanceSheet)
    requires OpenedWith(ledger, branch, range, bs)
    ensures var liabilities := LiabilitiesOf(ledger, branch, range);
            && liabilities.supplierPayables == Round2(bs.liabilities.supplierPayables)
            && liabilities.taxPayable == Round2(bs.liabilities.taxPayable)
            && liabilities.accruedLiabilities == Round2(bs.liabilities.accruedLiabilities)
            && liabilities.longTermDebt == Round2(LongTermTotal(bs))
  {
  }

  /** The sheet shows, for each compared line, the rounded legacy figure. */
  ghost predicate ShowsFigures(sheet: BalanceSheet, bs: LegacyBalanceSheet) {
    && sheet.assets.cash == Round2(bs.assets.cash) && sheet.assets.tenderClearing == Round2(bs.assets.tenderClearing)
    && sheet.assets.inventoryValue == Round2(bs.assets.inventoryValue)
    && sheet.assets.fixedAssetsNet == Round2(bs.assets.fixedAssetsGross) - Round2(bs.assets.accumulatedDepreciation)
    && sheet.liabilities.supplierPayables == Round2(bs.liabilities.supplierPayables)
    && sheet.liabilities.taxPayable == Round2(bs.liabilities.taxPayable)
    && sheet.liabilities.accruedLiabilities == Round2(bs.liabilities.accruedLiabilities)
    && sheet.liabilities.longTermDebt == Round2(LongTermTotal(bs))
    && sheet.equity == Round2(bs.equity)
  }

  lemma OpenedShowsFigures(ledger: Books, branch: int, asOf: int, bs: LegacyBalanceSheet)
    requires OpenedWith(ledger, branch, AsOf(asOf), bs)
    ensures ShowsFigures(BalanceSheetOf(ledger, branch, asOf), bs)
  {
    OpenedAssets(ledger, branch, AsOf(asOf), bs);
    OpenedLiabilities(ledger, branch, AsOf(asOf), bs);
    NothingRetained(ledger, branch, AsOf(asOf), bs);
  }

  /** Each line of a whole-cent sheet, compared with the rounded figures, has no difference. */
  lemma FiguresHaveNoDifference(sheet: BalanceSheet, bs: LegacyBalanceSheet, k: nat)
    requires ShowsFigures(sheet, bs) && WholeSheet(bs) && LegacyIdentity(bs) && k < 9
    ensures SheetPairs(bs, sheet)[k].legacy == SheetPairs(bs, sheet)[k].ledger as real
  {
    RoundWhole(bs.assets.cash);
    RoundWhole(bs.assets.tenderClearing);
    RoundWhole(bs.assets.inventoryValue);
    RoundWhole(bs.assets.fixedAssetsGross);
    RoundWhole(bs.assets.accumulatedDepreciation);
    RoundWhole(bs.liabilities.supplierPayables);
    RoundWhole(bs.liabilities.taxPayable);
    RoundWhole(bs.liabilities.accruedLiabilities);
    RoundWhole(bs.equity);
  }

  lemma NoDifferenceCompares(
    sheet: BalanceSheet, bs: LegacyBalanceSheet, legacyPL: LegacyProfitAndLoss, ledgerPL: ProfitAndLoss,
    tolerance: Option<real>, exempt: Option<set<StatementLine>>, k: nat)
    requires k < 9 && SheetPairs(bs, sheet)[k].legacy == SheetPairs(bs, sheet)[k].ledger as real
    ensures var lines := ReconcileStatements(bs, sheet, legacyPL, ledgerPL, tolerance, exempt).lines;
            |lines| == 14 && lines[k].diff == 0 && lines[k].line == SheetPairs(bs, sheet)[k].line
  {
  }

  /**
   Post the opening entry of a non-negative, non-zero whole-cent sheet to an empty branch, and compare: every
   balance-sheet line, the exempt ones included, shows a difference of zero from the opening date on.
   */
  lemma OpeningReconciles(
    ledger: Books, bs: LegacyBalanceSheet, branch: int, date: int, key: string, currency: Option<string>, asOf: int,
    legacyPL: LegacyProfitAndLoss, ledgerPL: ProfitAndLoss, tolerance: Option<real>,
    exempt: Option<set<StatementLine>>, k: nat)
    requires Valid(ledger) && NoLines(ledger, branch) && FindByKey(ledger.entries, branch, key) == None && key != ""
    requires WholeSheet(bs) && LegacyIdentity(bs) && NonNegative(bs) && SomeLegPositive(bs)
    requires date <= asOf && k < 9
    ensures var sheet := BalanceSheetOf(Post(ledger, OpeningInput(bs, branch, date, key, currency)).0, branch, asOf);
            var lines := ReconcileStatements(bs, sheet, legacyPL, ledgerPL, tolerance, exempt).lines;
            |lines| == 14 && lines[k].diff == 0 && lines[k].line == SheetPairs(bs, sheet)[k].line
  {
    var next := Post(ledger, OpeningInput(bs, branch, date, key, currency)).0;
    OpeningOpens(ledger, bs, branch, date, key, currency, asOf);
    OpenedShowsFigures(next, branch, asOf, bs);
    var sheet := BalanceSheetOf(next, branch, asOf);
    FiguresHaveNoDifference(sheet, bs, k);
    NoDifferenceCompares(sheet, bs, legacyPL, ledgerPL, tolerance, exempt, k);
  }

  lemma OpeningOpens(
    ledger: Books, bs: LegacyBalanceSheet, branch: int, date: int, key: string, currency: Option<string>, asOf: int)
    requires Valid(ledger) && NoLines(ledger, branch) && FindByKey(ledger.entries, branch, key) == None && key != ""
    requires WholeSheet(bs) && LegacyIdentity(bs) && NonNegative(bs) && SomeLegPositive(bs) && date <= asOf
    ensures OpenedWith(Post(ledger, OpeningInput(bs, branch, date, key, currency)).0, branch, AsOf(asOf), bs)
  {
    IdentityBalancesLegs(bs);
    forall code: GlAccountCode | !code.Unknown?
      ensures Balance(Post(ledger, OpeningInput(bs, branch, date, key, currency)).0, branch, code, AsOf(asOf))
              == OpeningFigure(bs, code)
    {
      OpeningReproducesTheBooks(ledger, bs, branch, date, key, currency, code, AsOf(asOf));
    }
  }
}
