/** What the statements promise of every ledger a whole-cent run can reach. */
module StatementLaws {
  import opened Outcomes
  import opened ChartOfAccounts
  import opened Journal
  import opened Ledger
  import opened LedgerInvariant
  import opened AccountingEquation
  import opened ReadPaths
  import opened Statements

  // ----- The trial balance balances -----

  lemma {:induction false} TrialIsNet(
    seed: seq<GlAccountSeed>, ledger: Books, branch: int, range: BalanceRange)
    ensures var lines := TrialLines(seed, AccountTotals(ledger, branch, range));
            TrialDebit(lines) - TrialCredit(lines) == NetOver(seed, ledger.lines, branch, range)
  {
    if seed != [] {
      TrialIsNet(seed[1..], ledger, branch, range);
      var totals := AccountTotals(ledger, branch, range);
      var code := seed[0].code;
      var net := Net(Select(ledger.lines, ByAccount(branch, code, range)));
      SelectTwice(ledger.lines, branch, code, range);
      TotalsListWindowAccounts(ledger, branch, range, code);
      if code !in totals {
        SelectNone(ledger.lines, ByAccount(branch, code, range));
      }
      assert TrialNet(totals, code) == net;
      var line := LineFor(code, net);
      TrialAppend(line, TrialLines(seed[1..], totals));
      if line != [] {
        assert line[1..] == [];
      }
    }
  }

  /** Any ledger: the trial balance is off by the net of the branch's lines; a whole-cent run's is not off. */
  lemma TrialBalanceBalances(ops: seq<Op>, branch: int, asOf: int)
    requires WholeCentOps(ops)
    ensures var lines := TrialLines(GL_ACCOUNT_SEED, AccountTotals(Run(EMPTY, ops), branch, AsOf(asOf)));
            TrialDebit(lines) == TrialCredit(lines)
  {
    EmptyInBalance(true);
    RunKeepsBalance(true, EMPTY, ops);
    var ledger := Run(EMPTY, ops);
    assert WindowTolerable(true, ledger, branch, AsOf(asOf));
    TrialIsNet(GL_ACCOUNT_SEED, ledger, branch, AsOf(asOf));
    SeedCovers(ledger);
    NetOverIsWindowNet(GL_ACCOUNT_SEED, ledger.lines, branch, AsOf(asOf));
  }

  // ----- Assets = liabilities + equity -----

  /** The groups of the balance sheet, in the order of the chart. */
  const CREDIT_GROUP: seq<GlAccountCode> := [AccumulatedDepreciation] + LIABILITIES + [OwnerEquity] + REVENUE_ACCOUNTS
  const COST_GROUP: seq<GlAccountCode> := COGS_ACCOUNTS + EXPENSE_ACCOUNTS

  function NetOfCodes(codes: seq<GlAccountCode>, lines: seq<Line>, branch: int, range: BalanceRange): int {
    if codes == [] then 0
    else Net(Select(lines, ByAccount(branch, codes[0], range))) + NetOfCodes(codes[1..], lines, branch, range)
  }

  lemma {:induction false} SeedNets(
    seed: seq<GlAccountSeed>, codes: seq<GlAccountCode>, lines: seq<Line>, b: int, r: BalanceRange)
    requires |codes| == |seed| && forall i :: 0 <= i < |seed| ==> seed[i].code == codes[i]
    ensures NetOver(seed, lines, b, r) == NetOfCodes(codes, lines, b, r)
  {
    if seed != [] {
      SeedNets(seed[1..], codes[1..], lines, b, r);
    }
  }

  lemma {:induction false} NetsAppend(
    a: seq<GlAccountCode>, c: seq<GlAccountCode>, lines: seq<Line>, b: int, r: BalanceRange)
    ensures NetOfCodes(a + c, lines, b, r) == NetOfCodes(a, lines, b, r) + NetOfCodes(c, lines, b, r)
  {
    if a == [] {
      assert a + c == c;
    } else {
      assert (a + c)[1..] == a[1..] + c;
      NetsAppend(a[1..], c, lines, b, r);
    }
  }

  ghost predicate AllSigned(codes: seq<GlAccountCode>, sign: int) {
    forall i :: 0 <= i < |codes| ==> NormalBalanceSign(codes[i]) == sign
  }

  /** Accounts of one sign: the sum of the balances is the signed sum of the nets. */
  lemma {:induction false} SignedSum(ledger: Books, b: int, codes: seq<GlAccountCode>, r: BalanceRange, sign: int)
    requires AllSigned(codes, sign) && (sign == 1 || sign == -1)
    ensures SumBalances(ledger, b, codes, r) == if sign == 1 then NetOfCodes(codes, ledger.lines, b, r)
                                                else -NetOfCodes(codes, ledger.lines, b, r)
  {
    if codes != [] {
      SignedSum(ledger, b, codes[1..], r, sign);
      var net := Net(Select(ledger.lines, ByAccount(b, codes[0], r)));
      assert Balance(ledger, b, codes[0], r) == net * sign;
    }
  }

  predicate CreditNormal(code: GlAccountCode) {
    5 <= Row(code) <= 15
  }

  lemma SignOf(code: GlAccountCode)
    requires !code.Unknown?
    ensures NormalBalanceSign(code) == if CreditNormal(code) then -1 else 1
  {
    if CreditNormal(code) {
      CreditSign(code);
    } else {
      DebitSign(code);
    }
  }

  lemma CreditSign(code: GlAccountCode)
    requires CreditNormal(code)
    ensures NormalBalanceSign(code) == -1
  {
  }

  lemma DebitSign(code: GlAccountCode)
    requires !code.Unknown? && !CreditNormal(code)
    ensures NormalBalanceSign(code) == 1
  {
  }

  lemma GroupSigns()
    ensures AllSigned(DEBIT_ASSETS, 1) && AllSigned(CREDIT_GROUP, -1) && AllSigned(COST_GROUP, 1)
  {
    GroupRows();
    forall i | 0 <= i < |DEBIT_ASSETS| ensures NormalBalanceSign(DEBIT_ASSETS[i]) == 1 { SignOf(DEBIT_ASSETS[i]); }
    forall i | 0 <= i < |CREDIT_GROUP| ensures NormalBalanceSign(CREDIT_GROUP[i]) == -1 { SignOf(CREDIT_GROUP[i]); }
    forall i | 0 <= i < |COST_GROUP| ensures NormalBalanceSign(COST_GROUP[i]) == 1 { SignOf(COST_GROUP[i]); }
  }

  ghost predicate RowsFrom(codes: seq<GlAccountCode>, start: nat) {
    forall i :: 0 <= i < |codes| ==> !codes[i].Unknown? && Row(codes[i]) == start + i
  }

  /** The three groups lie one after another in the chart. */
  lemma GroupRows()
    ensures |DEBIT_ASSETS| == 5 && |CREDIT_GROUP| == 11 && |COST_GROUP| == 12
    ensures RowsFrom(DEBIT_ASSETS, 0) && RowsFrom(CREDIT_GROUP, 5) && RowsFrom(COST_GROUP, 16)
  {
    CreditGroupRows();
    CostGroupRows();
  }

  lemma CreditGroupRows()
    ensures |CREDIT_GROUP| == 11 && RowsFrom(CREDIT_GROUP, 5)
  {
  }

  lemma CostGroupRows()
    ensures |COST_GROUP| == 12 && RowsFrom(COST_GROUP, 16)
  {
    ExpenseRows();
    assert RowsFrom(COGS_ACCOUNTS, 16);
    RowsFromAppend(COGS_ACCOUNTS, EXPENSE_ACCOUNTS, 16);
  }

  lemma RetainedRows()
    ensures RowsFrom(REVENUE_ACCOUNTS, 14) && RowsFrom(COGS_ACCOUNTS, 16)
  {
  }

  lemma ExpenseRows()
    ensures |EXPENSE_ACCOUNTS| == 10 && RowsFrom(EXPENSE_ACCOUNTS, 18)
  {
    CodesInOrder();
    forall i | 0 <= i < 10
      ensures !EXPENSE_ACCOUNTS[i].Unknown? && Row(EXPENSE_ACCOUNTS[i]) == 18 + i
    {
      assert EXPENSE_ACCOUNTS[i] == ACCOUNT_CODES[18 + i];
    }
  }

  lemma RowsFromAppend(a: seq<GlAccountCode>, c: seq<GlAccountCode>, start: nat)
    requires RowsFrom(a, start) && RowsFrom(c, start + |a|)
    ensures RowsFrom(a + c, start)
  {
  }

  /** The groups together are the chart, so their nets add up to the net of the window. */
  lemma GroupsCoverWindow(ledger: Books, b: int, r: BalanceRange)
    requires Valid(ledger)
    ensures SumBalances(ledger, b, DEBIT_ASSETS, r) - SumBalances(ledger, b, CREDIT_GROUP, r)
            + SumBalances(ledger, b, COST_GROUP, r)
            == Net(Select(ledger.lines, ByBranch(b, r)))
  {
    GroupSigns();
    SignedSum(ledger, b, DEBIT_ASSETS, r, 1);
    SignedSum(ledger, b, CREDIT_GROUP, r, -1);
    SignedSum(ledger, b, COST_GROUP, r, 1);
    NetsAppend(DEBIT_ASSETS + CREDIT_GROUP, COST_GROUP, ledger.lines, b, r);
    NetsAppend(DEBIT_ASSETS, CREDIT_GROUP, ledger.lines, b, r);
    GroupsAreTheChart();
    SeedNets(GL_ACCOUNT_SEED, DEBIT_ASSETS + CREDIT_GROUP + COST_GROUP, ledger.lines, b, r);
    SeedCovers(ledger);
    NetOverIsWindowNet(GL_ACCOUNT_SEED, ledger.lines, b, r);
  }

  lemma GroupsAreTheChart()
    ensures var codes := DEBIT_ASSETS + CREDIT_GROUP + COST_GROUP;
            |codes| == |GL_ACCOUNT_SEED| && forall i :: 0 <= i < |codes| ==> GL_ACCOUNT_SEED[i].code == codes[i]
  {
    GroupRows();
    SeedIsDisciplined();
    var codes := DEBIT_ASSETS + CREDIT_GROUP + COST_GROUP;
    forall i | 0 <= i < |codes|
      ensures GL_ACCOUNT_SEED[i].code == codes[i]
    {
      assert Row(codes[i]) == i && !codes[i].Unknown?;
      SeedAt(codes[i]);
    }
  }

  /** In any valid ledger, the balance sheet is off by exactly the net of the branch's lines up to its date. */
  lemma SheetGap(ledger: Books, b: int, asOf: int)
    requires Valid(ledger)
    ensures var sheet := BalanceSheetOf(ledger, b, asOf);
            sheet.assets.total - (sheet.liabilities.total + sheet.equity)
            == Net(Select(ledger.lines, ByBranch(b, AsOf(asOf))))
  {
    var r := AsOf(asOf);
    GroupsCoverWindow(ledger, b, r);
    BalancesAppend(ledger, b, [AccumulatedDepreciation] + LIABILITIES + [OwnerEquity], REVENUE_ACCOUNTS, r);
    BalancesAppend(ledger, b, [AccumulatedDepreciation] + LIABILITIES, [OwnerEquity], r);
    BalancesAppend(ledger, b, [AccumulatedDepreciation], LIABILITIES, r);
    BalancesAppend(ledger, b, COGS_ACCOUNTS, EXPENSE_ACCOUNTS, r);
    SumOf1(ledger, b, AccumulatedDepreciation, r);
    SumOf1(ledger, b, OwnerEquity, r);
  }

  /** Assets equal liabilities plus equity, at any date, in every ledger a whole-cent run reaches. */
  lemma BalanceSheetBalances(ops: seq<Op>, branch: int, asOf: int)
    requires WholeCentOps(ops)
    ensures var sheet := BalanceSheetOf(Run(EMPTY, ops), branch, asOf);
            sheet.assets.total == sheet.liabilities.total + sheet.equity
  {
    EmptyInBalance(true);
    RunKeepsBalance(true, EMPTY, ops);
    assert WindowTolerable(true, Run(EMPTY, ops), branch, AsOf(asOf));
    SheetGap(Run(EMPTY, ops), branch, asOf);
  }

  lemma {:induction false} SumWindowsAddUp(ledger: Books, branch: int, codes: seq<GlAccountCode>, t1: int, t2: int)
    requires t1 <= t2
    ensures SumBalances(ledger, branch, codes, AsOf(t2))
            == SumBalances(ledger, branch, codes, AsOf(t1))
               + SumBalances(ledger, branch, codes, BalanceRange(Some(t1 + 1), Some(t2)))
  {
    if codes != [] {
      SumWindowsAddUp(ledger, branch, codes[1..], t1, t2);
      WindowsAddUp(ledger, branch, codes[0], t1, t2);
    }
  }

  /**
   The statements articulate: between two balance sheets, equity moves by the net profit of the period
   between them plus the owner's own movements.
   */
  lemma EquityMovesByNetProfit(ledger: Books, branch: int, t1: int, t2: int)
    requires t1 <= t2
    ensures var period := BalanceRange(Some(t1 + 1), Some(t2));
            BalanceSheetOf(ledger, branch, t2).equity - BalanceSheetOf(ledger, branch, t1).equity
            == ProfitAndLossOf(ledger, branch, period).netProfit + Balance(ledger, branch, OwnerEquity, period)
  {
    SumWindowsAddUp(ledger, branch, REVENUE_ACCOUNTS, t1, t2);
    SumWindowsAddUp(ledger, branch, COGS_ACCOUNTS, t1, t2);
    SumWindowsAddUp(ledger, branch, EXPENSE_ACCOUNTS, t1, t2);
    WindowsAddUp(ledger, branch, OwnerEquity, t1, t2);
  }

  // ----- The expense breakdown -----

  lemma LabelShape(code: GlAccountCode)
    ensures var name := ExpenseLabel(code);
            && |name| == (match code
                           case ExpenseRent => 4 case ExpenseUtilities => 9 case ExpensePayroll => 7
                           case ExpenseSupplies => 8 case ExpenseMarketing => 9 case ExpenseMaintenance => 11
                           case ExpenseTaxes => 5 case ExpenseDepreciation => 12 case ExpenseInterest => 8
                           case _ => 5)
            && name[0] == (match code
                            case ExpenseRent => 'R' case ExpenseUtilities => 'U' case ExpensePayroll => 'P'
                            case ExpenseSupplies => 'S' case ExpenseMarketing => 'M' case ExpenseMaintenance => 'M'
                            case ExpenseTaxes => 'T' case ExpenseDepreciation => 'D' case ExpenseInterest => 'I'
                            case _ => 'O')
  {
  }

  lemma LabelsDiffer(a: GlAccountCode, b: GlAccountCode)
    requires 18 <= Row(a) <= 27 && 18 <= Row(b) <= 27 && ExpenseLabel(a) == ExpenseLabel(b)
    ensures a == b
  {
    LabelShape(a);
    LabelShape(b);
  }

  lemma {:induction false} NamesShown(
    ledger: Books, branch: int, codes: seq<GlAccountCode>, nameOf: GlAccountCode -> string, range: BalanceRange,
    name: string)
    ensures name in ByName(ledger, branch, codes, nameOf, range) ==>
              exists code :: code in codes && nameOf(code) == name
  {
    if codes != [] {
      var n := |codes| - 1;
      NamesShown(ledger, branch, codes[..n], nameOf, range, name);
      assert codes[n] in codes;
    }
  }

  /** Under names that tell accounts apart, each account shows its own amount. */
  lemma {:induction false} AmountShown(
    ledger: Books, branch: int, codes: seq<GlAccountCode>, nameOf: GlAccountCode -> string, range: BalanceRange,
    code: GlAccountCode)
    requires code in codes && forall c :: c in codes && nameOf(c) == nameOf(code) ==> c == code
    ensures var shown := ByName(ledger, branch, codes, nameOf, range);
            if Balance(ledger, branch, code, range) == 0 then nameOf(code) !in shown
            else nameOf(code) in shown && shown[nameOf(code)] == Balance(ledger, branch, code, range)
  {
    var n := |codes| - 1;
    NamesShown(ledger, branch, codes[..n], nameOf, range, nameOf(code));
    if code in codes[..n] {
      AmountShown(ledger, branch, codes[..n], nameOf, range, code);
    }
  }

  /** The breakdown lists exactly the expense accounts that have an amount, each under its own label. */
  lemma ExpenseBreakdownIsExact(ledger: Books, branch: int, range: BalanceRange, code: GlAccountCode)
    requires code in EXPENSE_ACCOUNTS
    ensures var shown := ProfitAndLossOf(ledger, branch, range).expensesByCategory;
            && (ExpenseLabel(code) in shown <==> Balance(ledger, branch, code, range) != 0)
            && (ExpenseLabel(code) in shown ==> shown[ExpenseLabel(code)] == Balance(ledger, branch, code, range))
            && (forall name :: name in shown ==> exists c :: c in EXPENSE_ACCOUNTS && ExpenseLabel(c) == name)
  {
    ExpenseRows();
    forall c | c in EXPENSE_ACCOUNTS && ExpenseLabel(c) == ExpenseLabel(code)
      ensures c == code
    {
      LabelsDiffer(c, code);
    }
    AmountShown(ledger, branch, EXPENSE_ACCOUNTS, ExpenseLabel, range, code);
    forall name | name in ProfitAndLossOf(ledger, branch, range).expensesByCategory
      ensures exists c :: c in EXPENSE_ACCOUNTS && ExpenseLabel(c) == name
    {
      NamesShown(ledger, branch, EXPENSE_ACCOUNTS, ExpenseLabel, range, name);
    }
  }
}
