/**
 A tender split feeds the ledger: the settlement entry a caller builds from it, when the ledger accepts that
 entry, and what posting it does. The entry is that of a property booking: the two tender parts and the rent
 deferred earlier are debited, and the rent recognised is credited.
 */
module SplitPosting {
  import opened Outcomes
  import opened Money
  import opened Arithmetic
  import opened ChartOfAccounts
  import opened Journal
  import opened Ledger
  import opened LedgerInvariant
  import opened Posting
  import opened Legs
  import opened TenderSplit

  function SettlementLines(split: TenderSplit, priorDeferred: int, recognised: int): seq<LineInput> {
    DebitIfPositive(Cash, split.cash as real) + LaterLines(split.clearing, priorDeferred, recognised)
  }

  function LaterLines(clearing: int, priorDeferred: int, recognised: int): seq<LineInput> {
    DebitIfPositive(TenderClearing, clearing as real)
    + (DebitIfPositive(DeferredRevenue, priorDeferred as real)
       + [LineInput(RentalRevenue, None, Some(recognised as real))])
  }

  /** What a settlement recognises as rent: the amount paid now and the rent deferred before. */
  function Recognised(finalPaid: real, priorDeferred: int): int {
    Round2(priorDeferred as real + finalPaid)
  }

  function Settlement(
    rows: seq<TenderRow>, finalPaid: real, priorDeferred: int, branch: int, date: int, key: string): PostInput
  {
    PostInput(branch, date, key, None,
              SettlementLines(Split(rows, finalPaid), priorDeferred, Recognised(finalPaid, priorDeferred)))
  }

  // ----- The sums of the entry -----

  lemma RevenueSums(recognised: int, code: GlAccountCode)
    requires recognised >= 0
    ensures var lines := [LineInput(RentalRevenue, None, Some(recognised as real))];
            && InputDebits(lines) == 0.0 && InputCredits(lines) == recognised as real && FirstLineError(lines) == None
            && InputNetOn(lines, code) == -(if code == RentalRevenue then recognised else 0)
  {
    var last := LineInput(RentalRevenue, None, Some(recognised as real));
    RoundCents(0);
    RoundCents(recognised);
    assert [last][1..] == [];
  }

  /** The lines after the cash leg. */
  lemma LaterSums(clearing: int, priorDeferred: int, recognised: int, code: GlAccountCode)
    requires recognised >= 0
    ensures var lines := LaterLines(clearing, priorDeferred, recognised);
            && InputDebits(lines) == (Positive(clearing) + Positive(priorDeferred)) as real
            && InputCredits(lines) == recognised as real
            && FirstLineError(lines) == None
            && InputNetOn(lines, code) == (if code == TenderClearing then Positive(clearing) else 0)
                                          + (if code == DeferredRevenue then Positive(priorDeferred) else 0)
                                          - (if code == RentalRevenue then recognised else 0)
            && |lines| >= if clearing > 0 || priorDeferred > 0 then 2 else 1
  {
    var last := [LineInput(RentalRevenue, None, Some(recognised as real))];
    RevenueSums(recognised, code);
    PushCents(DeferredRevenue, priorDeferred, last, code);
    PushCents(TenderClearing, clearing, DebitIfPositive(DeferredRevenue, priorDeferred as real) + last, code);
  }

  lemma SettlementSums(split: TenderSplit, priorDeferred: int, recognised: int, code: GlAccountCode)
    requires recognised >= 0
    ensures var lines := SettlementLines(split, priorDeferred, recognised);
            && InputDebits(lines) == (Positive(split.cash) + Positive(split.clearing) + Positive(priorDeferred)) as real
            && InputCredits(lines) == recognised as real
            && FirstLineError(lines) == None
            && InputNetOn(lines, code) == (if code == Cash then Positive(split.cash) else 0)
                                          + (if code == TenderClearing then Positive(split.clearing) else 0)
                                          + (if code == DeferredRevenue then Positive(priorDeferred) else 0)
                                          - (if code == RentalRevenue then recognised else 0)
            && (split.cash > 0 || split.clearing > 0 || priorDeferred > 0 ==> |lines| >= 2)
  {
    LaterSums(split.clearing, priorDeferred, recognised, code);
    PushCents(Cash, split.cash, LaterLines(split.clearing, priorDeferred, recognised), code);
  }

  lemma PartsAddUp(rows: seq<TenderRow>, finalPaid: real, priorDeferred: int)
    requires WholeRows(rows)
    ensures Split(rows, finalPaid).cash + Split(rows, finalPaid).clearing + priorDeferred
            == Recognised(finalPaid, priorDeferred)
  {
    ConservesTotal(rows, finalPaid);
    RoundShift(finalPaid, priorDeferred);
  }

  // ----- Acceptance, decided on the input -----

  /**
   The tender sums of the rows, against the settled amount, leave neither part negative. Without tender detail all is
   cash; with it, neither tender's exact share lies more than half a cent below zero.
   */
  predicate PartsFit(cash: int, clearing: int, settled: int) {
    if cash + clearing <= 0 then settled >= 0
    else 2 * (cash * settled) >= -(cash + clearing) && 2 * (clearing * settled) > -(cash + clearing)
  }

  lemma PartsFitIff(cash: int, clearing: int, total: real)
    ensures var split := SplitSums(cash as real, clearing as real, total);
            split.cash >= 0 && split.clearing >= 0 <==> PartsFit(cash, clearing, Round2(total))
  {
    SplitIsShare(cash, clearing, total);
    if cash + clearing > 0 {
      ShareIsAtLeastZeroIff(cash, Round2(total), cash + clearing);
      ShareIsAtMostIff(cash, clearing, Round2(total));
    }
  }

  lemma ShareIsAtLeastZeroIff(cash: int, settled: int, sum: int)
    requires sum > 0
    ensures Share(cash, settled, sum) >= 0 <==> 2 * (cash * settled) >= -sum
  {
    var n, d := 2 * cash * settled + sum, 2 * sum;
    Reassociate(2, cash, settled);
    DivBounds(n, d);
    var share := n / d;
    if share >= 0 {
      MulMonotone(d, 0, share);
    } else {
      MulMonotone(d, share, -1);
    }
  }

  lemma ShareIsAtMostIff(cash: int, clearing: int, settled: int)
    requires cash + clearing > 0
    ensures Share(cash, settled, cash + clearing) <= settled <==> 2 * (clearing * settled) > -(cash + clearing)
  {
    var sum := cash + clearing;
    var n, d := 2 * cash * settled + sum, 2 * sum;
    Reassociate(2, cash, settled);
    Reassociate(2, sum, settled);
    Distribute(cash, clearing, settled);
    DivBounds(n, d);
    var share := n / d;
    if share <= settled {
      MulMonotone(d, share, settled);
    } else {
      MulMonotone(d, settled + 1, share);
      StepUp(d, settled);
    }
  }

  lemma StepUp(d: int, q: int)
    ensures d * (q + 1) == d * q + d
  {
  }

  /**
   Whole-cent rows of any sign, any payment, rent deferred before: the ledger accepts the entry exactly when the
   deferred rent is not negative and the tender sums fit the settled amount.
   */
  lemma SettlementAcceptedIff(
    rows: seq<TenderRow>, cash: int, clearing: int, finalPaid: real, priorDeferred: int,
    branch: int, date: int, key: string)
    requires WholeRows(rows) && CashSum(rows) == cash as real && ClearingSum(rows) == clearing as real
    requires Recognised(finalPaid, priorDeferred) > 0 && key != ""
    ensures Accepted(Settlement(rows, finalPaid, priorDeferred, branch, date, key)) <==>
            priorDeferred >= 0 && PartsFit(cash, clearing, Round2(finalPaid))
  {
    var split := Split(rows, finalPaid);
    PartsAddUp(rows, finalPaid, priorDeferred);
    PartsFitIff(cash, clearing, finalPaid);
    SettlementSums(split, priorDeferred, Recognised(finalPaid, priorDeferred), Cash);
  }

  /** 200 in cash and a card row of minus 100 against 100 would be refused; no caller's rows are negative. */
  lemma NegativeCardRowIsRefused(branch: int, date: int, key: string)
    ensures var rows := [TenderRow(Some("CASH"), Some(200.0)), TenderRow(Some("CARD"), Some(-100.0))];
            && Split(rows, 100.0) == TenderSplit(200, -100)
            && !Accepted(Settlement(rows, 100.0, 0, branch, date, key))
  {
    var a, b := TenderRow(Some("CASH"), Some(200.0)), TenderRow(Some("CARD"), Some(-100.0));
    TwoRowSums(a, b);
    RoundCents(100);
    RoundCents(200);
    RoundCents(-100);
    if key != "" {
      SettlementAcceptedIff([a, b], 200, -100, 100.0, 0, branch, date, key);
    }
  }

  lemma NonNegativeFits(cash: nat, clearing: nat, settled: nat)
    ensures PartsFit(cash, clearing, settled)
  {
    MulMonotone(settled, 0, cash);
    MulMonotone(settled, 0, clearing);
    Commute(settled, cash);
    Commute(settled, clearing);
  }

  /** Non-negative whole-cent rows, a payment that is not negative, something to recognise: always accepted. */
  lemma SettlementIsAccepted(
    rows: seq<TenderRow>, finalPaid: real, priorDeferred: nat, branch: int, date: int, key: string)
    requires WholeRows(rows) && NonNegativeRows(rows) && Round2(finalPaid) >= 0
    requires Recognised(finalPaid, priorDeferred) > 0 && key != ""
    ensures Accepted(Settlement(rows, finalPaid, priorDeferred, branch, date, key))
    ensures Split(rows, finalPaid).cash >= 0 && Split(rows, finalPaid).clearing >= 0
  {
    var cash, clearing := WholeSums(rows);
    NonNegativeFits(cash, clearing, Round2(finalPaid));
    PartsFitIff(cash, clearing, finalPaid);
    SettlementAcceptedIff(rows, cash, clearing, finalPaid, priorDeferred, branch, date, key);
  }

  // ----- What posting it does -----

  /**
   Posting it under a fresh key raises cash and clearing together by exactly the settled amount, each by its part,
   lowers deferred revenue by the rent deferred before, and raises rental revenue by the sum of both.
   */
  lemma SettlementMovesBalances(
    ledger: Books, rows: seq<TenderRow>, finalPaid: real, priorDeferred: nat, branch: int, date: int, key: string,
    range: BalanceRange)
    requires Valid(ledger) && FindByKey(ledger.entries, branch, key) == None && range.Contains(date)
    requires WholeRows(rows) && NonNegativeRows(rows) && Round2(finalPaid) >= 0
    requires Recognised(finalPaid, priorDeferred) > 0 && key != ""
    ensures var next := Post(ledger, Settlement(rows, finalPaid, priorDeferred, branch, date, key)).0;
            var gain := (code: GlAccountCode) =>
              Balance(next, branch, code, range) - Balance(ledger, branch, code, range);
            && gain(Cash) == Split(rows, finalPaid).cash
            && gain(Cash) + gain(TenderClearing) == Round2(finalPaid)
            && gain(DeferredRevenue) == 0 - priorDeferred
            && gain(RentalRevenue) == Round2(finalPaid) + priorDeferred
            && forall code :: code !in {Cash, TenderClearing, DeferredRevenue, RentalRevenue} ==> gain(code) == 0
  {
    var input := Settlement(rows, finalPaid, priorDeferred, branch, date, key);
    var split := Split(rows, finalPaid);
    SettlementIsAccepted(rows, finalPaid, priorDeferred, branch, date, key);
    PartsAddUp(rows, finalPaid, priorDeferred);
    ConservesTotal(rows, finalPaid);
    var recognised := Recognised(finalPaid, priorDeferred);
    MovedBy(ledger, input, Cash, range, split, priorDeferred, recognised);
    MovedBy(ledger, input, TenderClearing, range, split, priorDeferred, recognised);
    MovedBy(ledger, input, DeferredRevenue, range, split, priorDeferred, recognised);
    MovedBy(ledger, input, RentalRevenue, range, split, priorDeferred, recognised);
    forall code | code !in {Cash, TenderClearing, DeferredRevenue, RentalRevenue}
      ensures Balance(Post(ledger, input).0, branch, code, range) == Balance(ledger, branch, code, range)
    {
      MovedBy(ledger, input, code, range, split, priorDeferred, recognised);
    }
  }

  /** What the entry is worth to an account, in the account's natural direction. */
  function Gain(code: GlAccountCode, split: TenderSplit, priorDeferred: int, recognised: int): int {
    match code
    case Cash => split.cash
    case TenderClearing => split.clearing
    case DeferredRevenue => -priorDeferred
    case RentalRevenue => recognised
    case _ => 0
  }

  lemma MovedBy(
    ledger: Books, input: PostInput, code: GlAccountCode, range: BalanceRange, split: TenderSplit,
    priorDeferred: nat, recognised: nat)
    requires Valid(ledger) && Accepted(input)
    requires FindByKey(ledger.entries, input.branchId, input.idempotencyKey) == None
    requires range.Contains(input.occurredAt) && split.cash >= 0 && split.clearing >= 0
    requires input.lines == SettlementLines(split, priorDeferred, recognised)
    ensures Balance(Post(ledger, input).0, input.branchId, code, range)
            == Balance(ledger, input.branchId, code, range) + Gain(code, split, priorDeferred, recognised)
  {
    PostMovesBalance(ledger, input, input.branchId, code, range);
    SettlementSums(split, priorDeferred, recognised, code);
    SignedGain(code, split, priorDeferred, recognised);
  }

  lemma SignedGain(code: GlAccountCode, split: TenderSplit, priorDeferred: nat, recognised: nat)
    ensures Gain(code, split, priorDeferred, recognised)
            == ((if code == Cash then split.cash else 0)
                + (if code == TenderClearing then split.clearing else 0)
                + (if code == DeferredRevenue then priorDeferred else 0)
                - (if code == RentalRevenue then recognised else 0)) * NormalBalanceSign(code)
  {
  }
}
