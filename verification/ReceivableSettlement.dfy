/**
 A customer pays down a receivable: the entry built from the payment, when the ledger accepts it, and what rounding
 makes of it. Nothing is rounded where the tenders already add up to the settled amount, so tenders with fractions of
 a cent reach the ledger as they are.
 */
module ReceivableSettlement {
  import opened Outcomes
  import opened Money
  import opened Arithmetic
  import opened ChartOfAccounts
  import opened Journal
  import opened Ledger
  import opened LedgerInvariant
  import opened Posting
  import opened TenderSplit
  import opened Legs

  /** A request; the tender amounts are not negative. */
  datatype SettleReceivable = SettleReceivable(
    settledAmount: real, tenders: Option<seq<TenderRow>>, branchId: int, settledAt: int, idempotencyKey: string,
    currency: string)
  {
    function Rows(): seq<TenderRow> {
      if tenders.Some? then tenders.value else []
    }

    function Settled(): int {
      Round2(settledAmount)
    }

    function Tendered(): int {
      Round2(CashSum(Rows()) + ClearingSum(Rows()))
    }

    /** The tenders differ from the settled amount by a cent or more, and are scaled to it. */
    predicate Scaled() {
      Tendered() > 0 && Tendered() != Settled()
    }
  }

  datatype RequestError = NothingSettled

  function CashLeg(r: SettleReceivable): real {
    if r.Tendered() <= 0 then r.Settled() as real
    else if r.Scaled() then Round2(InProportion(CashSum(r.Rows()), r.Settled(), r.Tendered())) as real
    else CashSum(r.Rows())
  }

  function ClearingLeg(r: SettleReceivable): real {
    if r.Scaled() then r.Settled() as real - CashLeg(r) else ClearingSum(r.Rows())
  }

  function EntryLines(r: SettleReceivable): seq<LineInput> {
    DebitIfPositive(Cash, CashLeg(r))
    + (DebitIfPositive(TenderClearing, ClearingLeg(r))
       + [LineInput(AccountsReceivable, None, Some(r.Settled() as real))])
  }

  function EntryOf(r: SettleReceivable): Result<PostInput, RequestError> {
    if r.Settled() <= 0 then Failure(NothingSettled)
    else Success(PostInput(r.branchId, r.settledAt, r.idempotencyKey, Some(r.currency), EntryLines(r)))
  }

  method ScaleTo(amount: real, settled: int, tenderSum: int) returns (cash: real, clearing: real)
    requires tenderSum > 0
    ensures cash == Round2(InProportion(amount, settled, tenderSum)) as real && clearing == settled as real - cash
  {
    var scale := settled as real / tenderSum as real;
    var scaled := amount * scale;
    assert scaled == InProportion(amount, settled, tenderSum);
    cash := Round2(scaled) as real;
    Difference(settled, Round2(scaled));
    clearing := Round2(settled as real - cash) as real;
  }

  lemma Difference(a: int, b: int)
    ensures a as real - b as real == (a - b) as real && Round2(a as real - b as real) == a - b
  {
    RoundCents(a - b);
  }

  /** What is booked as cash and as clearing. */
  method BookedParts(r: SettleReceivable) returns (cash: real, clearing: real)
    requires NonNegativeRows(r.Rows()) && r.Settled() > 0
    ensures cash == CashLeg(r) && clearing == ClearingLeg(r)
  {
    var settled := Round2(r.settledAmount);
    cash, clearing := AddTenders(if r.tenders.Some? then r.tenders.value else []);
    SumsAreNonNegative(r.Rows());
    if Round2(cash + clearing) <= 0 {
      cash := settled as real;
    }
    var tenderSum := Round2(cash + clearing);
    if tenderSum != settled {
      cash, clearing := ScaleTo(cash, settled, tenderSum);
    }
  }

  method BuildEntry(r: SettleReceivable) returns (entry: Result<PostInput, RequestError>)
    requires NonNegativeRows(r.Rows())
    ensures entry == EntryOf(r)
  {
    var settled := Round2(r.settledAmount);
    if settled <= 0 {
      return Failure(NothingSettled);
    }
    var cash, clearing := BookedParts(r);
    var debits := [];
    if cash > 0.0 {
      debits := debits + [LineInput(Cash, Some(cash), None)];
    }
    if clearing > 0.0 {
      debits := debits + [LineInput(TenderClearing, Some(clearing), None)];
    }
    var lines := debits + [LineInput(AccountsReceivable, None, Some(settled as real))];
    assert lines == EntryLines(r);
    return Success(PostInput(r.branchId, r.settledAt, r.idempotencyKey, Some(r.currency), lines));
  }

  // ----- The entry's sums -----

  lemma EntrySums(r: SettleReceivable)
    requires r.Settled() > 0
    ensures var lines := EntryLines(r);
            && InputDebits(lines) == PositivePart(CashLeg(r)) + PositivePart(ClearingLeg(r))
            && InputCredits(lines) == r.Settled() as real
            && FirstLineError(lines) == None
            && Drift(lines) == Remainder(PositivePart(CashLeg(r))) + Remainder(PositivePart(ClearingLeg(r)))
            && (CashLeg(r) > 0.0 || ClearingLeg(r) > 0.0 ==> |lines| >= 2)
  {
    var credit := LineInput(AccountsReceivable, None, Some(r.Settled() as real));
    RoundCents(0);
    RoundCents(r.Settled());
    assert [credit][1..] == [];
    PushDebit(TenderClearing, ClearingLeg(r), [credit], Cash);
    PushDebit(Cash, CashLeg(r), DebitIfPositive(TenderClearing, ClearingLeg(r)) + [credit], Cash);
  }

  /** The exact cash share of the settled amount. */
  function ScaledCash(r: SettleReceivable): real
    requires r.Tendered() > 0
  {
    InProportion(CashSum(r.Rows()), r.Settled(), r.Tendered())
  }

  lemma ScaledLegs(r: SettleReceivable)
    requires NonNegativeRows(r.Rows()) && r.Settled() > 0 && r.Scaled()
    ensures CashLeg(r) == Round2(ScaledCash(r)) as real && ScaledCash(r) >= 0.0
    ensures CashLeg(r) >= 0.0 && ClearingLeg(r) == (r.Settled() - Round2(ScaledCash(r))) as real
  {
    SumsAreNonNegative(r.Rows());
    InProportionIsNonNegative(CashSum(r.Rows()), r.Settled(), r.Tendered());
  }

  /** A share rounded to cents, and the rest: together they are the settled amount unless the share exceeds it. */
  lemma PartsOfScaled(share: real, settled: int)
    requires share >= 0.0 && settled > 0
    ensures var cash, rest := Round2(share) as real, (settled - Round2(share)) as real;
            && PositivePart(cash) + PositivePart(rest) >= settled as real
            && (PositivePart(cash) + PositivePart(rest) <= settled as real + 0.5 <==> share < settled as real + 0.5)
            && (cash > 0.0 || rest > 0.0)
  {
  }

  /** Tenders that round to the settled amount are within half a cent of it. */
  lemma PartsOfUnscaled(cash: real, clearing: real, settled: int)
    requires cash >= 0.0 && clearing >= 0.0 && settled > 0
    requires Round2(cash + clearing) == settled || (cash == settled as real && clearing < 0.5)
    ensures -0.5 <= PositivePart(cash) + PositivePart(clearing) - settled as real <= 0.5
    ensures cash > 0.0 || clearing > 0.0
  {
  }

  lemma UnscaledLegs(r: SettleReceivable)
    requires NonNegativeRows(r.Rows()) && r.Settled() > 0 && !r.Scaled()
    ensures -0.5 <= PositivePart(CashLeg(r)) + PositivePart(ClearingLeg(r)) - r.Settled() as real <= 0.5
    ensures CashLeg(r) > 0.0 || ClearingLeg(r) > 0.0
  {
    SumsAreNonNegative(r.Rows());
    PartsOfUnscaled(CashLeg(r), ClearingLeg(r), r.Settled());
  }

  /** The entry is refused only for want of a key, or when scaling takes more in cash than was settled. */
  lemma ReceivableAcceptedIff(r: SettleReceivable)
    requires NonNegativeRows(r.Rows()) && r.Settled() > 0
    ensures Accepted(EntryOf(r).value) <==>
            r.idempotencyKey != "" && (r.Scaled() ==> ScaledCash(r) < r.Settled() as real + 0.5)
  {
    EntrySums(r);
    if r.Scaled() {
      ScaledLegs(r);
      PartsOfScaled(ScaledCash(r), r.Settled());
    } else {
      UnscaledLegs(r);
    }
    GuardOnSums(EntryOf(r).value);
  }

  /** Whole-cent tenders: with a key, always accepted. */
  lemma WholeTendersAreAccepted(r: SettleReceivable)
    requires WholeRows(r.Rows()) && NonNegativeRows(r.Rows()) && r.Settled() > 0 && r.idempotencyKey != ""
    ensures Accepted(EntryOf(r).value)
  {
    ReceivableAcceptedIff(r);
    if r.Scaled() {
      WholeShareIsWithin(r);
    }
  }

  lemma WholeShareIsWithin(r: SettleReceivable)
    requires WholeRows(r.Rows()) && NonNegativeRows(r.Rows()) && r.Settled() > 0 && r.Tendered() > 0
    ensures ScaledCash(r) <= r.Settled() as real
  {
    WholeTendered(r);
    SumsAreNonNegative(r.Rows());
    ShareIsWithin(CashSum(r.Rows()), r.Settled(), r.Tendered());
  }

  lemma WholeTendered(r: SettleReceivable)
    requires WholeRows(r.Rows())
    ensures r.Tendered() as real == CashSum(r.Rows()) + ClearingSum(r.Rows())
  {
    WholeSumsAreWhole(r.Rows());
    RoundWhole(CashSum(r.Rows()) + ClearingSum(r.Rows()));
  }

  lemma ShareIsWithin(amount: real, settled: int, tendered: int)
    requires 0.0 <= amount <= tendered as real && settled > 0 && tendered > 0
    ensures InProportion(amount, settled, tendered) <= settled as real
  {
    MulOrder(amount, tendered as real, settled as real / tendered as real);
    assert tendered as real * (settled as real / tendered as real) == settled as real;
  }

  /**
   An accepted payment is stored balanced exactly when there is no tender detail, the tenders are scaled, or their
   rounding remainders add up to within half a cent.
   */
  lemma ReceivableStoredBalancedIff(r: SettleReceivable, id: nat)
    requires NonNegativeRows(r.Rows()) && r.Settled() > 0 && Accepted(EntryOf(r).value)
    ensures Net(Stored(EntryOf(r).value, id)) == 0 <==>
            || r.Tendered() <= 0
            || r.Scaled()
            || -0.5 <= Remainder(CashSum(r.Rows())) + Remainder(ClearingSum(r.Rows())) < 0.5
  {
    EntrySums(r);
    SumsAreNonNegative(r.Rows());
    RoundingMovesNet(EntryLines(r), NewEntry(EntryOf(r).value, id));
    RoundCents(r.Settled());
    if r.Scaled() {
      ReceivableAcceptedIff(r);
      ScaledLegs(r);
      RoundCents(Round2(ScaledCash(r)));
      RoundCents(r.Settled() - Round2(ScaledCash(r)));
    }
  }

  /**
   Its stored rows all have a positive side exactly when, where nothing is scaled, no tender sum that is pushed lies
   below half a cent.
   */
  lemma ReceivableOneSidedIff(r: SettleReceivable, id: nat)
    requires NonNegativeRows(r.Rows()) && r.Settled() > 0 && Accepted(EntryOf(r).value)
    ensures (forall row :: row in Stored(EntryOf(r).value, id) ==> OneSided(row)) <==>
            || r.Scaled()
            || (!(0.0 < ClearingSum(r.Rows()) < 0.5) && (r.Tendered() > 0 ==> !(0.0 < CashSum(r.Rows()) < 0.5)))
  {
    EntrySums(r);
    OneSidedIff(EntryLines(r), NewEntry(EntryOf(r).value, id));
    VanishingIff(r);
    FaintLegsIff(r);
  }

  lemma FaintLegsIff(r: SettleReceivable)
    requires NonNegativeRows(r.Rows()) && r.Settled() > 0
    ensures !(0.0 < CashLeg(r) < 0.5) && !(0.0 < ClearingLeg(r) < 0.5) <==>
            || r.Scaled()
            || (!(0.0 < ClearingSum(r.Rows()) < 0.5) && (r.Tendered() > 0 ==> !(0.0 < CashSum(r.Rows()) < 0.5)))
  {
    if r.Scaled() {
      ScaledLegs(r);
      WholeIsNotFaint(Round2(ScaledCash(r)));
      WholeIsNotFaint(r.Settled() - Round2(ScaledCash(r)));
    }
  }

  lemma WholeIsNotFaint(cents: int)
    ensures !(0.0 < cents as real < 0.5)
  {
  }

  lemma VanishingIff(r: SettleReceivable)
    requires r.Settled() > 0
    ensures (forall line :: line in EntryLines(r) ==> !Vanishing(line)) <==>
            !(0.0 < CashLeg(r) < 0.5) && !(0.0 < ClearingLeg(r) < 0.5)
  {
    var cash, clearing := DebitIfPositive(Cash, CashLeg(r)), DebitIfPositive(TenderClearing, ClearingLeg(r));
    var credit := LineInput(AccountsReceivable, None, Some(r.Settled() as real));
    assert !Vanishing(credit);
    assert forall line :: line in EntryLines(r) <==> line in cash || line in clearing || line == credit;
    if CashLeg(r) > 0.0 {
      assert cash[0] in cash && (Vanishing(cash[0]) <==> CashLeg(r) < 0.5);
    }
    if ClearingLeg(r) > 0.0 {
      assert clearing[0] in clearing && (Vanishing(clearing[0]) <==> ClearingLeg(r) < 0.5);
    }
  }

  // ----- What a payment moves -----

  lemma EntryNet(r: SettleReceivable, code: GlAccountCode)
    requires r.Settled() > 0
    ensures InputNetOn(EntryLines(r), code)
            == (if code == Cash then Round2(PositivePart(CashLeg(r))) else 0)
               + (if code == TenderClearing then Round2(PositivePart(ClearingLeg(r))) else 0)
               - (if code == AccountsReceivable then r.Settled() else 0)
  {
    var credit := LineInput(AccountsReceivable, None, Some(r.Settled() as real));
    RoundCents(0);
    RoundCents(r.Settled());
    assert [credit][1..] == [];
    PushDebit(TenderClearing, ClearingLeg(r), [credit], code);
    PushDebit(Cash, CashLeg(r), DebitIfPositive(TenderClearing, ClearingLeg(r)) + [credit], code);
  }

  /** On whole cents the two legs are the tender split of the settled amount. */
  lemma LegsAreTheSplit(r: SettleReceivable)
    requires WholeRows(r.Rows()) && NonNegativeRows(r.Rows()) && r.Settled() > 0
    ensures var split := Split(r.Rows(), r.settledAmount);
            && CashLeg(r) == split.cash as real && ClearingLeg(r) == split.clearing as real
            && 0 <= split.cash && 0 <= split.clearing && split.cash + split.clearing == r.Settled()
  {
    var cash, clearing := WholeSums(r.Rows());
    RoundCents(cash);
    RoundCents(clearing);
    WholeTendered(r);
    ConservesTotal(r.Rows(), r.settledAmount);
    if r.Tendered() > 0 {
      SplitIsBounded(r.Rows(), r.settledAmount);
    }
  }

  lemma NothingTendered(rows: seq<TenderRow>, total: real)
    requires CashSum(rows) + ClearingSum(rows) <= 0.0
    ensures Split(rows, total).cash == Round2(total)
  {
  }

  /** What a payment is worth to an account, in the account's natural direction. */
  function Paid(r: SettleReceivable, code: GlAccountCode): int {
    match code
    case Cash => Split(r.Rows(), r.settledAmount).cash
    case TenderClearing => Split(r.Rows(), r.settledAmount).clearing
    case AccountsReceivable => -Round2(r.settledAmount)
    case _ => 0
  }

  lemma SignedPaid(r: SettleReceivable, code: GlAccountCode)
    requires WholeRows(r.Rows()) && NonNegativeRows(r.Rows()) && r.Settled() > 0
    ensures InputNetOn(EntryLines(r), code) * NormalBalanceSign(code) == Paid(r, code)
  {
    LegsAreTheSplit(r);
    EntryNet(r, code);
    PositiveCents(Split(r.Rows(), r.settledAmount).cash);
    PositiveCents(Split(r.Rows(), r.settledAmount).clearing);
  }

  lemma CashIsShare(r: SettleReceivable)
    requires WholeRows(r.Rows())
    ensures var split, settled := Split(r.Rows(), r.settledAmount), Round2(r.settledAmount);
            if CashSum(r.Rows()) + ClearingSum(r.Rows()) > 0.0
            then WithinHalfACent(split.cash, ExactShare(CashSum(r.Rows()), ClearingSum(r.Rows()), settled))
            else split.cash == settled
  {
    if CashSum(r.Rows()) + ClearingSum(r.Rows()) > 0.0 {
      CashIsProportional(r.Rows(), r.settledAmount);
    } else {
      NothingTendered(r.Rows(), r.settledAmount);
    }
  }

  lemma PaymentMovesBalance(ledger: Books, r: SettleReceivable, code: GlAccountCode, range: BalanceRange)
    requires Valid(ledger) && FindByKey(ledger.entries, r.branchId, r.idempotencyKey) == None
    requires WholeRows(r.Rows()) && NonNegativeRows(r.Rows()) && r.Settled() > 0 && range.Contains(r.settledAt)
    requires Accepted(EntryOf(r).value)
    ensures Balance(Post(ledger, EntryOf(r).value).0, r.branchId, code, range)
            == Balance(ledger, r.branchId, code, range) + Paid(r, code)
  {
    PostMovesBalance(ledger, EntryOf(r).value, r.branchId, code, range);
    SignedPaid(r, code);
  }

  /**
   A whole-cent payment under a fresh key closes the receivable by exactly the settled amount, brings in the same in
   cash and clearing, each the part the tender split gives it, and leaves every other account as it was.
   */
  lemma PaymentClosesTheReceivable(ledger: Books, r: SettleReceivable, code: GlAccountCode, range: BalanceRange)
    requires Valid(ledger) && FindByKey(ledger.entries, r.branchId, r.idempotencyKey) == None
    requires WholeRows(r.Rows()) && NonNegativeRows(r.Rows()) && Round2(r.settledAmount) > 0
    requires r.idempotencyKey != "" && range.Contains(r.settledAt)
    ensures EntryOf(r).Success? && Accepted(EntryOf(r).value)
    ensures var split, settled := Split(r.Rows(), r.settledAmount), Round2(r.settledAmount);
            var gain := Balance(Post(ledger, EntryOf(r).value).0, r.branchId, code, range)
                        - Balance(ledger, r.branchId, code, range);
            && split.cash + split.clearing == settled
            && (if CashSum(r.Rows()) + ClearingSum(r.Rows()) > 0.0
                then WithinHalfACent(split.cash, ExactShare(CashSum(r.Rows()), ClearingSum(r.Rows()), settled))
                else split.cash == settled)
            && gain == (if code == AccountsReceivable then -settled
                        else if code == Cash then split.cash
                        else if code == TenderClearing then split.clearing
                        else 0)
  {
    WholeTendersAreAccepted(r);
    LegsAreTheSplit(r);
    CashIsShare(r);
    PaymentMovesBalance(ledger, r, code, range);
  }

  // ----- Two requests -----

  function Pays(settled: real, tenders: seq<TenderRow>): SettleReceivable {
    SettleReceivable(settled, Some(tenders), 1, 0, "k", "ETB")
  }

  /** Half a cent in cash and half by card settle one cent: two cents are stored in debit against one in credit. */
  lemma HalfCentTendersStoreTwoAgainstOne()
    ensures var r := Pays(1.0, [TenderRow(Some("CASH"), Some(0.5)), TenderRow(Some("CARD"), Some(0.5))]);
            && NonNegativeRows(r.Rows()) && EntryOf(r).Success? && Accepted(EntryOf(r).value)
            && Debits(Stored(EntryOf(r).value, 1)) == 2 && Credits(Stored(EntryOf(r).value, 1)) == 1
  {
    var a, b := TenderRow(Some("CASH"), Some(0.5)), TenderRow(Some("CARD"), Some(0.5));
    var r := Pays(1.0, [a, b]);
    TwoRowSums(a, b);
    RoundCents(1);
    ReceivableAcceptedIff(r);
    var entry := NewEntry(EntryOf(r).value, 1);
    var x, y, z := LineInput(Cash, Some(0.5), None), LineInput(TenderClearing, Some(0.5), None),
      LineInput(AccountsReceivable, None, Some(1.0));
    assert EntryLines(r) == [x, y, z];
    assert [x, y, z][1..] == [y, z] && [y, z][1..] == [z] && [z][1..] == [];
    EntrySums(r);
    assert FirstLineError([z]) == None && FirstLineError([y, z]) == None;
    StoredSums([z], entry, Cash);
    StoredSums([y, z], entry, Cash);
    StoredSums([x, y, z], entry, Cash);
  }

  /** Three tenths of a cent by card settle 100: all is taken as cash, and the card leg is stored as a zero row. */
  lemma FaintTenderStoresAZeroRow()
    ensures var r := Pays(100.0, [TenderRow(Some("CARD"), Some(0.3))]);
            && NonNegativeRows(r.Rows()) && EntryOf(r).Success? && Accepted(EntryOf(r).value)
            && exists row :: row in Stored(EntryOf(r).value, 1) && !OneSided(row)
  {
    var row := TenderRow(Some("CARD"), Some(0.3));
    var r := Pays(100.0, [row]);
    assert [row][1..] == [] && CashSum([row]) == 0.0 && ClearingSum([row]) == 0.3;
    RoundCents(100);
    RoundsTo(0.3, 0);
    ReceivableAcceptedIff(r);
    ReceivableOneSidedIff(r, 1);
  }

  /** 1.4 cents in cash count as one cent; scaled to a settled amount of ten they come to fourteen, and are refused. */
  lemma FaintExcessIsRefused()
    ensures var r := Pays(10.0, [TenderRow(Some("CASH"), Some(1.4))]);
            NonNegativeRows(r.Rows()) && EntryOf(r).Success? && !Accepted(EntryOf(r).value)
  {
    var row := TenderRow(Some("CASH"), Some(1.4));
    var r := Pays(10.0, [row]);
    assert IsCash(row) && [row][1..] == [] && CashSum([row]) == 1.4 && ClearingSum([row]) == 0.0;
    RoundCents(10);
    RoundsTo(1.4, 1);
    ReceivableAcceptedIff(r);
  }
}
