/**
 The ledger entry of a point-of-sale checkout. Its comment says that it balances by construction; it does so exactly
 when neither the cash kept nor the tax exceeds the bill, or the two are equal.
 */
module PosCheckout {
  import opened Outcomes
  import opened Money
  import opened ChartOfAccounts
  import opened Journal
  import opened Ledger
  import opened LedgerInvariant
  import opened Posting
  import opened TenderSplit
  import opened Legs

  const CHECKOUT_PREFIX := "pos-checkout-"

  /** A number as it is printed. */
  function Decimal(n: nat): string {
    if n < 10 then ['0' + n as char] else Decimal(n / 10) + ['0' + (n % 10) as char]
  }

  /** The classification block a client attaches. */
  datatype Classification = Classification(accrual: bool, rental: bool)

  /** A stored checkout: amounts in whole cents, not negative; tender amounts as submitted, not negative. */
  datatype Checkout = Checkout(
    isReturn: bool, total: nat, paid: nat, tax: nat, changeDue: nat, tenders: seq<TenderRow>,
    classification: Option<Classification>, branchId: int, occurredAt: int, id: nat, idempotencyKey: Option<string>,
    currency: string)
  {
    /** The cash kept: what was paid less the change handed back. */
    function NetCash(): nat {
      Positive(paid - changeDue)
    }

    function Receivable(): nat {
      Positive(total - NetCash())
    }

    predicate CashBasis() {
      classification.Some? && !classification.value.accrual
    }

    function RevenueAccount(): GlAccountCode {
      if classification.Some? && classification.value.rental then RentalRevenue else ServiceRevenue
    }

    /** The client's key when there is one, else the number of the checkout. */
    function Reference(): string {
      if idempotencyKey.Some? && idempotencyKey.value != "" then idempotencyKey.value else Decimal(id)
    }

    function LedgerKey(): string {
      CHECKOUT_PREFIX + Reference()
    }
  }

  /** What a checkout books, in cents. */
  datatype Figures = Figures(
    cash: int, clearing: int, receivable: int, account: GlAccountCode, revenue: int, tax: int)

  function FiguresOf(c: Checkout): Figures {
    var split := Split(c.tenders, c.NetCash() as real);
    Figures(split.cash, split.clearing, c.Receivable(), c.RevenueAccount(), c.total - c.tax, c.tax)
  }

  function CreditLines(f: Figures): seq<LineInput> {
    CreditIfPositive(f.account, f.revenue as real) + (CreditIfPositive(TaxPayable, f.tax as real) + [])
  }

  function DebitLines(f: Figures): seq<LineInput> {
    DebitIfPositive(Cash, f.cash as real)
    + (DebitIfPositive(TenderClearing, f.clearing as real)
       + DebitIfPositive(AccountsReceivable, f.receivable as real))
  }

  function SaleLines(f: Figures): seq<LineInput> {
    DebitLines(f) + CreditLines(f)
  }

  function EntryLines(isReturn: bool, f: Figures): seq<LineInput> {
    if isReturn then Mirrored(SaleLines(f)) else SaleLines(f)
  }

  /** The entry that is posted for these figures, when one is. */
  function EntryFor(c: Checkout, f: Figures): Option<PostInput> {
    if !c.CashBasis() || c.total == 0 || |EntryLines(c.isReturn, f)| < 2 then None
    else Some(PostInput(c.branchId, c.occurredAt, c.LedgerKey(), Some(c.currency), EntryLines(c.isReturn, f)))
  }

  function EntryOf(c: Checkout): Option<PostInput> {
    EntryFor(c, FiguresOf(c))
  }

  method BuildDebits(f: Figures) returns (debits: seq<LineInput>)
    ensures debits == DebitLines(f)
  {
    debits := [];
    if f.cash > 0 {
      debits := debits + [LineInput(Cash, Some(f.cash as real), None)];
    }
    if f.clearing > 0 {
      debits := debits + [LineInput(TenderClearing, Some(f.clearing as real), None)];
    }
    if f.receivable > 0 {
      debits := debits + [LineInput(AccountsReceivable, Some(f.receivable as real), None)];
    }
  }

  method BuildCredits(f: Figures) returns (credits: seq<LineInput>)
    ensures credits == CreditLines(f)
  {
    credits := [];
    if f.revenue > 0 {
      credits := credits + [LineInput(f.account, None, Some(f.revenue as real))];
    }
    if f.tax > 0 {
      credits := credits + [LineInput(TaxPayable, None, Some(f.tax as real))];
    }
  }

  method BuildEntry(c: Checkout) returns (entry: Option<PostInput>)
    ensures entry == EntryOf(c)
  {
    if c.classification.None? || c.classification.value.accrual {
      return None;
    }
    var revenue := c.total - c.tax;
    var netCash := if c.paid - c.changeDue > 0 then c.paid - c.changeDue else 0;
    var receivable := if c.total - netCash > 0 then c.total - netCash else 0;
    if c.total <= 0 {
      return None;
    }
    var split := SplitTenders(Some(c.tenders), netCash as real);
    var figures := Figures(split.cash, split.clearing, receivable, c.RevenueAccount(), revenue, c.tax);
    var debits := BuildDebits(figures);
    var credits := BuildCredits(figures);
    var lines := debits + credits;
    if c.isReturn {
      lines := Mirrored(lines);
    }
    if |lines| < 2 {
      return None;
    }
    return Some(PostInput(c.branchId, c.occurredAt, c.LedgerKey(), Some(c.currency), lines));
  }

  // ----- The sums -----

  function Max(a: int, b: int): int {
    if a >= b then a else b
  }

  /**
   By how much the two tender legs exceed the cash kept: nothing without tender detail; the rounding remainders where
   the tenders already add up; the excess of the scaled cash otherwise.
   */
  function Surplus(cash: real, clearing: real, netCash: nat): int {
    var sum := Round2(cash + clearing);
    if sum <= 0 then 0
    else if sum == netCash then Round2(cash) + Round2(clearing) - netCash
    else Positive(Round2(InProportion(cash, netCash, sum)) - netCash)
  }

  lemma LegsOfShare(share: real, netCash: nat)
    requires share >= 0.0
    ensures Positive(Round2(share)) + Positive(netCash - Round2(share)) == netCash + Positive(Round2(share) - netCash)
  {
  }

  lemma LegsOfSplit(cash: real, clearing: real, netCash: nat)
    requires cash >= 0.0 && clearing >= 0.0
    ensures var split := SplitSums(cash, clearing, netCash as real);
            Positive(split.cash) + Positive(split.clearing) == netCash + Surplus(cash, clearing, netCash)
  {
    RoundCents(netCash);
    var sum := Round2(cash + clearing);
    if sum > 0 && sum != netCash {
      InProportionIsNonNegative(cash, netCash, sum);
      LegsOfShare(InProportion(cash, netCash, sum), netCash);
    }
  }

  lemma CreditSums(f: Figures, code: GlAccountCode)
    requires !f.account.Unknown?
    ensures var lines := CreditLines(f);
            && InputDebits(lines) == 0.0 && InputCredits(lines) == (Positive(f.revenue) + Positive(f.tax)) as real
            && FirstLineError(lines) == None
            && InputNetOn(lines, code) == -(if code == f.account then Positive(f.revenue) else 0)
                                          - (if code == TaxPayable then Positive(f.tax) else 0)
            && (f.revenue > 0 || f.tax > 0 ==> |lines| >= 1)
  {
    PushCreditCents(TaxPayable, f.tax, [], code);
    PushCreditCents(f.account, f.revenue, CreditIfPositive(TaxPayable, f.tax as real) + [], code);
  }

  function DebitTotal(f: Figures): nat {
    Positive(f.cash) + Positive(f.clearing) + Positive(f.receivable)
  }

  function CreditTotal(f: Figures): nat {
    Positive(f.revenue) + Positive(f.tax)
  }

  lemma SaleSums(f: Figures, code: GlAccountCode)
    requires !f.account.Unknown?
    ensures var lines := SaleLines(f);
            && InputDebits(lines) == DebitTotal(f) as real && InputCredits(lines) == CreditTotal(f) as real
            && FirstLineError(lines) == None
            && InputNetOn(lines, code) == (if code == Cash then Positive(f.cash) else 0)
                                          + (if code == TenderClearing then Positive(f.clearing) else 0)
                                          + (if code == AccountsReceivable then Positive(f.receivable) else 0)
                                          + InputNetOn(CreditLines(f), code)
            && (DebitTotal(f) > 0 && CreditTotal(f) > 0 ==> |lines| >= 2)
  {
    CreditSums(f, code);
    PushCents(AccountsReceivable, f.receivable, CreditLines(f), code);
    var later := DebitIfPositive(AccountsReceivable, f.receivable as real) + CreditLines(f);
    PushCents(TenderClearing, f.clearing, later, code);
    PushCents(Cash, f.cash, DebitIfPositive(TenderClearing, f.clearing as real) + later, code);
    Regroup(DebitIfPositive(Cash, f.cash as real), DebitIfPositive(TenderClearing, f.clearing as real),
            DebitIfPositive(AccountsReceivable, f.receivable as real), CreditLines(f));
  }

  lemma Regroup(a: seq<LineInput>, b: seq<LineInput>, c: seq<LineInput>, d: seq<LineInput>)
    ensures a + (b + c) + d == a + (b + (c + d))
  {
  }

  /** A sale's debits are a return's credits, and the other way round. */
  lemma LineSums(isReturn: bool, f: Figures)
    requires !f.account.Unknown?
    ensures var lines := EntryLines(isReturn, f);
            && FirstLineError(lines) == None
            && InputDebits(lines) == (if isReturn then CreditTotal(f) else DebitTotal(f)) as real
            && InputCredits(lines) == (if isReturn then DebitTotal(f) else CreditTotal(f)) as real
            && (DebitTotal(f) > 0 && CreditTotal(f) > 0 ==> |lines| >= 2)
  {
    SaleSums(f, Cash);
    MirrorSums(SaleLines(f), Cash);
  }

  // ----- When the ledger takes it -----

  predicate IsPosted(c: Checkout) {
    EntryOf(c).Some? && Accepted(EntryOf(c).value)
  }

  lemma KeyIsSet(c: Checkout)
    ensures c.LedgerKey() != ""
  {
    assert |CHECKOUT_PREFIX| > 0;
  }

  /** The guard, on totals of whole cents. */
  lemma GuardOnCents(input: PostInput, debits: nat, credits: nat)
    requires FirstLineError(input.lines) == None && |input.lines| >= 2 && input.idempotencyKey != ""
    requires InputDebits(input.lines) == debits as real && InputCredits(input.lines) == credits as real
    ensures Accepted(input) <==> debits == credits > 0
  {
  }

  lemma FiguresArePostedIff(c: Checkout, f: Figures)
    requires !f.account.Unknown? && (c.total > 0 ==> CreditTotal(f) > 0)
    ensures EntryFor(c, f).Some? && Accepted(EntryFor(c, f).value) <==>
            c.CashBasis() && c.total > 0 && DebitTotal(f) == CreditTotal(f)
  {
    LineSums(c.isReturn, f);
    KeyIsSet(c);
    if EntryFor(c, f).Some? {
      if c.isReturn {
        GuardOnCents(EntryFor(c, f).value, CreditTotal(f), DebitTotal(f));
      } else {
        GuardOnCents(EntryFor(c, f).value, DebitTotal(f), CreditTotal(f));
      }
    }
  }

  /** What the debits and the credits of a checkout come to. */
  lemma CheckoutTotals(c: Checkout)
    requires NonNegativeRows(c.tenders)
    ensures DebitTotal(FiguresOf(c))
            == Max(c.total, c.NetCash()) + Surplus(CashSum(c.tenders), ClearingSum(c.tenders), c.NetCash())
    ensures CreditTotal(FiguresOf(c)) == Max(c.total, c.tax)
  {
    SumsAreNonNegative(c.tenders);
    LegsOfSplit(CashSum(c.tenders), ClearingSum(c.tenders), c.NetCash());
  }

  /**
   Any checkout at all, tenders with fractions of a cent included: an entry is posted exactly when the bill or the tax,
   whichever is more, is the bill or the cash kept, whichever is more, and the surplus of the tenders.
   */
  lemma CheckoutPostedIff(c: Checkout)
    requires NonNegativeRows(c.tenders)
    ensures IsPosted(c) <==>
            && c.CashBasis() && c.total > 0
            && Max(c.total, c.NetCash()) + Surplus(CashSum(c.tenders), ClearingSum(c.tenders), c.NetCash())
               == Max(c.total, c.tax)
  {
    CheckoutTotals(c);
    FiguresArePostedIff(c, FiguresOf(c));
  }

  lemma WholeTendersHaveNoSurplus(c: Checkout)
    requires WholeRows(c.tenders) && NonNegativeRows(c.tenders)
    ensures Surplus(CashSum(c.tenders), ClearingSum(c.tenders), c.NetCash()) == 0
    ensures var split := Split(c.tenders, c.NetCash() as real);
            split.cash >= 0 && split.clearing >= 0 && split.cash + split.clearing == c.NetCash()
  {
    SumsAreNonNegative(c.tenders);
    RoundCents(c.NetCash());
    ConservesTotal(c.tenders, c.NetCash() as real);
    LegsOfSplit(CashSum(c.tenders), ClearingSum(c.tenders), c.NetCash());
    if CashSum(c.tenders) + ClearingSum(c.tenders) > 0.0 {
      SplitIsBounded(c.tenders, c.NetCash() as real);
    } else {
      assert Round2(CashSum(c.tenders) + ClearingSum(c.tenders)) <= 0;
    }
  }

  /**
   With whole-cent tenders, a cash-basis bill is posted exactly when neither the cash kept nor the tax exceeds it, or
   the two are equal.
   */
  lemma CheckoutBalancesIff(c: Checkout)
    requires WholeRows(c.tenders) && NonNegativeRows(c.tenders)
    ensures IsPosted(c) <==>
            && c.classification.Some? && !c.classification.value.accrual && c.total > 0
            && ((c.paid - c.changeDue <= c.total && c.tax <= c.total) || c.paid - c.changeDue == c.tax)
  {
    WholeTendersHaveNoSurplus(c);
    CheckoutPostedIff(c);
  }

  /** Overpaid and without the change recorded: the debits exceed the credits, and the entry is refused. */
  lemma OverpaidIsRefused(c: Checkout)
    requires WholeRows(c.tenders) && NonNegativeRows(c.tenders)
    requires c.CashBasis() && c.total > 0 && c.tax <= c.total < c.NetCash()
    ensures EntryOf(c).Some? && !Accepted(EntryOf(c).value)
    ensures InputDebits(EntryOf(c).value.lines) != InputCredits(EntryOf(c).value.lines)
  {
    WholeTendersHaveNoSurplus(c);
    CheckoutTotals(c);
    LineSums(c.isReturn, FiguresOf(c));
    CheckoutBalancesIff(c);
  }

  function Bill(total: nat, paid: nat): Checkout {
    Checkout(false, total, paid, 0, 0, [TenderRow(Some("CASH"), Some(paid as real))],
             Some(Classification(false, false)), 1, 0, 1, None, "ETB")
  }

  /** A bill of 100 paid with 120 and no change recorded. */
  lemma OverpaidBillIsRefused()
    ensures EntryOf(Bill(100, 120)).Some? && !Accepted(EntryOf(Bill(100, 120)).value)
  {
    RoundCents(120);
    OverpaidIsRefused(Bill(100, 120));
  }

  // ----- What it moves, and its return -----

  /** The net it puts on an account: the cash kept, the rest of the bill owed, revenue and tax. */
  lemma CheckoutNet(c: Checkout, code: GlAccountCode)
    requires WholeRows(c.tenders) && NonNegativeRows(c.tenders) && c.NetCash() <= c.total && c.tax <= c.total
    ensures var f := FiguresOf(c);
            && f.cash + f.clearing == c.NetCash()
            && InputNetOn(SaleLines(f), code)
               == match code
                  case Cash => f.cash
                  case TenderClearing => f.clearing
                  case AccountsReceivable => c.total - c.NetCash()
                  case TaxPayable => 0 - c.tax
                  case _ => if code == c.RevenueAccount() then c.tax - c.total else 0
  {
    WholeTendersHaveNoSurplus(c);
    SaleSums(FiguresOf(c), code);
    CreditSums(FiguresOf(c), code);
  }

  /** What a sale is worth to an account, in the account's natural direction. */
  function Booked(c: Checkout, code: GlAccountCode): int {
    var split := Split(c.tenders, c.NetCash() as real);
    match code
    case Cash => split.cash
    case TenderClearing => split.clearing
    case AccountsReceivable => c.total - c.NetCash()
    case TaxPayable => c.tax
    case _ => if code == c.RevenueAccount() then c.total - c.tax else 0
  }

  lemma SignedBooked(c: Checkout, code: GlAccountCode)
    requires WholeRows(c.tenders) && NonNegativeRows(c.tenders) && c.NetCash() <= c.total && c.tax <= c.total
    ensures InputNetOn(SaleLines(FiguresOf(c)), code) * NormalBalanceSign(code) == Booked(c, code)
  {
    CheckoutNet(c, code);
  }

  /**
   A sale whose bill covers the tax and the cash kept is posted: cash and clearing rise by the cash kept, the
   receivable by the rest of the bill, tax by the tax and revenue by the bill less the tax.
   */
  lemma CheckoutBooksTheBill(ledger: Books, c: Checkout, code: GlAccountCode, range: BalanceRange)
    requires Valid(ledger) && FindByKey(ledger.entries, c.branchId, c.LedgerKey()) == None
    requires WholeRows(c.tenders) && NonNegativeRows(c.tenders) && range.Contains(c.occurredAt)
    requires !c.isReturn && c.classification.Some? && !c.classification.value.accrual
    requires 0 < c.total && c.paid - c.changeDue <= c.total && c.tax <= c.total
    ensures var kept := if c.paid > c.changeDue then c.paid - c.changeDue else 0;
            var split := Split(c.tenders, kept as real);
            var gain := if EntryOf(c).None? then 0
                        else Balance(Post(ledger, EntryOf(c).value).0, c.branchId, code, range)
                             - Balance(ledger, c.branchId, code, range);
            && IsPosted(c) && split.cash + split.clearing == kept
            && gain == match code
                       case Cash => split.cash
                       case TenderClearing => split.clearing
                       case AccountsReceivable => c.total - kept
                       case TaxPayable => c.tax
                       case RentalRevenue => if c.classification.value.rental then c.total - c.tax else 0
                       case ServiceRevenue => if c.classification.value.rental then 0 else c.total - c.tax
                       case _ => 0
  {
    CheckoutBalancesIff(c);
    WholeTendersHaveNoSurplus(c);
    SaleMovesBalance(ledger, c, code, range);
  }

  lemma SaleMovesBalance(ledger: Books, c: Checkout, code: GlAccountCode, range: BalanceRange)
    requires Valid(ledger) && FindByKey(ledger.entries, c.branchId, c.LedgerKey()) == None
    requires WholeRows(c.tenders) && NonNegativeRows(c.tenders) && range.Contains(c.occurredAt)
    requires !c.isReturn && IsPosted(c) && c.NetCash() <= c.total && c.tax <= c.total
    ensures Balance(Post(ledger, EntryOf(c).value).0, c.branchId, code, range)
            == Balance(ledger, c.branchId, code, range) + Booked(c, code)
  {
    PostMovesBalance(ledger, EntryOf(c).value, c.branchId, code, range);
    SignedBooked(c, code);
  }

  /** The return of a checkout: the same figures, at another time, under its own number and key. */
  function ReturnOf(c: Checkout, id: nat, key: Option<string>, occurredAt: int): Checkout {
    c.(isReturn := true, id := id, idempotencyKey := key, occurredAt := occurredAt)
  }

  lemma ReturnIsPosted(c: Checkout, id: nat, key: Option<string>, occurredAt: int)
    requires IsPosted(c)
    ensures IsPosted(ReturnOf(c, id, key, occurredAt))
  {
    var back, f := ReturnOf(c, id, key, occurredAt), FiguresOf(c);
    FiguresArePostedIff(c, f);
    FiguresArePostedIff(back, f);
    assert FiguresOf(back) == f;
  }

  lemma ReturnMirrors(c: Checkout, id: nat, key: Option<string>, occurredAt: int)
    requires !c.isReturn && IsPosted(c)
    ensures var back := EntryOf(ReturnOf(c, id, key, occurredAt));
            && back.Some? && Accepted(back.value)
            && back.value.lines == Mirrored(EntryOf(c).value.lines)
            && back.value.branchId == c.branchId && back.value.occurredAt == occurredAt
            && back.value.idempotencyKey == ReturnOf(c, id, key, occurredAt).LedgerKey()
  {
    ReturnIsPosted(c, id, key, occurredAt);
    assert FiguresOf(ReturnOf(c, id, key, occurredAt)) == FiguresOf(c);
  }

  /** Posting a sale and then its return leaves every balance as it was, in windows that hold both. */
  lemma ReturnUndoesSale(
    ledger: Books, c: Checkout, id: nat, key: Option<string>, occurredAt: int, branch: int,
    code: GlAccountCode, range: BalanceRange)
    requires Valid(ledger) && !c.isReturn && IsPosted(c) 
    requires ReturnOf(c, id, key, occurredAt).Reference() != c.Reference()
    requires FindByKey(ledger.entries, c.branchId, c.LedgerKey()) == None
    requires FindByKey(ledger.entries, c.branchId, ReturnOf(c, id, key, occurredAt).LedgerKey()) == None
    requires range.Contains(c.occurredAt) && range.Contains(occurredAt)
    ensures var back := ReturnOf(c, id, key, occurredAt);
            && IsPosted(back)
            && Balance(Post(Post(ledger, EntryOf(c).value).0, EntryOf(back).value).0, branch, code, range)
               == Balance(ledger, branch, code, range)
  {
    var back := ReturnOf(c, id, key, occurredAt);
    ReturnMirrors(c, id, key, occurredAt);
    KeysDiffer(c.Reference(), back.Reference());
    MirrorUndoes(ledger, EntryOf(c).value, EntryOf(back).value, branch, code, range);
  }

  lemma KeysDiffer(a: string, b: string)
    requires a != b
    ensures CHECKOUT_PREFIX + a != CHECKOUT_PREFIX + b
  {
    var prefix := CHECKOUT_PREFIX;
    assert (prefix + a)[|prefix|..] == a && (prefix + b)[|prefix|..] == b;
  }
}
