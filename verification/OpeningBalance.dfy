/** When the ledger accepts the opening entry, and what the books say after it is posted. */
module OpeningBalance {
  import opened Outcomes
  import opened Money
  import opened ChartOfAccounts
  import opened Journal
  import opened Ledger
  import opened LedgerInvariant
  import opened Posting
  import opened StatementLaws
  import opened Reconciliation

  function OpeningInput(
    bs: LegacyBalanceSheet, branch: int, date: int, key: string, currency: Option<string>): PostInput
  {
    PostInput(branch, date, key, currency, BuildOpeningBalanceLines(bs))
  }

  function Dropped(x: int): nat {
    if x < 0 then -x else 0
  }

  // ----- The legs, as sums -----

  function LegDebit(leg: LineInput): int {
    Round2(Amount(leg.debit))
  }

  function LegCredit(leg: LineInput): int {
    Round2(Amount(leg.credit))
  }

  /** A leg as the builder makes it: a chart account, one side, a rounded amount. */
  predicate IsLeg(leg: LineInput) {
    && !leg.accountCode.Unknown?
    && (leg.debit.None? || leg.credit.None?)
    && WholeCents(Amount(leg.debit)) && WholeCents(Amount(leg.credit))
  }

  function PositiveDebits(legs: seq<LineInput>): nat {
    if legs == [] then 0 else Positive(LegDebit(legs[0])) + PositiveDebits(legs[1..])
  }

  function PositiveCredits(legs: seq<LineInput>): nat {
    if legs == [] then 0 else Positive(LegCredit(legs[0])) + PositiveCredits(legs[1..])
  }

  lemma LegAmounts(leg: LineInput)
    requires IsLeg(leg)
    ensures LegDebit(leg) as real == Amount(leg.debit) && LegCredit(leg) as real == Amount(leg.credit)
    ensures LegDebit(leg) == 0 || LegCredit(leg) == 0
  {
    RoundWhole(Amount(leg.debit));
    RoundWhole(Amount(leg.credit));
    RoundCents(0);
  }

  lemma {:induction false} KeptSums(legs: seq<LineInput>)
    requires forall k :: 0 <= k < |legs| ==> IsLeg(legs[k])
    ensures var kept := KeepPositive(legs);
            && InputDebits(kept) == PositiveDebits(legs) as real
            && InputCredits(kept) == PositiveCredits(legs) as real
            && FirstLineError(kept) == None
            && (PositiveDebits(legs) > 0 || PositiveCredits(legs) > 0 ==> |kept| >= 1)
            && (PositiveDebits(legs) > 0 && PositiveCredits(legs) > 0 ==> |kept| >= 2)
  {
    if legs != [] {
      KeptSums(legs[1..]);
      var leg, rest := legs[0], KeepPositive(legs[1..]);
      LegAmounts(leg);
      if Amount(leg.debit) > 0.0 || Amount(leg.credit) > 0.0 {
        assert KeepPositive(legs) == [leg] + rest && ([leg] + rest)[1..] == rest;
        assert LineError(leg) == None;
      }
    }
  }

  // ----- The four debit and six credit figures of the sheet, in cents -----

  function DebitFigures(bs: LegacyBalanceSheet): seq<int> {
    [Round2(bs.assets.cash), Round2(bs.assets.tenderClearing), Round2(bs.assets.inventoryValue),
     Round2(bs.assets.fixedAssetsGross)]
  }

  function CreditFigures(bs: LegacyBalanceSheet): seq<int> {
    [Round2(bs.assets.accumulatedDepreciation), Round2(bs.liabilities.supplierPayables),
     Round2(bs.liabilities.taxPayable),
     Round2(bs.liabilities.accruedLiabilities), Round2(LongTermTotal(bs)), Round2(bs.equity)]
  }

  function Sum(xs: seq<int>): int {
    if xs == [] then 0 else xs[0] + Sum(xs[1..])
  }

  lemma SumOfFour(a: int, b: int, c: int, d: int)
    ensures Sum([a, b, c, d]) == a + b + c + d
  {
    assert [a, b, c, d][1..] == [b, c, d] && [b, c, d][1..] == [c, d] && [c, d][1..] == [d] && [d][1..] == [];
    assert Sum([d]) == d + Sum([d][1..]);
    assert Sum([c, d]) == c + Sum([c, d][1..]);
    assert Sum([b, c, d]) == b + Sum([b, c, d][1..]);
    assert Sum([a, b, c, d]) == a + Sum([a, b, c, d][1..]);
  }

  lemma SumOfSix(a: int, b: int, c: int, d: int, e: int, f: int)
    ensures Sum([a, b, c, d, e, f]) == a + b + c + d + e + f
  {
    SumOfFour(c, d, e, f);
    assert [a, b, c, d, e, f][1..] == [b, c, d, e, f] && [b, c, d, e, f][1..] == [c, d, e, f];
    assert Sum([b, c, d, e, f]) == b + Sum([b, c, d, e, f][1..]);
    assert Sum([a, b, c, d, e, f]) == a + Sum([a, b, c, d, e, f][1..]);
  }

  function SumPositive(xs: seq<int>): nat {
    if xs == [] then 0 else Positive(xs[0]) + SumPositive(xs[1..])
  }

  function SumDropped(xs: seq<int>): nat {
    if xs == [] then 0 else Dropped(xs[0]) + SumDropped(xs[1..])
  }

  lemma {:induction false} PositiveIsAllPlusDropped(xs: seq<int>)
    ensures SumPositive(xs) == Sum(xs) + SumDropped(xs)
    ensures SumPositive(xs) > 0 <==> exists x :: x in xs && x > 0
  {
    if xs != [] {
      PositiveIsAllPlusDropped(xs[1..]);
      assert xs[0] in xs;
      if x :| x in xs && x > 0 {
        assert x == xs[0] || x in xs[1..];
      }
      if x :| x in xs[1..] && x > 0 {
        assert x in xs;
      }
    }
  }

  /** What the legs put on an account, from the figures. */
  function OpeningNet(bs: LegacyBalanceSheet, code: GlAccountCode): int {
    match code
    case Cash => Round2(bs.assets.cash)
    case TenderClearing => Round2(bs.assets.tenderClearing)
    case Inventory => Round2(bs.assets.inventoryValue)
    case FixedAssets => Round2(bs.assets.fixedAssetsGross)
    case AccumulatedDepreciation => -Round2(bs.assets.accumulatedDepreciation)
    case SupplierPayables => -Round2(bs.liabilities.supplierPayables)
    case TaxPayable => -Round2(bs.liabilities.taxPayable)
    case AccruedLiabilities => -Round2(bs.liabilities.accruedLiabilities)
    case LongTermDebt => -Round2(LongTermTotal(bs))
    case OwnerEquity => -Round2(bs.equity)
    case _ => 0
  }

  lemma AddDebitLeg(code: GlAccountCode, amount: real, rest: seq<LineInput>, account: GlAccountCode)
    ensures var legs := [DebitLeg(code, amount)] + rest;
            && PositiveDebits(legs) == Positive(Round2(amount)) + PositiveDebits(rest)
            && PositiveCredits(legs) == PositiveCredits(rest)
            && InputNetOn(legs, account) == (if code == account then Round2(amount) else 0) + InputNetOn(rest, account)
  {
  }

  lemma AddCreditLeg(code: GlAccountCode, amount: real, rest: seq<LineInput>, account: GlAccountCode)
    ensures var legs := [CreditLeg(code, amount)] + rest;
            && PositiveDebits(legs) == PositiveDebits(rest)
            && PositiveCredits(legs) == Positive(Round2(amount)) + PositiveCredits(rest)
            && InputNetOn(legs, account) == (if code == account then -Round2(amount) else 0) + InputNetOn(rest, account)
  {
  }

  function CreditLegs(bs: LegacyBalanceSheet): seq<LineInput> {
    [ CreditLeg(AccumulatedDepreciation, bs.assets.accumulatedDepreciation),
      CreditLeg(SupplierPayables, bs.liabilities.supplierPayables),
      CreditLeg(TaxPayable, bs.liabilities.taxPayable),
      CreditLeg(AccruedLiabilities, bs.liabilities.accruedLiabilities),
      CreditLeg(LongTermDebt, LongTermTotal(bs)),
      CreditLeg(OwnerEquity, bs.equity) ]
  }

  lemma LastLegSums(bs: LegacyBalanceSheet, account: GlAccountCode)
    ensures PositiveDebits(CreditLegs(bs)[3..]) == 0
    ensures PositiveCredits(CreditLegs(bs)[3..]) == SumPositive(CreditFigures(bs)[3..])
    ensures InputNetOn(CreditLegs(bs)[3..], account)
            == if account.AccruedLiabilities? || account.LongTermDebt? || account.OwnerEquity?
               then OpeningNet(bs, account) else 0
  {
    var legs: seq<LineInput> := [];
    var figures: seq<int> := [];
    AddCreditLeg(OwnerEquity, bs.equity, legs, account);
    legs, figures := [CreditLeg(OwnerEquity, bs.equity)] + legs, PushFigure(Round2(bs.equity), figures);
    AddCreditLeg(LongTermDebt, LongTermTotal(bs), legs, account);
    legs, figures := [CreditLeg(LongTermDebt, LongTermTotal(bs))] + legs,
      PushFigure(Round2(LongTermTotal(bs)), figures);
    AddCreditLeg(AccruedLiabilities, bs.liabilities.accruedLiabilities, legs, account);
    legs, figures := [CreditLeg(AccruedLiabilities, bs.liabilities.accruedLiabilities)] + legs,
      PushFigure(Round2(bs.liabilities.accruedLiabilities), figures);
    assert legs == CreditLegs(bs)[3..] && figures == CreditFigures(bs)[3..];
  }

  lemma CreditLegSums(bs: LegacyBalanceSheet, account: GlAccountCode)
    ensures PositiveDebits(CreditLegs(bs)) == 0
    ensures PositiveCredits(CreditLegs(bs)) == SumPositive(CreditFigures(bs))
    ensures InputNetOn(CreditLegs(bs), account)
            == if account.Cash? || account.TenderClearing? || account.Inventory? || account.FixedAssets? then 0
               else OpeningNet(bs, account)
  {
    var legs := CreditLegs(bs)[3..];
    var figures := CreditFigures(bs)[3..];
    LastLegSums(bs, account);
    AddCreditLeg(TaxPayable, bs.liabilities.taxPayable, legs, account);
    legs, figures := [CreditLeg(TaxPayable, bs.liabilities.taxPayable)] + legs,
      PushFigure(Round2(bs.liabilities.taxPayable), figures);
    AddCreditLeg(SupplierPayables, bs.liabilities.supplierPayables, legs, account);
    legs, figures := [CreditLeg(SupplierPayables, bs.liabilities.supplierPayables)] + legs,
      PushFigure(Round2(bs.liabilities.supplierPayables), figures);
    AddCreditLeg(AccumulatedDepreciation, bs.assets.accumulatedDepreciation, legs, account);
    legs, figures := [CreditLeg(AccumulatedDepreciation, bs.assets.accumulatedDepreciation)] + legs,
      PushFigure(Round2(bs.assets.accumulatedDepreciation), figures);
    assert legs == CreditLegs(bs) && figures == CreditFigures(bs);
  }

  function PushFigure(x: int, xs: seq<int>): (ys: seq<int>)
    ensures ys == [x] + xs && SumPositive(ys) == Positive(x) + SumPositive(xs)
  {
    assert ([x] + xs)[1..] == xs;
    [x] + xs
  }

  lemma StockLegSums(bs: LegacyBalanceSheet, account: GlAccountCode)
    ensures PositiveDebits(OpeningLegs(bs)[2..]) == SumPositive(DebitFigures(bs)[2..])
    ensures PositiveCredits(OpeningLegs(bs)[2..]) == SumPositive(CreditFigures(bs))
    ensures InputNetOn(OpeningLegs(bs)[2..], account)
            == if account.Cash? || account.TenderClearing? then 0 else OpeningNet(bs, account)
  {
    var legs := CreditLegs(bs);
    var figures: seq<int> := [];
    CreditLegSums(bs, account);
    AddDebitLeg(FixedAssets, bs.assets.fixedAssetsGross, legs, account);
    legs, figures := [DebitLeg(FixedAssets, bs.assets.fixedAssetsGross)] + legs,
      PushFigure(Round2(bs.assets.fixedAssetsGross), figures);
    AddDebitLeg(Inventory, bs.assets.inventoryValue, legs, account);
    legs, figures := [DebitLeg(Inventory, bs.assets.inventoryValue)] + legs,
      PushFigure(Round2(bs.assets.inventoryValue), figures);
    assert legs == OpeningLegs(bs)[2..] && figures == DebitFigures(bs)[2..];
  }

  lemma OpeningLegSums(bs: LegacyBalanceSheet, account: GlAccountCode)
    ensures PositiveDebits(OpeningLegs(bs)) == SumPositive(DebitFigures(bs))
    ensures PositiveCredits(OpeningLegs(bs)) == SumPositive(CreditFigures(bs))
    ensures InputNetOn(OpeningLegs(bs), account) == OpeningNet(bs, account)
  {
    var legs := OpeningLegs(bs)[2..];
    var figures := DebitFigures(bs)[2..];
    StockLegSums(bs, account);
    AddDebitLeg(TenderClearing, bs.assets.tenderClearing, legs, account);
    legs, figures := [DebitLeg(TenderClearing, bs.assets.tenderClearing)] + legs,
      PushFigure(Round2(bs.assets.tenderClearing), figures);
    AddDebitLeg(Cash, bs.assets.cash, legs, account);
    legs, figures := [DebitLeg(Cash, bs.assets.cash)] + legs, PushFigure(Round2(bs.assets.cash), figures);
    assert legs == OpeningLegs(bs) && figures == DebitFigures(bs);
  }

  /** Each leg is made of its figure: the first four are debits, the other six credits. */
  lemma DebitLegsOf(bs: LegacyBalanceSheet)
    ensures forall k :: 0 <= k < 4 ==>
              && IsLeg(OpeningLegs(bs)[k])
              && LegDebit(OpeningLegs(bs)[k]) == DebitFigures(bs)[k] && LegCredit(OpeningLegs(bs)[k]) == 0
  {
  }

  lemma CreditLegsOf(bs: LegacyBalanceSheet)
    ensures forall k :: 0 <= k < 6 ==>
              && IsLeg(CreditLegs(bs)[k])
              && LegCredit(CreditLegs(bs)[k]) == CreditFigures(bs)[k] && LegDebit(CreditLegs(bs)[k]) == 0
  {
  }

  lemma OpeningLegsAreLegs(bs: LegacyBalanceSheet)
    ensures forall k :: 0 <= k < |OpeningLegs(bs)| ==> IsLeg(OpeningLegs(bs)[k])
  {
  }

  // ----- Acceptance, exactly -----

  ghost predicate SomeLegPositive(bs: LegacyBalanceSheet) {
    exists x :: x in DebitFigures(bs) + CreditFigures(bs) && x > 0
  }

  /**
   For any legacy sheet: the opening entry is accepted exactly when some leg is positive and the debit legs with
   the dropped negative ones added back equal the credit legs with theirs.
   */
  lemma OpeningAcceptedIff(bs: LegacyBalanceSheet, branch: int, date: int, key: string, currency: Option<string>)
    requires key != ""
    ensures Accepted(OpeningInput(bs, branch, date, key, currency)) <==>
            && SomeLegPositive(bs)
            && Sum(DebitFigures(bs)) + SumDropped(DebitFigures(bs))
               == Sum(CreditFigures(bs)) + SumDropped(CreditFigures(bs))
  {
    OpeningLegsAreLegs(bs);
    KeptSums(OpeningLegs(bs));
    OpeningLegSums(bs, Cash);
    PositiveIsAllPlusDropped(DebitFigures(bs));
    PositiveIsAllPlusDropped(CreditFigures(bs));
    var d, c := DebitFigures(bs), CreditFigures(bs);
    assert forall x :: x in d + c <==> x in d || x in c;
    assert SomeLegPositive(bs) <==> SumPositive(d) > 0 || SumPositive(c) > 0;
  }

  /** The sheet's own identity, on the rounded figures: gross assets equal depreciation, liabilities and equity. */
  predicate SheetBalances(bs: LegacyBalanceSheet) {
    Sum(DebitFigures(bs)) == Sum(CreditFigures(bs))
  }

  /** For a sheet that balances: accepted exactly when the dropped debit legs equal the dropped credit legs. */
  lemma BalancedSheetAcceptedIff(bs: LegacyBalanceSheet, branch: int, date: int, key: string, currency: Option<string>)
    requires key != "" && SheetBalances(bs)
    ensures Accepted(OpeningInput(bs, branch, date, key, currency)) <==>
            SomeLegPositive(bs) && SumDropped(DebitFigures(bs)) == SumDropped(CreditFigures(bs))
  {
    OpeningAcceptedIff(bs, branch, date, key, currency);
  }

  lemma {:induction false} DroppedIsZeroIff(xs: seq<int>)
    ensures SumDropped(xs) == 0 <==> forall x :: x in xs ==> x >= 0
  {
    if xs != [] {
      DroppedIsZeroIff(xs[1..]);
      assert xs[0] in xs;
      if x :| x in xs && x < 0 {
        assert x == xs[0] || x in xs[1..];
      }
      if x :| x in xs[1..] && x < 0 {
        assert x in xs;
      }
    }
  }

  /** A balanced sheet whose negative legs are all on one side is refused; so one negative leg is always refused. */
  lemma OneSidedNegativeIsRefused(bs: LegacyBalanceSheet, branch: int, date: int, key: string, currency: Option<string>)
    requires SheetBalances(bs)
    requires (exists x :: x in DebitFigures(bs) && x < 0) != (exists x :: x in CreditFigures(bs) && x < 0)
    ensures !Accepted(OpeningInput(bs, branch, date, key, currency))
  {
    if key != "" {
      BalancedSheetAcceptedIff(bs, branch, date, key, currency);
      DroppedIsZeroIff(DebitFigures(bs));
      DroppedIsZeroIff(CreditFigures(bs));
    }
  }

  /** A branch that owes more than it has: inventory at 100, suppliers owed 300, equity at minus 200. */
  function Insolvent(): LegacyBalanceSheet {
    LegacyBalanceSheet(
      LegacyAssets(0.0, 0.0, 100.0, 0.0, 0.0, 0.0), LegacyLiabilities(300.0, 0.0, 0.0, 0.0, 0.0), -200.0)
  }

  lemma InsolventFigures()
    ensures DebitFigures(Insolvent()) == [0, 0, 100, 0]
    ensures CreditFigures(Insolvent()) == [0, 300, 0, 0, 0, -200]
  {
    RoundCents(-200);
    RoundCents(0);
    RoundCents(100);
    RoundCents(300);
  }

  /** Its equity leg is dropped, nothing is plugged for it, and the ledger refuses the entry. */
  lemma InsolventSheetIsRefused(branch: int, date: int, key: string, currency: Option<string>)
    ensures SheetBalances(Insolvent())
    ensures forall line :: line in BuildOpeningBalanceLines(Insolvent()) ==> line.accountCode != OwnerEquity
    ensures !Accepted(OpeningInput(Insolvent(), branch, date, key, currency))
  {
    var bs := Insolvent();
    InsolventFigures();
    SumOfFour(0, 0, 100, 0);
    SumOfSix(0, 300, 0, 0, 0, -200);
    assert -200 in CreditFigures(bs);
    assert forall x :: x in DebitFigures(bs) ==> x == 0 || x == 100;
    OneSidedNegativeIsRefused(bs, branch, date, key, currency);
    NegativeEquityIsDropped(bs);
  }

  lemma NegativeEquityIsDropped(bs: LegacyBalanceSheet)
    requires Round2(bs.equity) <= 0
    ensures forall line :: line in BuildOpeningBalanceLines(bs) ==> line.accountCode != OwnerEquity
  {
    KeptArePositive(OpeningLegs(bs), OwnerEquity);
  }

  /** An account whose legs are not positive has no line in the opening entry. */
  lemma {:induction false} KeptArePositive(legs: seq<LineInput>, code: GlAccountCode)
    requires forall leg :: leg in legs && leg.accountCode == code ==>
               Amount(leg.debit) <= 0.0 && Amount(leg.credit) <= 0.0
    ensures forall line :: line in KeepPositive(legs) ==> line.accountCode != code
  {
    if legs != [] {
      assert legs[0] in legs && forall leg :: leg in legs[1..] ==> leg in legs;
      KeptArePositive(legs[1..], code);
    }
  }

  // ----- The books after posting -----

  ghost predicate NonNegative(bs: LegacyBalanceSheet) {
    forall x :: x in DebitFigures(bs) + CreditFigures(bs) ==> x >= 0
  }

  lemma {:induction false} KeptNetOn(legs: seq<LineInput>, code: GlAccountCode)
    requires forall k :: 0 <= k < |legs| ==> IsLeg(legs[k]) && LegDebit(legs[k]) >= 0 && LegCredit(legs[k]) >= 0
    ensures InputNetOn(KeepPositive(legs), code) == InputNetOn(legs, code)
  {
    if legs != [] {
      KeptNetOn(legs[1..], code);
      LegAmounts(legs[0]);
      var rest := KeepPositive(legs[1..]);
      assert ([legs[0]] + rest)[1..] == rest;
    }
  }

  lemma NonNegativeLegs(bs: LegacyBalanceSheet)
    requires NonNegative(bs)
    ensures forall k :: 0 <= k < |OpeningLegs(bs)| ==>
              IsLeg(OpeningLegs(bs)[k]) && LegDebit(OpeningLegs(bs)[k]) >= 0 && LegCredit(OpeningLegs(bs)[k]) >= 0
  {
    DebitLegsOf(bs);
    CreditLegsOf(bs);
    assert OpeningLegs(bs) == OpeningLegs(bs)[..4] + CreditLegs(bs);
    var d, c := DebitFigures(bs), CreditFigures(bs);
    assert forall k :: 0 <= k < 4 ==> d[k] in d + c;
    assert forall k :: 0 <= k < 6 ==> c[k] in d + c;
  }

  /** What the balance of an account should open at. */
  function OpeningFigure(bs: LegacyBalanceSheet, code: GlAccountCode): int {
    if CreditNormal(code) then -OpeningNet(bs, code) else OpeningNet(bs, code)
  }

  /** A branch whose books are still empty. */
  ghost predicate NoLines(ledger: Books, branch: int) {
    forall k :: 0 <= k < |ledger.lines| ==> ledger.lines[k].branchId != branch
  }

  lemma OpeningIsAccepted(bs: LegacyBalanceSheet, branch: int, date: int, key: string, currency: Option<string>)
    requires key != "" && SheetBalances(bs) && NonNegative(bs) && SomeLegPositive(bs)
    ensures Accepted(OpeningInput(bs, branch, date, key, currency))
  {
    BalancedSheetAcceptedIff(bs, branch, date, key, currency);
    var d, c := DebitFigures(bs), CreditFigures(bs);
    assert forall x :: x in d ==> x in d + c;
    assert forall x :: x in c ==> x in d + c;
    DroppedIsZeroIff(d);
    DroppedIsZeroIff(c);
  }

  lemma KeptOpeningNet(bs: LegacyBalanceSheet, code: GlAccountCode)
    requires NonNegative(bs)
    ensures InputNetOn(BuildOpeningBalanceLines(bs), code) == OpeningNet(bs, code)
  {
    NonNegativeLegs(bs);
    KeptNetOn(OpeningLegs(bs), code);
    OpeningLegSums(bs, code);
  }

  /**
   A non-negative, non-zero sheet that balances, posted to an empty branch: every account, in every window
   holding the opening date, has the legacy figure, and an account the sheet does not mention has zero.
   */
  lemma OpeningReproducesTheBooks(
    ledger: Books, bs: LegacyBalanceSheet, branch: int, date: int, key: string, currency: Option<string>,
    code: GlAccountCode, range: BalanceRange)
    requires Valid(ledger) && NoLines(ledger, branch) && FindByKey(ledger.entries, branch, key) == None
    requires key != "" && SheetBalances(bs) && NonNegative(bs) && SomeLegPositive(bs)
    requires !code.Unknown? && range.Contains(date)
    ensures Balance(Post(ledger, OpeningInput(bs, branch, date, key, currency)).0, branch, code, range)
            == OpeningFigure(bs, code)
  {
    var input := OpeningInput(bs, branch, date, key, currency);
    OpeningIsAccepted(bs, branch, date, key, currency);
    PostMovesBalance(ledger, input, branch, code, range);
    SelectNone(ledger.lines, ByAccount(branch, code, range));
    KeptOpeningNet(bs, code);
    SignedFigure(bs, code);
  }

  lemma SignedFigure(bs: LegacyBalanceSheet, code: GlAccountCode)
    requires !code.Unknown?
    ensures OpeningNet(bs, code) * NormalBalanceSign(code) == OpeningFigure(bs, code)
  {
    SignOf(code);
    OneOf(OpeningNet(bs, code), NormalBalanceSign(code));
  }

  lemma OneOf(x: int, sign: int)
    ensures sign == 1 ==> x * sign == x
    ensures sign == -1 ==> x * sign == -x
  {
  }
}
