/** The chart of accounts: the seed table and the lookups over it. */
module ChartOfAccounts {
  import opened Outcomes

  /** The chart's account codes; `Unknown` stands for every other string. */
  datatype GlAccountCode =
    | Cash | TenderClearing | AccountsReceivable | Inventory
    | FixedAssets | AccumulatedDepreciation | SupplierPayables | TaxPayable
    | TipsPayable | CustomerDeposits | DeferredRevenue | AccruedLiabilities
    | LongTermDebt | OwnerEquity | ServiceRevenue | RentalRevenue
    | Cogs | CostOfServices | ExpenseRent | ExpenseUtilities
    | ExpensePayroll | ExpenseSupplies | ExpenseMarketing | ExpenseMaintenance
    | ExpenseTaxes | ExpenseDepreciation | ExpenseInterest | ExpenseOther
    | Unknown(text: string)

  datatype GlAccountType = Asset | Liability | Equity | Revenue | Expense

  datatype GlNormalBalance = Debit | Credit

  datatype GlAccountSeed = GlAccountSeed(
    code: GlAccountCode, kind: GlAccountType, normalBalance: GlNormalBalance,
    isCurrent: Option<bool>, contra: bool)

  /** The row of the seed table for a code; nothing for a code outside the chart. */
  function GetGlAccountMeta(code: GlAccountCode): (meta: Option<GlAccountSeed>)
    ensures meta.Some? <==> !code.Unknown?
    ensures meta.Some? ==> meta.value.code == code && Disciplined(meta.value)
  {
    match code
    case Cash => Some(GlAccountSeed(Cash, Asset, Debit, Some(true), false))
    case TenderClearing => Some(GlAccountSeed(TenderClearing, Asset, Debit, Some(true), false))
    case AccountsReceivable => Some(GlAccountSeed(AccountsReceivable, Asset, Debit, Some(true), false))
    case Inventory => Some(GlAccountSeed(Inventory, Asset, Debit, Some(true), false))
    case FixedAssets => Some(GlAccountSeed(FixedAssets, Asset, Debit, Some(false), false))
    case AccumulatedDepreciation => Some(GlAccountSeed(AccumulatedDepreciation, Asset, Credit, Some(false), true))
    case SupplierPayables => Some(GlAccountSeed(SupplierPayables, Liability, Credit, Some(true), false))
    case TaxPayable => Some(GlAccountSeed(TaxPayable, Liability, Credit, Some(true), false))
    case TipsPayable => Some(GlAccountSeed(TipsPayable, Liability, Credit, Some(true), false))
    case CustomerDeposits => Some(GlAccountSeed(CustomerDeposits, Liability, Credit, Some(true), false))
    case DeferredRevenue => Some(GlAccountSeed(DeferredRevenue, Liability, Credit, Some(true), false))
    case AccruedLiabilities => Some(GlAccountSeed(AccruedLiabilities, Liability, Credit, None, false))
    case LongTermDebt => Some(GlAccountSeed(LongTermDebt, Liability, Credit, None, false))
    case OwnerEquity => Some(GlAccountSeed(OwnerEquity, Equity, Credit, None, false))
    case ServiceRevenue => Some(GlAccountSeed(ServiceRevenue, Revenue, Credit, None, false))
    case RentalRevenue => Some(GlAccountSeed(RentalRevenue, Revenue, Credit, None, false))
    case Cogs => Some(GlAccountSeed(Cogs, Expense, Debit, None, false))
    case CostOfServices => Some(GlAccountSeed(CostOfServices, Expense, Debit, None, false))
    case ExpenseRent => Some(GlAccountSeed(ExpenseRent, Expense, Debit, None, false))
    case ExpenseUtilities => Some(GlAccountSeed(ExpenseUtilities, Expense, Debit, None, false))
    case ExpensePayroll => Some(GlAccountSeed(ExpensePayroll, Expense, Debit, None, false))
    case ExpenseSupplies => Some(GlAccountSeed(ExpenseSupplies, Expense, Debit, None, false))
    case ExpenseMarketing => Some(GlAccountSeed(ExpenseMarketing, Expense, Debit, None, false))
    case ExpenseMaintenance => Some(GlAccountSeed(ExpenseMaintenance, Expense, Debit, None, false))
    case ExpenseTaxes => Some(GlAccountSeed(ExpenseTaxes, Expense, Debit, None, false))
    case ExpenseDepreciation => Some(GlAccountSeed(ExpenseDepreciation, Expense, Debit, None, false))
    case ExpenseInterest => Some(GlAccountSeed(ExpenseInterest, Expense, Debit, None, false))
    case ExpenseOther => Some(GlAccountSeed(ExpenseOther, Expense, Debit, None, false))
    case Unknown(_) => None
  }

  /** The codes in the order of the seed table. */
  const ACCOUNT_CODES: seq<GlAccountCode> := [
    Cash, TenderClearing, AccountsReceivable, Inventory,
    FixedAssets, AccumulatedDepreciation, SupplierPayables, TaxPayable,
    TipsPayable, CustomerDeposits, DeferredRevenue, AccruedLiabilities,
    LongTermDebt, OwnerEquity, ServiceRevenue, RentalRevenue,
    Cogs, CostOfServices, ExpenseRent, ExpenseUtilities,
    ExpensePayroll, ExpenseSupplies, ExpenseMarketing, ExpenseMaintenance,
    ExpenseTaxes, ExpenseDepreciation, ExpenseInterest, ExpenseOther
  ]

  const GL_ACCOUNT_SEED: seq<GlAccountSeed> :=
    seq(28, i requires 0 <= i < 28 => GetGlAccountMeta(ACCOUNT_CODES[i]).value)

  predicate IsGlAccountCode(code: GlAccountCode) {
    GetGlAccountMeta(code).Some?
  }

  function NormalBalanceSign(code: GlAccountCode): int {
    var meta := GetGlAccountMeta(code);
    if meta.Some? && meta.value.normalBalance == Credit then -1 else 1
  }

  // ----- What the rest of the model needs from the table -----

  predicate CreditSide(kind: GlAccountType) {
    kind == Liability || kind == Equity || kind == Revenue
  }

  /** An account is credit-normal exactly when its type or, exclusively, its contra flag says so. */
  predicate Disciplined(account: GlAccountSeed) {
    (account.normalBalance == Credit <==> CreditSide(account.kind) != account.contra)
    && (account.contra ==> account.kind == Asset)
  }

  ghost predicate DistinctCodes(seed: seq<GlAccountSeed>) {
    forall i, j :: 0 <= i < j < |seed| ==> seed[i].code != seed[j].code
  }

  /** The row of a chart code in the seed table. */
  function Row(code: GlAccountCode): nat {
    match code
    case Cash => 0
    case TenderClearing => 1
    case AccountsReceivable => 2
    case Inventory => 3
    case FixedAssets => 4
    case AccumulatedDepreciation => 5
    case SupplierPayables => 6
    case TaxPayable => 7
    case TipsPayable => 8
    case CustomerDeposits => 9
    case DeferredRevenue => 10
    case AccruedLiabilities => 11
    case LongTermDebt => 12
    case OwnerEquity => 13
    case ServiceRevenue => 14
    case RentalRevenue => 15
    case Cogs => 16
    case CostOfServices => 17
    case ExpenseRent => 18
    case ExpenseUtilities => 19
    case ExpensePayroll => 20
    case ExpenseSupplies => 21
    case ExpenseMarketing => 22
    case ExpenseMaintenance => 23
    case ExpenseTaxes => 24
    case ExpenseDepreciation => 25
    case ExpenseInterest => 26
    case ExpenseOther => 27
    case Unknown(_) => 28
  }

  lemma CodesInOrder()
    ensures |ACCOUNT_CODES| == 28
    ensures forall i :: 0 <= i < 28 ==> Row(ACCOUNT_CODES[i]) == i
  {
  }

  /** The seed lists 28 distinct accounts, and each obeys the sign discipline. */
  lemma SeedIsDisciplined()
    ensures |GL_ACCOUNT_SEED| == 28
    ensures forall i :: 0 <= i < 28 ==>
              Row(GL_ACCOUNT_SEED[i].code) == i && !GL_ACCOUNT_SEED[i].code.Unknown? && Disciplined(GL_ACCOUNT_SEED[i])
    ensures DistinctCodes(GL_ACCOUNT_SEED)
  {
    CodesInOrder();
    forall i | 0 <= i < 28
      ensures Row(GL_ACCOUNT_SEED[i].code) == i && !GL_ACCOUNT_SEED[i].code.Unknown? && Disciplined(GL_ACCOUNT_SEED[i])
    {
      assert GL_ACCOUNT_SEED[i].code == ACCOUNT_CODES[i];
    }
  }

  lemma SeedAt(code: GlAccountCode)
    requires !code.Unknown?
    ensures Row(code) < |GL_ACCOUNT_SEED| && GL_ACCOUNT_SEED[Row(code)].code == code
  {
    SeedIsDisciplined();
    RowIsInjective(GL_ACCOUNT_SEED[Row(code)].code, code);
  }

  lemma RowIsInjective(a: GlAccountCode, b: GlAccountCode)
    requires !a.Unknown? && !b.Unknown? && Row(a) == Row(b)
    ensures a == b
  {
  }

  /** The lookup knows exactly the enumerated codes, and the seed holds each code's row exactly once. */
  lemma LookupIsExact(code: GlAccountCode)
    ensures IsGlAccountCode(code) <==> !code.Unknown?
    ensures IsGlAccountCode(code) <==> exists i :: 0 <= i < |GL_ACCOUNT_SEED| && GL_ACCOUNT_SEED[i].code == code
    ensures forall i :: 0 <= i < |GL_ACCOUNT_SEED| && GL_ACCOUNT_SEED[i].code == code ==>
              GetGlAccountMeta(code) == Some(GL_ACCOUNT_SEED[i])
  {
    SeedIsDisciplined();
    if IsGlAccountCode(code) {
      SeedAt(code);
    }
    forall i | 0 <= i < |GL_ACCOUNT_SEED| && GL_ACCOUNT_SEED[i].code == code
      ensures GetGlAccountMeta(code) == Some(GL_ACCOUNT_SEED[i])
    {
      SeedRowIsMeta(i);
    }
  }

  lemma SeedRowIsMeta(i: nat)
    requires i < |GL_ACCOUNT_SEED|
    ensures GetGlAccountMeta(GL_ACCOUNT_SEED[i].code) == Some(GL_ACCOUNT_SEED[i])
  {
  }

  lemma SignDiscipline(i: nat)
    requires i < |GL_ACCOUNT_SEED|
    ensures var account := GL_ACCOUNT_SEED[i];
            NormalBalanceSign(account.code) == if CreditSide(account.kind) != account.contra then -1 else 1
  {
  }
}
