/**
 Checkouts and voids over a whole run. A checkout is posted under its ledger key; voiding it reverses the entry found
 under that key. The ledger after any run is the one before it and a book of the sales: each checkout counted once,
 when it was sold, and taken off once, when it was voided.
 */
module CheckoutRuns {
  import opened Outcomes
  import opened Money
  import opened ChartOfAccounts
  import opened Journal
  import opened Ledger
  import opened LedgerInvariant
  import opened Posting
  import opened Reversal
  import opened PosCheckout
  import Service = GeneralLedgerService

  datatype CheckoutOp = Sell(checkout: Checkout) | Void(checkout: Checkout, voidedAt: int)

  const VOID_PREFIX := "void-"

  function VoidKey(key: string): string {
    VOID_PREFIX + key
  }

  function PostCheckout(ledger: Books, c: Checkout): Books {
    if EntryOf(c).None? then ledger else Post(ledger, EntryOf(c).value).0
  }

  function VoidCheckout(ledger: Books, c: Checkout, voidedAt: int): Books {
    var entry := FindByKey(ledger.entries, c.branchId, c.LedgerKey());
    if entry.None? then ledger
    else Reverse(ledger, ReverseInput(entry.value.id, VoidKey(c.LedgerKey()), voidedAt)).0
  }

  /** The ledger's part of voiding a checkout. */
  method VoidInLedger(ledger: Service.GeneralLedgerService, c: Checkout, voidedAt: int)
    requires Valid(ledger.State())
    modifies ledger
    ensures Valid(ledger.State()) && ledger.State() == VoidCheckout(old(ledger.State()), c, voidedAt)
  {
    var entry := ledger.FindEntryByIdempotencyKey(c.branchId, c.LedgerKey());
    if entry.Some? {
      var _ := ledger.Reverse(ReverseInput(entry.value.id, VoidKey(c.LedgerKey()), voidedAt));
    }
  }

  function CheckoutStep(ledger: Books, op: CheckoutOp): Books {
    match op
    case Sell(c) => PostCheckout(ledger, c)
    case Void(c, voidedAt) => VoidCheckout(ledger, c, voidedAt)
  }

  function CheckoutRun(ledger: Books, ops: seq<CheckoutOp>): Books {
    if ops == [] then ledger else CheckoutStep(CheckoutRun(ledger, ops[..|ops| - 1]), ops[|ops| - 1])
  }

  // ----- The book of sales -----

  datatype Sale = Sale(input: PostInput, voidedAt: Option<int>) {
    predicate Has(branch: int, key: string) {
      input.branchId == branch && input.idempotencyKey == key
    }
  }

  predicate Sold(sales: seq<Sale>, branch: int, key: string) {
    exists i :: 0 <= i < |sales| && sales[i].Has(branch, key)
  }

  /** A sale that is not voided yet is. */
  function Strike(sales: seq<Sale>, branch: int, key: string, voidedAt: int): (struck: seq<Sale>)
    ensures |struck| == |sales|
  {
    seq(|sales|, i requires 0 <= i < |sales| =>
      if sales[i].Has(branch, key) && sales[i].voidedAt.None? then sales[i].(voidedAt := Some(voidedAt)) else sales[i])
  }

  function Enter(sales: seq<Sale>, op: CheckoutOp): seq<Sale> {
    match op
    case Sell(c) =>
      if IsPosted(c) && !Sold(sales, c.branchId, c.LedgerKey()) then sales + [Sale(EntryOf(c).value, None)] else sales
    case Void(c, voidedAt) => Strike(sales, c.branchId, c.LedgerKey(), voidedAt)
  }

  function Sales(ops: seq<CheckoutOp>): seq<Sale> {
    if ops == [] then [] else Enter(Sales(ops[..|ops| - 1]), ops[|ops| - 1])
  }

  /** What a sale is worth to a balance: its own net when sold in the window, taken off again when voided in it. */
  function Worth(sale: Sale, branch: int, code: GlAccountCode, range: BalanceRange): int {
    var net := InputNetOn(sale.input.lines, code) * NormalBalanceSign(code);
    if sale.input.branchId != branch then 0
    else (if range.Contains(sale.input.occurredAt) then net else 0)
         - (if sale.voidedAt.Some? && range.Contains(sale.voidedAt.value) then net else 0)
  }

  function Takings(sales: seq<Sale>, branch: int, code: GlAccountCode, range: BalanceRange): int {
    if sales == [] then 0
    else Takings(sales[..|sales| - 1], branch, code, range) + Worth(sales[|sales| - 1], branch, code, range)
  }

  // ----- The ledger keeps the book -----

  predicate CheckoutKey(key: string) {
    CHECKOUT_PREFIX <= key
  }

  ghost predicate EffectIs(ledger: Books, id: nat, lines: seq<LineInput>) {
    forall code :: Effect(ledger, id, code) == InputNetOn(lines, code) * NormalBalanceSign(code)
  }

  /** The sale is found under its key with its own effect, and under its void key exactly when it is voided. */
  ghost predicate Kept(ledger: Books, sale: Sale) {
    var (branch, key) := (sale.input.branchId, sale.input.idempotencyKey);
    var found := FindByKey(ledger.entries, branch, key);
    && CheckoutKey(key) && found.Some? && found.value.id < ledger.nextEntryId
    && EffectIs(ledger, found.value.id, sale.input.lines)
    && (FindByKey(ledger.entries, branch, VoidKey(key)).Some? <==> sale.voidedAt.Some?)
  }

  ghost predicate NothingElse(entries: seq<Entry>, sales: seq<Sale>) {
    forall branch, key :: CheckoutKey(key) && !Sold(sales, branch, key) ==>
      FindByKey(entries, branch, key) == None && FindByKey(entries, branch, VoidKey(key)) == None
  }

  ghost predicate KeepsBook(ledger: Books, sales: seq<Sale>) {
    && Valid(ledger)
    && (forall i :: 0 <= i < |sales| ==> Kept(ledger, sales[i]))
    && (forall i, j :: 0 <= i < j < |sales| ==> !sales[j].Has(sales[i].input.branchId, sales[i].input.idempotencyKey))
    && NothingElse(ledger.entries, sales)
  }

  lemma KeyIsCheckoutKey(c: Checkout)
    ensures CheckoutKey(c.LedgerKey())
  {
  }

  lemma VoidKeysAreApart(key: string, other: string)
    ensures !CheckoutKey(VoidKey(key))
    ensures VoidKey(key) == VoidKey(other) ==> key == other
  {
    assert VoidKey(key)[0] == 'v' && CHECKOUT_PREFIX[0] == 'p';
    assert VoidKey(key)[|VOID_PREFIX|..] == key && VoidKey(other)[|VOID_PREFIX|..] == other;
  }

  /** An entry that is there keeps its lines through any later call. */
  lemma StepKeepsLinesOf(ledger: Books, op: Op, id: nat)
    requires Valid(ledger) && id < ledger.nextEntryId
    ensures LinesOf(Step(ledger, op).lines, id) == LinesOf(ledger.lines, id)
  {
    match op
    case PostOp(input) =>
      if Accepted(input) && FindByKey(ledger.entries, input.branchId, input.idempotencyKey) == None {
        var entry := NewEntry(input, ledger.nextEntryId);
        StoredLinesBlock(input.lines, entry);
        InsertLines(ledger, entry, StoredLines(input.lines, entry), id);
      }
    case ReverseOp(opts) =>
      if Fresh(ledger, opts) {
        var i := FoundAt(ledger.entries, opts.entryId);
        var reversal := ReversalOf(ledger.entries[i], opts, ledger.nextEntryId);
        var block := Swapped(LinesOf(ledger.lines, opts.entryId), reversal.id, opts.occurredAt);
        SwappedBlock(ledger, i, reversal);
        InsertLines(ledger, reversal, block, id);
      }
  }

  lemma StepKeepsEffect(ledger: Books, op: Op, id: nat, lines: seq<LineInput>)
    requires Valid(ledger) && id < ledger.nextEntryId && EffectIs(ledger, id, lines)
    ensures EffectIs(Step(ledger, op), id, lines)
  {
    StepKeepsLinesOf(ledger, op, id);
    forall code
      ensures Effect(Step(ledger, op), id, code) == InputNetOn(lines, code) * NormalBalanceSign(code)
    {
      assert Effect(ledger, id, code) == InputNetOn(lines, code) * NormalBalanceSign(code);
    }
  }

  lemma PostedEffectIs(ledger: Books, input: PostInput)
    requires Valid(ledger) && Accepted(input)
    requires FindByKey(ledger.entries, input.branchId, input.idempotencyKey) == None
    ensures EffectIs(Post(ledger, input).0, ledger.nextEntryId, input.lines)
  {
    forall code
      ensures Effect(Post(ledger, input).0, ledger.nextEntryId, code)
              == InputNetOn(input.lines, code) * NormalBalanceSign(code)
    {
      PostedEffect(ledger, input, code);
    }
  }

  /** In step with the book, a key is found exactly when it is sold. */
  lemma FoundIffSold(ledger: Books, sales: seq<Sale>, branch: int, key: string)
    requires KeepsBook(ledger, sales) && CheckoutKey(key)
    ensures FindByKey(ledger.entries, branch, key).Some? <==> Sold(sales, branch, key)
  {
    if Sold(sales, branch, key) {
      var i :| 0 <= i < |sales| && sales[i].Has(branch, key);
      assert Kept(ledger, sales[i]);
    }
  }

  // ----- Selling -----

  lemma SellOpensSale(ledger: Books, sales: seq<Sale>, c: Checkout)
    requires KeepsBook(ledger, sales) && IsPosted(c) && !Sold(sales, c.branchId, c.LedgerKey())
    ensures Kept(PostCheckout(ledger, c), Sale(EntryOf(c).value, None))
  {
    var input := EntryOf(c).value;
    var entry := NewEntry(input, ledger.nextEntryId);
    KeyIsCheckoutKey(c);
    VoidKeysAreApart(c.LedgerKey(), c.LedgerKey());
    PostedEffectIs(ledger, input);
    FindAppend(ledger.entries, entry, c.branchId, c.LedgerKey(), 0);
    FindAppend(ledger.entries, entry, c.branchId, VoidKey(c.LedgerKey()), 0);
  }

  lemma SellKeepsOther(ledger: Books, c: Checkout, sale: Sale)
    requires Valid(ledger) && Kept(ledger, sale)
    ensures Kept(PostCheckout(ledger, c), sale)
  {
    if EntryOf(c).Some? {
      var input := EntryOf(c).value;
      var (branch, key) := (sale.input.branchId, sale.input.idempotencyKey);
      KeyIsCheckoutKey(c);
      VoidKeysAreApart(key, key);
      StepKeepsEffect(ledger, PostOp(input), FindByKey(ledger.entries, branch, key).value.id, sale.input.lines);
      FindAppend(ledger.entries, NewEntry(input, ledger.nextEntryId), branch, key, 0);
      FindAppend(ledger.entries, NewEntry(input, ledger.nextEntryId), branch, VoidKey(key), 0);
    }
  }

  lemma SellKeepsRest(ledger: Books, sales: seq<Sale>, c: Checkout)
    requires KeepsBook(ledger, sales)
    ensures NothingElse(PostCheckout(ledger, c).entries, Enter(sales, Sell(c)))
  {
    var (next, entered) := (PostCheckout(ledger, c), Enter(sales, Sell(c)));
    KeyIsCheckoutKey(c);
    FoundIffSold(ledger, sales, c.branchId, c.LedgerKey());
    forall branch, key | CheckoutKey(key) && !Sold(entered, branch, key)
      ensures FindByKey(next.entries, branch, key) == None && FindByKey(next.entries, branch, VoidKey(key)) == None
    {
      NotSoldBefore(sales, entered, branch, key);
      if EntryOf(c).Some? {
        VoidKeysAreApart(key, key);
        FindAppend(ledger.entries, NewEntry(EntryOf(c).value, ledger.nextEntryId), branch, key, 0);
        FindAppend(ledger.entries, NewEntry(EntryOf(c).value, ledger.nextEntryId), branch, VoidKey(key), 0);
        if IsPosted(c) && !Sold(sales, c.branchId, c.LedgerKey()) {
          assert entered[|sales|].Has(c.branchId, c.LedgerKey());
        }
      }
    }
  }

  lemma NotSoldBefore(sales: seq<Sale>, more: seq<Sale>, branch: int, key: string)
    requires sales <= more && !Sold(more, branch, key)
    ensures !Sold(sales, branch, key)
  {
    forall i | 0 <= i < |sales|
      ensures !sales[i].Has(branch, key)
    {
      assert !more[i].Has(branch, key);
    }
  }

  lemma SellKeepsBook(ledger: Books, sales: seq<Sale>, c: Checkout)
    requires KeepsBook(ledger, sales)
    ensures KeepsBook(PostCheckout(ledger, c), Enter(sales, Sell(c)))
  {
    var entered := Enter(sales, Sell(c));
    SellKeepsRest(ledger, sales, c);
    if EntryOf(c).Some? {
      PostKeepsValid(ledger, EntryOf(c).value);
    }
    forall i | 0 <= i < |entered|
      ensures Kept(PostCheckout(ledger, c), entered[i])
    {
      if i < |sales| {
        SellKeepsOther(ledger, c, sales[i]);
      } else {
        SellOpensSale(ledger, sales, c);
      }
    }
  }

  lemma SellMovesTakings(
    ledger: Books, sales: seq<Sale>, c: Checkout, branch: int, code: GlAccountCode, range: BalanceRange)
    requires KeepsBook(ledger, sales)
    ensures Balance(PostCheckout(ledger, c), branch, code, range) - Balance(ledger, branch, code, range)
            == Takings(Enter(sales, Sell(c)), branch, code, range) - Takings(sales, branch, code, range)
  {
    KeyIsCheckoutKey(c);
    FoundIffSold(ledger, sales, c.branchId, c.LedgerKey());
    if IsPosted(c) && !Sold(sales, c.branchId, c.LedgerKey()) {
      PostMovesBalance(ledger, EntryOf(c).value, branch, code, range);
      assert Enter(sales, Sell(c))[..|sales|] == sales;
    }
  }

  // ----- Voiding -----

  /** What is found under a key is in the key's branch, and is found by its id. */
  lemma FoundById(ledger: Books, branch: int, key: string)
    requires Valid(ledger) && FindByKey(ledger.entries, branch, key).Some?
    ensures var found := FindByKey(ledger.entries, branch, key);
            found.value.branchId == branch && FindById(ledger.entries, found.value.id) == found
  {
    FindByKeySound(ledger.entries, branch, key);
    var i :| 0 <= i < |ledger.entries| && ledger.entries[i] == FindByKey(ledger.entries, branch, key).value;
    FindEntry(ledger.entries, ledger.nextEntryId, i);
  }

  /** A reversal leaves every key as it was, with its id, but for its own. */
  lemma LookupAfterVoid(ledger: Books, opts: ReverseInput, branch: int, key: string)
    requires Valid(ledger) && Fresh(ledger, opts)
    ensures var (before, after) := (FindByKey(ledger.entries, branch, key),
                                    FindByKey(Reverse(ledger, opts).0.entries, branch, key));
            var original := FindById(ledger.entries, opts.entryId).value;
            && (before.Some? ==> after.Some? && after.value.id == before.value.id)
            && (before.None? ==> (after.Some? <==> branch == original.branchId && key == opts.idempotencyKey))
  {
    var reversal := Reverse(ledger, opts).1.value;
    FindAppend(ledger.entries, reversal, branch, key, 0);
    FindMarked(ledger.entries + [reversal], opts.entryId, reversal.id, branch, key, 0);
  }

  /** The sale under a key is the only one struck. */
  lemma StrikesOne(sales: seq<Sale>, i: nat, branch: int, key: string, voidedAt: int)
    requires i < |sales| && sales[i].Has(branch, key)
    requires forall a, b :: 0 <= a < b < |sales| ==>
               !sales[b].Has(sales[a].input.branchId, sales[a].input.idempotencyKey)
    ensures Strike(sales, branch, key, voidedAt)
            == if sales[i].voidedAt.None? then sales[i := sales[i].(voidedAt := Some(voidedAt))] else sales
  {
    forall k | 0 <= k < |sales| && k != i
      ensures !sales[k].Has(branch, key)
    {
      if k < i {
        assert !sales[i].Has(sales[k].input.branchId, sales[k].input.idempotencyKey);
      }
    }
  }

  lemma VoidKeepsOther(ledger: Books, opts: ReverseInput, sale: Sale)
    requires Valid(ledger) && Fresh(ledger, opts) && Kept(ledger, sale)
    requires !CheckoutKey(opts.idempotencyKey)
    requires var branch := FindById(ledger.entries, opts.entryId).value.branchId;
             !(sale.input.branchId == branch && VoidKey(sale.input.idempotencyKey) == opts.idempotencyKey)
    ensures Kept(Reverse(ledger, opts).0, sale)
  {
    var (branch, key) := (sale.input.branchId, sale.input.idempotencyKey);
    LookupAfterVoid(ledger, opts, branch, key);
    LookupAfterVoid(ledger, opts, branch, VoidKey(key));
    StepKeepsEffect(ledger, ReverseOp(opts), FindByKey(ledger.entries, branch, key).value.id, sale.input.lines);
  }

  lemma VoidMarksOwn(ledger: Books, sale: Sale, voidedAt: int)
    requires Valid(ledger) && Kept(ledger, sale) && sale.voidedAt.None?
    ensures var (branch, key) := (sale.input.branchId, sale.input.idempotencyKey);
            var opts := ReverseInput(FindByKey(ledger.entries, branch, key).value.id, VoidKey(key), voidedAt);
            Fresh(ledger, opts) && Kept(Reverse(ledger, opts).0, sale.(voidedAt := Some(voidedAt)))
  {
    var (branch, key) := (sale.input.branchId, sale.input.idempotencyKey);
    var id := FindByKey(ledger.entries, branch, key).value.id;
    var opts := ReverseInput(id, VoidKey(key), voidedAt);
    FoundById(ledger, branch, key);
    LookupAfterVoid(ledger, opts, branch, key);
    LookupAfterVoid(ledger, opts, branch, VoidKey(key));
    StepKeepsEffect(ledger, ReverseOp(opts), id, sale.input.lines);
  }

  lemma {:induction false} TakingsUpdate(
    sales: seq<Sale>, i: nat, sale: Sale, branch: int, code: GlAccountCode, range: BalanceRange)
    requires i < |sales|
    ensures Takings(sales[i := sale], branch, code, range)
            == Takings(sales, branch, code, range) - Worth(sales[i], branch, code, range)
               + Worth(sale, branch, code, range)
  {
    var n := |sales| - 1;
    if i < n {
      assert sales[i := sale][..n] == sales[..n][i := sale];
      TakingsUpdate(sales[..n], i, sale, branch, code, range);
    } else {
      assert sales[i := sale][..n] == sales[..n];
    }
  }

  function VoidInput(ledger: Books, c: Checkout, voidedAt: int): ReverseInput
    requires FindByKey(ledger.entries, c.branchId, c.LedgerKey()).Some?
  {
    ReverseInput(FindByKey(ledger.entries, c.branchId, c.LedgerKey()).value.id, VoidKey(c.LedgerKey()), voidedAt)
  }

  /** Voiding a checkout that is not sold does nothing, here and in the book. */
  lemma UnsoldIsNotVoided(ledger: Books, sales: seq<Sale>, c: Checkout, voidedAt: int)
    requires KeepsBook(ledger, sales) && !Sold(sales, c.branchId, c.LedgerKey())
    ensures VoidCheckout(ledger, c, voidedAt) == ledger && Enter(sales, Void(c, voidedAt)) == sales
  {
    KeyIsCheckoutKey(c);
    FoundIffSold(ledger, sales, c.branchId, c.LedgerKey());
  }

  /** Voiding a sold checkout reverses its entry and strikes its sale, or does nothing to either when done before. */
  lemma SoldIsVoided(ledger: Books, sales: seq<Sale>, c: Checkout, voidedAt: int) returns (i: nat)
    requires KeepsBook(ledger, sales) && Sold(sales, c.branchId, c.LedgerKey())
    ensures i < |sales| && sales[i].Has(c.branchId, c.LedgerKey())
    ensures FindByKey(ledger.entries, c.branchId, c.LedgerKey()).Some?
    ensures var opts := VoidInput(ledger, c, voidedAt);
            && FindById(ledger.entries, opts.entryId).Some?
            && FindById(ledger.entries, opts.entryId).value.branchId == c.branchId
            && VoidCheckout(ledger, c, voidedAt) == Reverse(ledger, opts).0
            && (Fresh(ledger, opts) <==> sales[i].voidedAt.None?)
    ensures Enter(sales, Void(c, voidedAt))
            == if sales[i].voidedAt.None? then sales[i := sales[i].(voidedAt := Some(voidedAt))] else sales
  {
    i :| 0 <= i < |sales| && sales[i].Has(c.branchId, c.LedgerKey());
    assert Kept(ledger, sales[i]);
    FoundById(ledger, c.branchId, c.LedgerKey());
    StrikesOne(sales, i, c.branchId, c.LedgerKey(), voidedAt);
  }

  lemma VoidKeepsEach(ledger: Books, sales: seq<Sale>, c: Checkout, voidedAt: int, i: nat, k: nat)
    requires KeepsBook(ledger, sales) && i < |sales| && k < |sales|
    requires sales[i].Has(c.branchId, c.LedgerKey()) && sales[i].voidedAt.None?
    ensures var struck := sales[i := sales[i].(voidedAt := Some(voidedAt))];
            Kept(VoidCheckout(ledger, c, voidedAt), struck[k])
  {
    VoidMarksOwn(ledger, sales[i], voidedAt);
    if k != i {
      FoundById(ledger, c.branchId, c.LedgerKey());
      VoidKeysAreApart(c.LedgerKey(), sales[k].input.idempotencyKey);
      VoidKeepsOther(ledger, VoidInput(ledger, c, voidedAt), sales[k]);
    }
  }

  lemma VoidKeepsRest(ledger: Books, sales: seq<Sale>, c: Checkout, voidedAt: int)
    requires KeepsBook(ledger, sales) && Sold(sales, c.branchId, c.LedgerKey())
    ensures NothingElse(VoidCheckout(ledger, c, voidedAt).entries, sales)
  {
    var i := SoldIsVoided(ledger, sales, c, voidedAt);
    var opts := VoidInput(ledger, c, voidedAt);
    var next := VoidCheckout(ledger, c, voidedAt);
    forall branch, key | Fresh(ledger, opts) && CheckoutKey(key) && !Sold(sales, branch, key)
      ensures FindByKey(next.entries, branch, key) == None && FindByKey(next.entries, branch, VoidKey(key)) == None
    {
      LookupAfterVoid(ledger, opts, branch, key);
      LookupAfterVoid(ledger, opts, branch, VoidKey(key));
      VoidKeysAreApart(c.LedgerKey(), key);
    }
  }

  lemma SameSold(sales: seq<Sale>, i: nat, voidedAt: int, branch: int, key: string)
    requires i < |sales|
    ensures Sold(sales[i := sales[i].(voidedAt := Some(voidedAt))], branch, key) <==> Sold(sales, branch, key)
  {
    var struck := sales[i := sales[i].(voidedAt := Some(voidedAt))];
    assert forall k :: 0 <= k < |sales| ==> (struck[k].Has(branch, key) <==> sales[k].Has(branch, key));
  }

  lemma VoidKeepsBook(ledger: Books, sales: seq<Sale>, c: Checkout, voidedAt: int)
    requires KeepsBook(ledger, sales)
    ensures KeepsBook(VoidCheckout(ledger, c, voidedAt), Enter(sales, Void(c, voidedAt)))
  {
    if !Sold(sales, c.branchId, c.LedgerKey()) {
      UnsoldIsNotVoided(ledger, sales, c, voidedAt);
    } else {
      var i := SoldIsVoided(ledger, sales, c, voidedAt);
      if sales[i].voidedAt.None? {
        ReverseKeepsValid(ledger, VoidInput(ledger, c, voidedAt));
        VoidKeepsRest(ledger, sales, c, voidedAt);
        forall branch, key
          ensures Sold(Enter(sales, Void(c, voidedAt)), branch, key) <==> Sold(sales, branch, key)
        {
          SameSold(sales, i, voidedAt, branch, key);
        }
        forall k | 0 <= k < |sales|
          ensures Kept(VoidCheckout(ledger, c, voidedAt), Enter(sales, Void(c, voidedAt))[k])
        {
          VoidKeepsEach(ledger, sales, c, voidedAt, i, k);
        }
      }
    }
  }

  lemma VoidMovesTakings(
    ledger: Books, sales: seq<Sale>, c: Checkout, voidedAt: int, branch: int, code: GlAccountCode, range: BalanceRange)
    requires KeepsBook(ledger, sales)
    ensures Balance(VoidCheckout(ledger, c, voidedAt), branch, code, range) - Balance(ledger, branch, code, range)
            == Takings(Enter(sales, Void(c, voidedAt)), branch, code, range) - Takings(sales, branch, code, range)
  {
    if !Sold(sales, c.branchId, c.LedgerKey()) {
      UnsoldIsNotVoided(ledger, sales, c, voidedAt);
    } else {
      var i := SoldIsVoided(ledger, sales, c, voidedAt);
      if sales[i].voidedAt.None? {
        var opts := VoidInput(ledger, c, voidedAt);
        assert Kept(ledger, sales[i]);
        ReverseMovesBalance(ledger, opts, branch, code, range);
        TakingsUpdate(sales, i, sales[i].(voidedAt := Some(voidedAt)), branch, code, range);
        assert Effect(ledger, opts.entryId, code)
               == InputNetOn(sales[i].input.lines, code) * NormalBalanceSign(code);
      }
    }
  }

  // ----- Every run -----

  /** No checkout of the branches' ledger is sold or voided yet. */
  ghost predicate NoCheckouts(ledger: Books) {
    NothingElse(ledger.entries, [])
  }

  lemma {:induction false} RunKeepsBook(start: Books, ops: seq<CheckoutOp>)
    requires Valid(start) && NoCheckouts(start)
    ensures KeepsBook(CheckoutRun(start, ops), Sales(ops))
  {
    if ops != [] {
      var before := ops[..|ops| - 1];
      RunKeepsBook(start, before);
      match ops[|ops| - 1]
      case Sell(c) => SellKeepsBook(CheckoutRun(start, before), Sales(before), c);
      case Void(c, voidedAt) => VoidKeepsBook(CheckoutRun(start, before), Sales(before), c, voidedAt);
    }
  }

  /**
   After any run of checkouts and voids, repeated and in any order, every balance is what it was before and what the
   book of the sales is worth: each checkout counted once, and taken off once if it was voided.
   */
  lemma {:induction false} RunIsItsSales(
    start: Books, ops: seq<CheckoutOp>, branch: int, code: GlAccountCode, range: BalanceRange)
    requires Valid(start) && NoCheckouts(start)
    ensures Balance(CheckoutRun(start, ops), branch, code, range)
            == Balance(start, branch, code, range) + Takings(Sales(ops), branch, code, range)
  {
    if ops != [] {
      var before := ops[..|ops| - 1];
      RunIsItsSales(start, before, branch, code, range);
      RunKeepsBook(start, before);
      match ops[|ops| - 1]
      case Sell(c) => SellMovesTakings(CheckoutRun(start, before), Sales(before), c, branch, code, range);
      case Void(c, voidedAt) =>
        VoidMovesTakings(CheckoutRun(start, before), Sales(before), c, voidedAt, branch, code, range);
    }
  }

  // ----- What is in the book, on the calls alone -----

  predicate Sells(op: CheckoutOp, branch: int, key: string) {
    op.Sell? && IsPosted(op.checkout) && op.checkout.branchId == branch && op.checkout.LedgerKey() == key
  }

  predicate Voids(op: CheckoutOp, branch: int, key: string) {
    op.Void? && op.checkout.branchId == branch && op.checkout.LedgerKey() == key
  }

  predicate Off(sales: seq<Sale>, branch: int, key: string) {
    exists i :: 0 <= i < |sales| && sales[i].Has(branch, key) && sales[i].voidedAt.Some?
  }

  ghost predicate SoldIn(ops: seq<CheckoutOp>, branch: int, key: string) {
    exists j :: 0 <= j < |ops| && Sells(ops[j], branch, key)
  }

  ghost predicate VoidedIn(ops: seq<CheckoutOp>, branch: int, key: string) {
    exists i, j :: 0 <= i < j < |ops| && Sells(ops[i], branch, key) && Voids(ops[j], branch, key)
  }

  lemma EnterSold(sales: seq<Sale>, op: CheckoutOp, branch: int, key: string)
    ensures Sold(Enter(sales, op), branch, key) <==> Sold(sales, branch, key) || Sells(op, branch, key)
  {
    var entered := Enter(sales, op);
    assert forall i :: 0 <= i < |sales| ==> (entered[i].Has(branch, key) <==> sales[i].Has(branch, key));
    if Sells(op, branch, key) && !Sold(sales, branch, key) {
      assert entered[|sales|].Has(branch, key);
    }
  }

  lemma EnterOff(sales: seq<Sale>, op: CheckoutOp, branch: int, key: string)
    ensures Off(Enter(sales, op), branch, key)
            <==> Off(sales, branch, key) || (Sold(sales, branch, key) && Voids(op, branch, key))
  {
    var entered := Enter(sales, op);
    assert forall i :: 0 <= i < |sales| ==> (entered[i].Has(branch, key) <==> sales[i].Has(branch, key));
    assert forall i :: 0 <= i < |sales| && sales[i].voidedAt.Some? ==> entered[i].voidedAt.Some?;
  }

  lemma OneMoreSold(before: seq<CheckoutOp>, op: CheckoutOp, branch: int, key: string)
    ensures SoldIn(before + [op], branch, key) <==> SoldIn(before, branch, key) || Sells(op, branch, key)
  {
    var ops, n := before + [op], |before|;
    if SoldIn(ops, branch, key) {
      var j :| 0 <= j < |ops| && Sells(ops[j], branch, key);
      assert j < n ==> Sells(before[j], branch, key);
    }
    if SoldIn(before, branch, key) {
      var j :| 0 <= j < n && Sells(before[j], branch, key);
      assert Sells(ops[j], branch, key);
    }
    assert ops[n] == op;
  }

  lemma OneMoreVoided(before: seq<CheckoutOp>, op: CheckoutOp, branch: int, key: string)
    ensures VoidedIn(before + [op], branch, key)
            <==> VoidedIn(before, branch, key) || (SoldIn(before, branch, key) && Voids(op, branch, key))
  {
    var ops, n := before + [op], |before|;
    if VoidedIn(ops, branch, key) {
      var i, j :| 0 <= i < j < |ops| && Sells(ops[i], branch, key) && Voids(ops[j], branch, key);
      assert Sells(before[i], branch, key);
      assert j < n ==> Voids(before[j], branch, key);
    }
    if VoidedIn(before, branch, key) {
      var i, j :| 0 <= i < j < n && Sells(before[i], branch, key) && Voids(before[j], branch, key);
      assert Sells(ops[i], branch, key) && Voids(ops[j], branch, key);
    }
    if SoldIn(before, branch, key) && Voids(op, branch, key) {
      var i :| 0 <= i < n && Sells(before[i], branch, key);
      assert Sells(ops[i], branch, key) && Voids(ops[n], branch, key);
    }
  }

  lemma OneMoreSale(before: seq<CheckoutOp>, op: CheckoutOp)
    ensures Sales(before + [op]) == Enter(Sales(before), op)
  {
    assert (before + [op])[..|before|] == before;
  }

  lemma SoldStep(before: seq<CheckoutOp>, op: CheckoutOp, branch: int, key: string)
    requires Sold(Sales(before), branch, key) <==> SoldIn(before, branch, key)
    ensures Sold(Sales(before + [op]), branch, key) <==> SoldIn(before + [op], branch, key)
  {
    OneMoreSale(before, op);
    EnterSold(Sales(before), op, branch, key);
    OneMoreSold(before, op, branch, key);
  }

  lemma OffStep(before: seq<CheckoutOp>, op: CheckoutOp, branch: int, key: string)
    requires Sold(Sales(before), branch, key) <==> SoldIn(before, branch, key)
    requires Off(Sales(before), branch, key) <==> VoidedIn(before, branch, key)
    ensures Off(Sales(before + [op]), branch, key) <==> VoidedIn(before + [op], branch, key)
  {
    OneMoreSale(before, op);
    EnterOff(Sales(before), op, branch, key);
    OneMoreVoided(before, op, branch, key);
  }

  /**
   A key is in the book exactly when a checkout under it was posted in the run, and struck exactly when a void of it
   came after that.
   */
  lemma {:induction false} BookIsExact(ops: seq<CheckoutOp>, branch: int, key: string)
    ensures Sold(Sales(ops), branch, key) <==> SoldIn(ops, branch, key)
    ensures Off(Sales(ops), branch, key) <==> VoidedIn(ops, branch, key)
  {
    if ops != [] {
      var before, op := ops[..|ops| - 1], ops[|ops| - 1];
      assert ops == before + [op];
      BookIsExact(before, branch, key);
      SoldStep(before, op, branch, key);
      OffStep(before, op, branch, key);
    }
  }

  /** A call changes the ledger exactly when it sells what was not sold, or voids what was sold and not voided. */
  lemma StepMattersIff(start: Books, ops: seq<CheckoutOp>, op: CheckoutOp)
    requires Valid(start) && NoCheckouts(start)
    ensures var (ledger, branch, key) := (CheckoutRun(start, ops), op.checkout.branchId, op.checkout.LedgerKey());
            CheckoutStep(ledger, op) != ledger <==>
            if op.Sell? then IsPosted(op.checkout) && !SoldIn(ops, branch, key)
            else SoldIn(ops, branch, key) && !VoidedIn(ops, branch, key)
  {
    var (ledger, sales) := (CheckoutRun(start, ops), Sales(ops));
    var (branch, key) := (op.checkout.branchId, op.checkout.LedgerKey());
    RunKeepsBook(start, ops);
    BookIsExact(ops, branch, key);
    KeyIsCheckoutKey(op.checkout);
    FoundIffSold(ledger, sales, branch, key);
    match op
    case Sell(c) => {}
    case Void(c, voidedAt) =>
      if Sold(sales, branch, key) {
        var i := SoldIsVoided(ledger, sales, c, voidedAt);
        OffIsOwn(ledger, sales, i, branch, key);
      } else {
        UnsoldIsNotVoided(ledger, sales, c, voidedAt);
      }
  }

  lemma OffIsOwn(ledger: Books, sales: seq<Sale>, i: nat, branch: int, key: string)
    requires KeepsBook(ledger, sales) && i < |sales| && sales[i].Has(branch, key)
    ensures Off(sales, branch, key) <==> sales[i].voidedAt.Some?
  {
    forall k | 0 <= k < |sales| && sales[k].Has(branch, key)
      ensures k == i
    {
      assert !(k < i) && !(i < k);
    }
  }

  /** Selling and then voiding: the checkout's own net, from its date on, taken off again from the void's date on. */
  lemma SellThenVoid(
    start: Books, c: Checkout, voidedAt: int, branch: int, code: GlAccountCode, range: BalanceRange)
    requires Valid(start) && NoCheckouts(start) && IsPosted(c)
    ensures var net := InputNetOn(EntryOf(c).value.lines, code) * NormalBalanceSign(code);
            Balance(CheckoutRun(start, [Sell(c), Void(c, voidedAt)]), branch, code, range)
            == Balance(start, branch, code, range)
               + (if branch == c.branchId && range.Contains(c.occurredAt) then net else 0)
               - (if branch == c.branchId && range.Contains(voidedAt) then net else 0)
  {
    var ops := [Sell(c), Void(c, voidedAt)];
    var sale := Sale(EntryOf(c).value, None);
    assert ops[..1] == [Sell(c)] && [Sell(c)][..0] == [];
    assert Sales([Sell(c)]) == [sale];
    assert Sales(ops) == [sale.(voidedAt := Some(voidedAt))];
    assert [sale.(voidedAt := Some(voidedAt))][..0] == [];
    RunIsItsSales(start, ops, branch, code, range);
  }

  // ----- Ledger keys -----

  /** The number a decimal text writes. */
  function Read(text: string): int {
    if text == "" then 0 else 10 * Read(text[..|text| - 1]) + (text[|text| - 1] as int - '0' as int)
  }

  /** A printed number consists of digits and reads back as itself. */
  lemma {:induction false} DecimalReadsBack(n: nat)
    ensures Read(Decimal(n)) == n
    ensures forall k :: 0 <= k < |Decimal(n)| ==> '0' <= Decimal(n)[k] <= '9'
  {
    if n < 10 {
      assert Decimal(n)[..0] == "";
    } else {
      DecimalReadsBack(n / 10);
      assert Decimal(n)[..|Decimal(n)| - 1] == Decimal(n / 10);
    }
  }

  predicate Keyed(c: Checkout) {
    c.idempotencyKey.Some? && c.idempotencyKey.value != ""
  }

  /**
   Two checkouts have the same ledger key exactly when both have the same client key, or neither has one and they have
   the same number, or the client key of the one is the number of the other.
   */
  lemma SameLedgerKeyIff(a: Checkout, b: Checkout)
    ensures a.LedgerKey() == b.LedgerKey() <==>
            if Keyed(a) && Keyed(b) then a.idempotencyKey == b.idempotencyKey
            else if Keyed(a) then a.idempotencyKey.value == Decimal(b.id)
            else if Keyed(b) then b.idempotencyKey.value == Decimal(a.id)
            else a.id == b.id
  {
    if a.Reference() != b.Reference() {
      KeysDiffer(a.Reference(), b.Reference());
    }
    DecimalReadsBack(a.id);
    DecimalReadsBack(b.id);
  }

  /** Checkout 5 has no client key, checkout 6 has the key "5": once 5 is booked, 6 never is. */
  lemma KeyMeetsNumber(start: Books, ops: seq<CheckoutOp>)
    requires Valid(start) && NoCheckouts(start)
    ensures var (five, six) := (Bill(100, 100).(id := 5), Bill(100, 100).(id := 6, idempotencyKey := Some("5")));
            && IsPosted(five) && IsPosted(six)
            && var ledger := CheckoutRun(start, [Sell(five)] + ops); PostCheckout(ledger, six) == ledger
  {
    var (five, six) := (Bill(100, 100).(id := 5), Bill(100, 100).(id := 6, idempotencyKey := Some("5")));
    BillIsPosted(five);
    BillIsPosted(six);
    assert Decimal(5) == "5";
    SameLedgerKeyIff(five, six);
    var run := [Sell(five)] + ops;
    assert Sells(run[0], 1, six.LedgerKey());
    StepMattersIff(start, run, Sell(six));
  }

  lemma BillIsPosted(c: Checkout)
    requires c == Bill(100, 100).(id := c.id, idempotencyKey := c.idempotencyKey)
    ensures IsPosted(c)
  {
    RoundCents(100);
    CheckoutBalancesIff(c);
  }
}
