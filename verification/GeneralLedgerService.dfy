/** The posting engine as the class it is: the two tables are fields that its methods update. */
module GeneralLedgerService {
  import opened Outcomes
  import opened Money
  import opened ChartOfAccounts
  import opened Journal
  import opened Ledger
  import opened LedgerInvariant

  class GeneralLedgerService {
    var entries: seq<Entry>
    var lines: seq<Line>
    var nextEntryId: nat

    ghost function State(): Books
      reads this
    {
      Books(entries, lines, nextEntryId)
    }

    constructor ()
      ensures State() == EMPTY && Valid(State())
    {
      entries, lines, nextEntryId := [], [], 1;
    }

    /** The guard `post` runs first. It returns the error the source would throw. */
    static method AssertBalanced(input: PostInput) returns (error: Option<PostError>)
      ensures error == BalanceError(input)
    {
      if input.idempotencyKey == "" {
        return Some(MissingIdempotencyKey);
      }
      if |input.lines| < 2 {
        return Some(TooFewLines);
      }
      var totalDebit, totalCredit := 0.0, 0.0;
      for i := 0 to |input.lines|
        invariant FirstLineError(input.lines) == FirstLineError(input.lines[i..])
        invariant totalDebit + InputDebits(input.lines[i..]) == InputDebits(input.lines)
        invariant totalCredit + InputCredits(input.lines[i..]) == InputCredits(input.lines)
      {
        var line := input.lines[i];
        assert input.lines[i..][1..] == input.lines[i + 1..];
        if !IsGlAccountCode(line.accountCode) {
          return Some(UnknownAccount(line.accountCode));
        }
        var debit, credit := Amount(line.debit), Amount(line.credit);
        if debit < 0.0 || credit < 0.0 {
          return Some(NegativeAmount);
        }
        if debit > 0.0 && credit > 0.0 {
          return Some(BothSides);
        }
        totalDebit := totalDebit + debit;
        totalCredit := totalCredit + credit;
      }
      if AbsReal(totalDebit - totalCredit) > BALANCE_TOLERANCE {
        return Some(Unbalanced(totalDebit, totalCredit));
      }
      if totalDebit == 0.0 {
        return Some(ZeroTotal);
      }
      return None;
    }

    method Post(input: PostInput) returns (result: Result<Entry, PostError>)
      requires Valid(State())
      modifies this
      ensures Valid(State())
      ensures (State(), result) == Ledger.Post(old(State()), input)
    {
      PostKeepsValid(State(), input);
      var error := AssertBalanced(input);
      if error.Some? {
        return Failure(error.value);
      }
      var entry := PostWithin(input);
      return Success(entry);
    }

    method PostWithin(input: PostInput) returns (entry: Entry)
      modifies this
      ensures (State(), entry) == Ledger.PostWithin(old(State()), input)
    {
      var existing := FindEntryByIdempotencyKey(input.branchId, input.idempotencyKey);
      if existing.Some? {
        return existing.value;
      }
      entry := NewEntry(input, nextEntryId);
      nextEntryId := nextEntryId + 1;
      entries := entries + [entry];
      lines := lines + StoredLines(input.lines, entry);
    }

    method FindEntryByIdempotencyKey(branchId: int, idempotencyKey: string) returns (found: Option<Entry>)
      ensures found == FindByKey(entries, branchId, idempotencyKey)
    {
      for i := 0 to |entries|
        invariant FindByKey(entries, branchId, idempotencyKey) == FindByKey(entries[i..], branchId, idempotencyKey)
      {
        assert entries[i..][1..] == entries[i + 1..];
        if entries[i].branchId == branchId && entries[i].idempotencyKey == idempotencyKey {
          return Some(entries[i]);
        }
      }
      return None;
    }

    /** Posts the mirror entry and links the two; `None` when the entry does not exist. */
    method Reverse(opts: ReverseInput) returns (result: Option<Entry>)
      requires Valid(State())
      modifies this
      ensures Valid(State())
      ensures (State(), result) == Ledger.Reverse(old(State()), opts)
    {
      ReverseKeepsValid(State(), opts);
      var index := IndexById(opts.entryId);
      if index == |entries| {
        return None;
      }
      var original := entries[index];
      var alreadyReversed := FindEntryByIdempotencyKey(original.branchId, opts.idempotencyKey);
      if alreadyReversed.Some? {
        return alreadyReversed;
      }
      var originalLines := LinesOf(lines, opts.entryId);
      var reversal := ReversalOf(original, opts, nextEntryId);
      nextEntryId := nextEntryId + 1;
      ghost var before := entries;
      entries := entries + [reversal];
      lines := lines + Swapped(originalLines, reversal.id, opts.occurredAt);
      entries := entries[index := original.(reversedByEntryId := Some(reversal.id))];
      assert entries == MarkReversed(before + [reversal], opts.entryId, reversal.id);
      return Some(reversal);
    }

    /** `findOne({ where: { id } })`, as a position in the table. */
    method IndexById(id: nat) returns (index: nat)
      requires Valid(State())
      ensures index <= |entries|
      ensures index < |entries| ==> entries[index].id == id && FindById(entries, id) == Some(entries[index])
      ensures index == |entries| ==> FindById(entries, id) == None
    {
      index := 0;
      while index < |entries|
        invariant index <= |entries|
        invariant FindById(entries, id) == FindById(entries[index..], id)
      {
        assert entries[index..][1..] == entries[index + 1..];
        if entries[index].id == id {
          return;
        }
        index := index + 1;
      }
    }

    /** The sums of one query, signed by the account's normal balance. */
    method Balance(branchId: int, accountCode: GlAccountCode, range: BalanceRange) returns (amount: int)
      ensures amount == Ledger.Balance(State(), branchId, accountCode, range)
    {
      var rows := Select(lines, ByAccount(branchId, accountCode, range));
      var debit, credit := Debits(rows), Credits(rows);
      return (debit - credit) * NormalBalanceSign(accountCode);
    }

    /** Fills the map row by row; the rows of a GROUP BY come in no particular order. */
    method AccountTotals(branchId: int, range: BalanceRange) returns (totals: map<GlAccountCode, Totals>)
      ensures totals == Ledger.AccountTotals(State(), branchId, range)
    {
      var window := Select(lines, ByBranch(branchId, range));
      var codes := set line | line in window :: line.accountCode;
      totals := map[];
      var pending := codes;
      while pending != {}
        invariant pending <= codes && totals.Keys == codes - pending
        invariant forall code :: code in totals ==>
          totals[code] == var rows := Select(window, ByAccount(branchId, code, ALWAYS));
                          Totals(Debits(rows), Credits(rows))
        decreases pending
      {
        var code :| code in pending;
        var rows := Select(window, ByAccount(branchId, code, ALWAYS));
        totals := totals[code := Totals(Debits(rows), Credits(rows))];
        pending := pending - {code};
      }
    }
  }
}
