/**
 What rounding each line separately does to an entry that was checked on its raw amounts:
 the exact law for whole cents, the bound for any amounts, and exactly when balance survives.
 */
module Posting {
  import opened Outcomes
  import opened Money
  import opened Arithmetic
  import opened ChartOfAccounts
  import opened Journal
  import opened Ledger
  import opened LedgerInvariant

  /** The rounding remainders of the debits minus those of the credits. */
  function Drift(lines: seq<LineInput>): real {
    if lines == [] then 0.0
    else Remainder(Amount(lines[0].debit)) - Remainder(Amount(lines[0].credit)) + Drift(lines[1..])
  }

  function Stored(input: PostInput, id: nat): seq<Line> {
    StoredLines(input.lines, NewEntry(input, id))
  }

  /** The stored rows of a list of legs are the first leg's row, unless it is zero, and the rest's. */
  lemma StoredSums(lines: seq<LineInput>, entry: Entry, code: GlAccountCode)
    requires FirstLineError(lines) == None && lines != []
    ensures var debit, credit := Round2(Amount(lines[0].debit)), Round2(Amount(lines[0].credit));
            var rest := StoredLines(lines[1..], entry);
            && Debits(StoredLines(lines, entry)) == debit + Debits(rest)
            && Credits(StoredLines(lines, entry)) == credit + Credits(rest)
            && NetOn(StoredLines(lines, entry), code)
               == (if lines[0].accountCode == code then debit - credit else 0) + NetOn(rest, code)
            && (Amount(lines[0].debit) == 0.0 ==> debit == 0)
            && (Amount(lines[0].credit) == 0.0 ==> credit == 0)
  {
    assert LineError(lines[0]) == None;
    RoundCents(0);
    var rest := StoredLines(lines[1..], entry);
    if Amount(lines[0].debit) > 0.0 || Amount(lines[0].credit) > 0.0 {
      SumsCons(StoredLines(lines, entry)[0], rest, code);
    } else {
      assert StoredLines(lines, entry) == rest;
    }
  }

  /** Rounding moves the net of an entry by exactly its drift, at most half a cent a stored line. */
  lemma {:induction false} RoundingMovesNet(lines: seq<LineInput>, entry: Entry)
    requires FirstLineError(lines) == None
    ensures Net(StoredLines(lines, entry)) as real == InputDebits(lines) - InputCredits(lines) - Drift(lines)
    ensures AbsReal(Drift(lines)) <= 0.5 * |StoredLines(lines, entry)| as real
    ensures WholeCentLines(lines) ==> Drift(lines) == 0.0
  {
    if lines != [] {
      RoundingMovesNet(lines[1..], entry);
      StoredSums(lines, entry, Cash);
      if WholeCentLines(lines) {
        RoundWhole(Amount(lines[0].debit));
        RoundWhole(Amount(lines[0].credit));
      }
    }
  }

  /** |debits - credits| <= half a cent times (stored lines + 1), for every accepted entry. */
  lemma RoundingBound(input: PostInput, id: nat)
    requires Accepted(input)
    ensures 2 * Abs(Net(Stored(input, id))) <= |Stored(input, id)| + 1
  {
    RoundingMovesNet(input.lines, NewEntry(input, id));
  }

  /**
   An accepted entry is stored balanced exactly when its rounding remainders drift by less than half a cent, or by
   exactly half a cent and the raw totals differ by that same half cent, which is all the guard lets them differ.
   */
  lemma StoredBalancedIff(input: PostInput, id: nat)
    requires Accepted(input)
    ensures Net(Stored(input, id)) == 0 <==>
            || AbsReal(Drift(input.lines)) < 0.5
            || (AbsReal(Drift(input.lines)) == 0.5
                && Drift(input.lines) == InputDebits(input.lines) - InputCredits(input.lines))
  {
    RoundingMovesNet(input.lines, NewEntry(input, id));
    AcceptedIff(input);
  }

  /** Whole-cent amounts: accepted means balanced to the cent. */
  lemma WholeCentsBalance(input: PostInput, id: nat)
    requires Accepted(input) && WholeCentLines(input.lines)
    ensures Debits(Stored(input, id)) == Credits(Stored(input, id))
  {
    RoundingMovesNet(input.lines, NewEntry(input, id));
  }

  // ----- Which stored rows have a positive side -----

  predicate OneSided(line: Line) {
    (line.debit > 0) != (line.credit > 0)
  }

  /** A leg that is positive but under half a cent: it passes the zero filter and is stored as zero. */
  predicate Vanishing(line: LineInput) {
    0.0 < Amount(line.debit) < 0.5 || 0.0 < Amount(line.credit) < 0.5
  }

  /** Every stored row has exactly one positive side, exactly when no requested leg vanishes. */
  lemma {:induction false} OneSidedIff(lines: seq<LineInput>, entry: Entry)
    requires FirstLineError(lines) == None
    ensures (forall row :: row in StoredLines(lines, entry) ==> OneSided(row))
            <==> (forall line :: line in lines ==> !Vanishing(line))
  {
    if lines != [] {
      OneSidedIff(lines[1..], entry);
      var line := lines[0];
      assert LineError(line) == None;
      var stored, rest := StoredLines(lines, entry), StoredLines(lines[1..], entry);
      RoundsTo(Amount(line.debit), 0);
      RoundsTo(Amount(line.credit), 0);
      assert forall l :: l in lines <==> l == line || l in lines[1..];
      if Amount(line.debit) > 0.0 || Amount(line.credit) > 0.0 {
        assert stored == [stored[0]] + rest;
        assert forall row :: row in stored <==> row == stored[0] || row in rest;
        assert OneSided(stored[0]) <==> !Vanishing(line);
      } else {
        assert stored == rest;
      }
    }
  }

  /** Whole cents: the stored rows are one-sided, and both a debit and a credit row survive. */
  lemma WholeCentsStoreBothSides(input: PostInput, id: nat)
    requires Accepted(input) && WholeCentLines(input.lines)
    ensures forall row :: row in Stored(input, id) ==> OneSided(row)
    ensures exists row :: row in Stored(input, id) && row.debit > 0
    ensures exists row :: row in Stored(input, id) && row.credit > 0
  {
    var entry := NewEntry(input, id);
    forall line | line in input.lines
      ensures !Vanishing(line)
    {
    }
    OneSidedIff(input.lines, entry);
    WholeCentsBalance(input, id);
    NoLineErrorIff(input.lines);
    StoredDebits(input.lines, entry);
    PositiveSum(Stored(input, id));
  }

  lemma {:induction false} StoredDebits(lines: seq<LineInput>, entry: Entry)
    requires FirstLineError(lines) == None && WholeCentLines(lines)
    ensures Debits(StoredLines(lines, entry)) as real == InputDebits(lines)
    ensures Credits(StoredLines(lines, entry)) as real == InputCredits(lines)
    ensures 0.0 <= InputDebits(lines) && 0.0 <= InputCredits(lines)
  {
    if lines != [] {
      StoredDebits(lines[1..], entry);
      StoredSums(lines, entry, Cash);
      assert LineError(lines[0]) == None;
      RoundWhole(Amount(lines[0].debit));
      RoundWhole(Amount(lines[0].credit));
    }
  }

  lemma {:induction false} PositiveSum(lines: seq<Line>)
    ensures Debits(lines) > 0 ==> exists row :: row in lines && row.debit > 0
    ensures Credits(lines) > 0 ==> exists row :: row in lines && row.credit > 0
  {
    if lines != [] {
      PositiveSum(lines[1..]);
      assert lines[0] in lines;
    }
  }

  // ----- What a fresh post does to a balance -----

  /** The net, in cents, that the requested lines put on one account. */
  function InputNetOn(lines: seq<LineInput>, code: GlAccountCode): int {
    if lines == [] then 0
    else (if lines[0].accountCode == code then Round2(Amount(lines[0].debit)) - Round2(Amount(lines[0].credit)) else 0)
         + InputNetOn(lines[1..], code)
  }

  lemma {:induction false} StoredNetOn(lines: seq<LineInput>, entry: Entry, code: GlAccountCode)
    requires FirstLineError(lines) == None
    ensures NetOn(StoredLines(lines, entry), code) == InputNetOn(lines, code)
  {
    if lines != [] {
      StoredNetOn(lines[1..], entry, code);
      StoredSums(lines, entry, code);
    }
  }

  /** A fresh accepted post moves each balance by the requested net, inside its window and branch only. */
  lemma PostMovesBalance(ledger: Books, input: PostInput, branch: int, code: GlAccountCode, range: BalanceRange)
    requires Valid(ledger) && Accepted(input)
    requires FindByKey(ledger.entries, input.branchId, input.idempotencyKey) == None
    ensures Balance(Post(ledger, input).0, branch, code, range)
            == Balance(ledger, branch, code, range)
               + (if branch == input.branchId && range.Contains(input.occurredAt)
                  then InputNetOn(input.lines, code) * NormalBalanceSign(code) else 0)
  {
    var entry := NewEntry(input, ledger.nextEntryId);
    var block := StoredLines(input.lines, entry);
    StoredLinesBlock(input.lines, entry);
    InsertMovesBalance(ledger, entry, block, branch, code, range);
    StoredNetOn(input.lines, entry, code);
    Distribute(Net(Select(ledger.lines, ByAccount(branch, code, range))), InputNetOn(input.lines, code),
               NormalBalanceSign(code));
  }

  lemma InsertMovesBalance(
    ledger: Books, entry: Entry, block: seq<Line>, branch: int, code: GlAccountCode, range: BalanceRange)
    requires BlockOk(entry, block)
    ensures Net(Select(ledger.lines + block, ByAccount(branch, code, range)))
            == Net(Select(ledger.lines, ByAccount(branch, code, range)))
               + (if branch == entry.branchId && range.Contains(entry.occurredAt) then NetOn(block, code) else 0)
  {
    var q := ByAccount(branch, code, range);
    SelectAppend(ledger.lines, block, q);
    SumsAppend(Select(ledger.lines, q), Select(block, q));
    NetBlockByAccount(block, entry.id, entry.branchId, entry.occurredAt, branch, code, range);
  }

  // ----- A fresh post, on the request alone -----

  /** What a fresh accepted post writes, field by field. */
  lemma PostWritesTheRequest(ledger: Books, input: PostInput)
    requires Valid(ledger) && Accepted(input)
    requires FindByKey(ledger.entries, input.branchId, input.idempotencyKey) == None
    ensures var (next, result) := Post(ledger, input);
            && result.Success? && next.entries == ledger.entries + [result.value]
            && next.nextEntryId == ledger.nextEntryId + 1 && |next.lines| >= |ledger.lines|
            && var e := result.value;
               && e.id == ledger.nextEntryId && e.branchId == input.branchId && e.occurredAt == input.occurredAt
               && e.idempotencyKey == input.idempotencyKey
               && e.reversesEntryId == None && e.reversedByEntryId == None
               && e.currency == (if input.currency.Some? && |input.currency.value| > 0 then input.currency.value
                                 else "ETB")
               && next.lines[..|ledger.lines|] == ledger.lines
               && forall line :: line in next.lines[|ledger.lines|..] ==>
                    && line.entryId == e.id && line.branchId == input.branchId
                    && line.occurredAt == input.occurredAt && line.currency == e.currency
  {
    var entry := NewEntry(input, ledger.nextEntryId);
    StoredLinesBlock(input.lines, entry);
    assert (ledger.lines + StoredLines(input.lines, entry))[|ledger.lines|..] == StoredLines(input.lines, entry);
  }

  /** It moves a bounded balance when its date lies between the bounds, both included, and no other. */
  lemma PostMovesPeriods(ledger: Books, input: PostInput, code: GlAccountCode, from: int, to: int)
    requires Valid(ledger) && Accepted(input)
    requires FindByKey(ledger.entries, input.branchId, input.idempotencyKey) == None
    ensures var next, moved := Post(ledger, input).0, InputNetOn(input.lines, code) * NormalBalanceSign(code);
            var between, upTo := BalanceRange(Some(from), Some(to)), AsOf(to);
            var since, always := BalanceRange(Some(from), None), BalanceRange(None, None);
            && Balance(next, input.branchId, code, between) == Balance(ledger, input.branchId, code, between)
                 + (if from <= input.occurredAt <= to then moved else 0)
            && Balance(next, input.branchId, code, upTo) == Balance(ledger, input.branchId, code, upTo)
                 + (if input.occurredAt <= to then moved else 0)
            && Balance(next, input.branchId, code, since) == Balance(ledger, input.branchId, code, since)
                 + (if from <= input.occurredAt then moved else 0)
            && Balance(next, input.branchId, code, always) == Balance(ledger, input.branchId, code, always) + moved
  {
    PostMovesBalance(ledger, input, input.branchId, code, BalanceRange(Some(from), Some(to)));
    PostMovesBalance(ledger, input, input.branchId, code, AsOf(to));
    PostMovesBalance(ledger, input, input.branchId, code, BalanceRange(Some(from), None));
    PostMovesBalance(ledger, input, input.branchId, code, BalanceRange(None, None));
  }
}
