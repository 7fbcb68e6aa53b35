/** The lines a caller builds: a leg is pushed when its amount is positive, and a return mirrors a sale. */
module Legs {
  import opened Outcomes
  import opened Money
  import opened ChartOfAccounts
  import opened Journal
  import opened Ledger
  import opened LedgerInvariant
  import opened Posting

  function DebitIfPositive(code: GlAccountCode, amount: real): seq<LineInput> {
    if amount > 0.0 then [LineInput(code, Some(amount), None)] else []
  }

  function CreditIfPositive(code: GlAccountCode, amount: real): seq<LineInput> {
    if amount > 0.0 then [LineInput(code, None, Some(amount))] else []
  }

  function PositivePart(amount: real): real {
    if amount > 0.0 then amount else 0.0
  }

  /** What a leg pushed in front of others adds to them. */
  lemma PushDebit(account: GlAccountCode, amount: real, rest: seq<LineInput>, code: GlAccountCode)
    requires !account.Unknown?
    ensures var lines := DebitIfPositive(account, amount) + rest;
            && InputDebits(lines) == PositivePart(amount) + InputDebits(rest)
            && InputCredits(lines) == InputCredits(rest)
            && FirstLineError(lines) == FirstLineError(rest)
            && Drift(lines) == Remainder(PositivePart(amount)) + Drift(rest)
            && InputNetOn(lines, code)
               == (if code == account then Round2(PositivePart(amount)) else 0) + InputNetOn(rest, code)
            && |lines| == |rest| + if amount > 0.0 then 1 else 0
  {
    RoundCents(0);
    var pushed := DebitIfPositive(account, amount);
    if amount > 0.0 {
      assert (pushed + rest)[1..] == rest;
    } else {
      assert pushed + rest == rest;
    }
  }

  lemma PushCredit(account: GlAccountCode, amount: real, rest: seq<LineInput>, code: GlAccountCode)
    requires !account.Unknown?
    ensures var lines := CreditIfPositive(account, amount) + rest;
            && InputDebits(lines) == InputDebits(rest)
            && InputCredits(lines) == PositivePart(amount) + InputCredits(rest)
            && FirstLineError(lines) == FirstLineError(rest)
            && Drift(lines) == Drift(rest) - Remainder(PositivePart(amount))
            && InputNetOn(lines, code)
               == InputNetOn(rest, code) - (if code == account then Round2(PositivePart(amount)) else 0)
            && |lines| == |rest| + if amount > 0.0 then 1 else 0
  {
    RoundCents(0);
    var pushed := CreditIfPositive(account, amount);
    if amount > 0.0 {
      assert (pushed + rest)[1..] == rest;
    } else {
      assert pushed + rest == rest;
    }
  }

  /** The positive part of whole cents is whole cents. */
  lemma PositiveCents(cents: int)
    ensures PositivePart(cents as real) == Positive(cents) as real
    ensures Round2(PositivePart(cents as real)) == Positive(cents)
    ensures Remainder(PositivePart(cents as real)) == 0.0
  {
    RoundCents(Positive(cents));
  }

  /** A leg of whole cents. */
  lemma PushCents(account: GlAccountCode, cents: int, rest: seq<LineInput>, code: GlAccountCode)
    requires !account.Unknown?
    ensures var lines := DebitIfPositive(account, cents as real) + rest;
            && InputDebits(lines) == Positive(cents) as real + InputDebits(rest)
            && InputCredits(lines) == InputCredits(rest)
            && FirstLineError(lines) == FirstLineError(rest)
            && InputNetOn(lines, code) == (if code == account then Positive(cents) else 0) + InputNetOn(rest, code)
            && |lines| == |rest| + if cents > 0 then 1 else 0
  {
    PositiveCents(cents);
    PushDebit(account, cents as real, rest, code);
  }

  lemma PushCreditCents(account: GlAccountCode, cents: int, rest: seq<LineInput>, code: GlAccountCode)
    requires !account.Unknown?
    ensures var lines := CreditIfPositive(account, cents as real) + rest;
            && InputDebits(lines) == InputDebits(rest)
            && InputCredits(lines) == Positive(cents) as real + InputCredits(rest)
            && FirstLineError(lines) == FirstLineError(rest)
            && InputNetOn(lines, code) == InputNetOn(rest, code) - (if code == account then Positive(cents) else 0)
            && |lines| == |rest| + if cents > 0 then 1 else 0
  {
    PositiveCents(cents);
    PushCredit(account, cents as real, rest, code);
  }

  /** The guard, on an entry whose lines are in order. */
  lemma GuardOnSums(input: PostInput)
    requires FirstLineError(input.lines) == None && |input.lines| >= 2 && InputCredits(input.lines) > 0.5
    ensures Accepted(input) <==>
            input.idempotencyKey != "" && -0.5 <= InputDebits(input.lines) - InputCredits(input.lines) <= 0.5
  {
  }

  // ----- The mirror -----

  function Mirrored(lines: seq<LineInput>): (mirrored: seq<LineInput>)
    ensures |mirrored| == |lines|
  {
    seq(|lines|, k requires 0 <= k < |lines| =>
      LineInput(lines[k].accountCode, Some(Amount(lines[k].credit)), Some(Amount(lines[k].debit))))
  }

  lemma {:induction false} MirrorSums(lines: seq<LineInput>, code: GlAccountCode)
    ensures InputDebits(Mirrored(lines)) == InputCredits(lines)
    ensures InputCredits(Mirrored(lines)) == InputDebits(lines)
    ensures InputNetOn(Mirrored(lines), code) == -InputNetOn(lines, code)
    ensures FirstLineError(Mirrored(lines)) == FirstLineError(lines)
  {
    if lines != [] {
      assert Mirrored(lines)[1..] == Mirrored(lines[1..]);
      MirrorSums(lines[1..], code);
    }
  }

  /** Posting an entry and then its mirror leaves every balance as it was, in windows that hold both. */
  lemma MirrorUndoes(
    ledger: Books, entry: PostInput, mirror: PostInput, branch: int, code: GlAccountCode, range: BalanceRange)
    requires Valid(ledger) && Accepted(entry) && Accepted(mirror) && mirror.lines == Mirrored(entry.lines)
    requires mirror.branchId == entry.branchId && mirror.idempotencyKey != entry.idempotencyKey
    requires FindByKey(ledger.entries, entry.branchId, entry.idempotencyKey) == None
    requires FindByKey(ledger.entries, entry.branchId, mirror.idempotencyKey) == None
    requires range.Contains(entry.occurredAt) && range.Contains(mirror.occurredAt)
    ensures Balance(Post(Post(ledger, entry).0, mirror).0, branch, code, range) == Balance(ledger, branch, code, range)
  {
    PostKeepsValid(ledger, entry);
    FindAppend(ledger.entries, NewEntry(entry, ledger.nextEntryId), entry.branchId, mirror.idempotencyKey, 0);
    PostMovesBalance(ledger, entry, branch, code, range);
    PostMovesBalance(Post(ledger, entry).0, mirror, branch, code, range);
    MirrorSums(entry.lines, code);
    Opposite(InputNetOn(entry.lines, code), NormalBalanceSign(code));
  }

  lemma Opposite(x: int, sign: int)
    ensures -x * sign == -(x * sign)
  {
  }
}
