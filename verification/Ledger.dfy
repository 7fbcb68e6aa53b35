/**
 The ledger as a value, and the posting engine's operations on it: what `post`, `reverse` and
 `balance` do to the two tables. GeneralLedgerService.dfy gives the class that does it in place.
 */
module Ledger {
  import opened Outcomes
  import opened Money
  import opened ChartOfAccounts
  import opened Journal

  /** The two tables and the next value of the entry-id sequence. */
  datatype Books = Books(entries: seq<Entry>, lines: seq<Line>, nextEntryId: nat)

  const EMPTY := Books([], [], 1)

  // ----- assertBalanced -----

  /** Debit and credit totals may differ by at most half a cent. */
  const BALANCE_TOLERANCE: real := 0.5

  datatype PostError =
    | MissingIdempotencyKey
    | TooFewLines
    | UnknownAccount(code: GlAccountCode)
    | NegativeAmount
    | BothSides
    | Unbalanced(debit: real, credit: real)
    | ZeroTotal

  function LineError(line: LineInput): Option<PostError> {
    var debit, credit := Amount(line.debit), Amount(line.credit);
    if !IsGlAccountCode(line.accountCode) then Some(UnknownAccount(line.accountCode))
    else if debit < 0.0 || credit < 0.0 then Some(NegativeAmount)
    else if debit > 0.0 && credit > 0.0 then Some(BothSides)
    else None
  }

  function FirstLineError(lines: seq<LineInput>): Option<PostError> {
    if lines == [] then None
    else if LineError(lines[0]).Some? then LineError(lines[0])
    else FirstLineError(lines[1..])
  }

  function InputDebits(lines: seq<LineInput>): real {
    if lines == [] then 0.0 else Amount(lines[0].debit) + InputDebits(lines[1..])
  }

  function InputCredits(lines: seq<LineInput>): real {
    if lines == [] then 0.0 else Amount(lines[0].credit) + InputCredits(lines[1..])
  }

  function BalanceError(input: PostInput): Option<PostError> {
    if input.idempotencyKey == "" then Some(MissingIdempotencyKey)
    else if |input.lines| < 2 then Some(TooFewLines)
    else if FirstLineError(input.lines).Some? then FirstLineError(input.lines)
    else
      var debit, credit := InputDebits(input.lines), InputCredits(input.lines);
      if AbsReal(debit - credit) > BALANCE_TOLERANCE then Some(Unbalanced(debit, credit))
      else if debit == 0.0 then Some(ZeroTotal)
      else None
  }

  predicate Accepted(input: PostInput) {
    BalanceError(input) == None
  }

  predicate GoodLine(line: LineInput) {
    && IsGlAccountCode(line.accountCode)
    && Amount(line.debit) >= 0.0
    && Amount(line.credit) >= 0.0
    && (Amount(line.debit) == 0.0 || Amount(line.credit) == 0.0)
  }

  lemma {:induction false} NoLineErrorIff(lines: seq<LineInput>)
    ensures FirstLineError(lines) == None <==> forall k :: 0 <= k < |lines| ==> GoodLine(lines[k])
  {
    if lines != [] {
      NoLineErrorIff(lines[1..]);
      assert GoodLine(lines[0]) <==> LineError(lines[0]) == None;
      assert forall k :: 1 <= k < |lines| ==> lines[k] == lines[1..][k - 1];
    }
  }

  /** What it takes to be accepted, in one sentence and in no order. */
  lemma AcceptedIff(input: PostInput)
    ensures Accepted(input) <==>
      && input.idempotencyKey != ""
      && |input.lines| >= 2
      && (forall k :: 0 <= k < |input.lines| ==> GoodLine(input.lines[k]))
      && -0.5 <= InputDebits(input.lines) - InputCredits(input.lines) <= 0.5
      && InputDebits(input.lines) != 0.0
  {
    NoLineErrorIff(input.lines);
  }

  /** The k-th line is the first one that is not in order. */
  ghost predicate FirstBad(lines: seq<LineInput>, k: nat) {
    k < |lines| && !GoodLine(lines[k]) && forall j :: 0 <= j < k ==> GoodLine(lines[j])
  }

  lemma {:induction false} FirstErrorIsFirstBad(lines: seq<LineInput>, k: nat)
    requires FirstBad(lines, k)
    ensures FirstLineError(lines) == LineError(lines[k])
  {
    if k > 0 {
      assert GoodLine(lines[0]) && forall j :: 0 <= j < k - 1 ==> lines[1..][j] == lines[j + 1];
      FirstErrorIsFirstBad(lines[1..], k - 1);
    }
  }

  lemma {:induction false} LineErrorKinds(lines: seq<LineInput>)
    requires FirstLineError(lines).Some?
    ensures var error := FirstLineError(lines).value;
            error.UnknownAccount? || error.NegativeAmount? || error.BothSides?
  {
    if LineError(lines[0]).None? {
      LineErrorKinds(lines[1..]);
    }
  }

  /** Which error a request gets before its lines are looked at: the key first, then the number of lines. */
  lemma ErrorOfRequest(input: PostInput)
    ensures BalanceError(input) == Some(MissingIdempotencyKey) <==> |input.idempotencyKey| == 0
    ensures BalanceError(input) == Some(TooFewLines) <==> |input.idempotencyKey| > 0 && |input.lines| < 2
  {
    if FirstLineError(input.lines).Some? {
      LineErrorKinds(input.lines);
    }
  }

  /** With a key and two lines, the first line that is not in order decides. */
  lemma ErrorOfFirstBadLine(input: PostInput, k: nat)
    requires |input.idempotencyKey| > 0 && |input.lines| >= 2 && FirstBad(input.lines, k)
    ensures var line := input.lines[k];
            BalanceError(input) == Some(
              if line.accountCode.Unknown? then UnknownAccount(line.accountCode)
              else if Amount(line.debit) < 0.0 || Amount(line.credit) < 0.0 then NegativeAmount
              else BothSides)
  {
    FirstErrorIsFirstBad(input.lines, k);
  }

  /** With every line in order, the totals do: apart by more than half a cent, or both nothing. */
  lemma ErrorOfTotals(input: PostInput)
    requires |input.idempotencyKey| > 0 && |input.lines| >= 2
    requires forall k :: 0 <= k < |input.lines| ==> GoodLine(input.lines[k])
    ensures var debit, credit := InputDebits(input.lines), InputCredits(input.lines);
            BalanceError(input) == if debit - credit > 0.5 || credit - debit > 0.5 then Some(Unbalanced(debit, credit))
                                   else if debit == 0.0 then Some(ZeroTotal) else None
  {
    NoLineErrorIff(input.lines);
  }

  // ----- Lookups in the entry table -----

  function FindByKey(entries: seq<Entry>, branch: int, key: string): Option<Entry> {
    if entries == [] then None
    else if entries[0].branchId == branch && entries[0].idempotencyKey == key then Some(entries[0])
    else FindByKey(entries[1..], branch, key)
  }

  function FindById(entries: seq<Entry>, id: nat): Option<Entry> {
    if entries == [] then None
    else if entries[0].id == id then Some(entries[0])
    else FindById(entries[1..], id)
  }

  lemma {:induction false} FindByKeySound(entries: seq<Entry>, branch: int, key: string)
    ensures var found := FindByKey(entries, branch, key);
            if found.Some?
            then found.value in entries && found.value.branchId == branch && found.value.idempotencyKey == key
            else forall e :: e in entries ==> e.branchId != branch || e.idempotencyKey != key
  {
    if entries != [] {
      FindByKeySound(entries[1..], branch, key);
    }
  }

  lemma {:induction false} FindByIdSound(entries: seq<Entry>, id: nat)
    ensures var found := FindById(entries, id);
            if found.Some? then found.value in entries && found.value.id == id
            else forall e :: e in entries ==> e.id != id
  {
    if entries != [] {
      FindByIdSound(entries[1..], id);
    }
  }

  lemma {:induction false} FindAppend(entries: seq<Entry>, e: Entry, branch: int, key: string, id: nat)
    ensures FindByKey(entries + [e], branch, key) ==
            (if FindByKey(entries, branch, key).Some? then FindByKey(entries, branch, key)
             else if e.branchId == branch && e.idempotencyKey == key then Some(e) else None)
    ensures FindById(entries + [e], id) ==
            (if FindById(entries, id).Some? then FindById(entries, id)
             else if e.id == id then Some(e) else None)
  {
    if entries != [] {
      assert (entries + [e])[1..] == entries[1..] + [e];
      FindAppend(entries[1..], e, branch, key, id);
    }
  }

  // ----- post -----

  function CurrencyOrDefault(currency: Option<string>): string {
    if currency.None? || currency.value == "" then "ETB" else currency.value
  }

  /** The rows the engine writes for the requested lines: zero legs dropped, each amount rounded. */
  function StoredLines(lines: seq<LineInput>, entry: Entry): seq<Line> {
    if lines == [] then []
    else
      var debit, credit := Amount(lines[0].debit), Amount(lines[0].credit);
      (if debit > 0.0 || credit > 0.0
       then [Line(entry.id, entry.branchId, lines[0].accountCode, Round2(debit), Round2(credit),
                  entry.occurredAt, entry.currency)]
       else [])
      + StoredLines(lines[1..], entry)
  }

  function NewEntry(input: PostInput, id: nat): Entry {
    Entry(id, input.branchId, input.occurredAt, input.idempotencyKey, CurrencyOrDefault(input.currency), None, None)
  }

  function Insert(ledger: Books, entry: Entry, lines: seq<Line>): Books {
    Books(ledger.entries + [entry], ledger.lines + lines, ledger.nextEntryId + 1)
  }

  function PostWithin(ledger: Books, input: PostInput): (Books, Entry) {
    var existing := FindByKey(ledger.entries, input.branchId, input.idempotencyKey);
    if existing.Some? then (ledger, existing.value)
    else
      var entry := NewEntry(input, ledger.nextEntryId);
      (Insert(ledger, entry, StoredLines(input.lines, entry)), entry)
  }

  function Post(ledger: Books, input: PostInput): (Books, Result<Entry, PostError>) {
    var error := BalanceError(input);
    if error.Some? then (ledger, Failure(error.value))
    else
      var (next, entry) := PostWithin(ledger, input);
      (next, Success(entry))
  }

  // ----- reverse -----

  datatype ReverseInput = ReverseInput(entryId: nat, idempotencyKey: string, occurredAt: int)

  function LinesOf(lines: seq<Line>, id: nat): seq<Line> {
    Select(lines, ByEntry(id))
  }

  function Swapped(lines: seq<Line>, id: nat, date: int): (swapped: seq<Line>)
    ensures |swapped| == |lines|
  {
    seq(|lines|, k requires 0 <= k < |lines| =>
      lines[k].(entryId := id, debit := lines[k].credit, credit := lines[k].debit, occurredAt := date))
  }

  function MarkReversed(entries: seq<Entry>, id: nat, reversalId: nat): (marked: seq<Entry>)
    ensures |marked| == |entries|
  {
    seq(|entries|, i requires 0 <= i < |entries| =>
      if entries[i].id == id then entries[i].(reversedByEntryId := Some(reversalId)) else entries[i])
  }

  function ReversalOf(original: Entry, opts: ReverseInput, id: nat): Entry {
    Entry(id, original.branchId, opts.occurredAt, opts.idempotencyKey, original.currency, Some(opts.entryId), None)
  }

  function Reverse(ledger: Books, opts: ReverseInput): (Books, Option<Entry>) {
    var original := FindById(ledger.entries, opts.entryId);
    if original.None? then (ledger, None)
    else
      var already := FindByKey(ledger.entries, original.value.branchId, opts.idempotencyKey);
      if already.Some? then (ledger, already)
      else
        var reversal := ReversalOf(original.value, opts, ledger.nextEntryId);
        var swapped := Swapped(LinesOf(ledger.lines, opts.entryId), reversal.id, opts.occurredAt);
        var inserted := Insert(ledger, reversal, swapped);
        (inserted.(entries := MarkReversed(inserted.entries, opts.entryId, reversal.id)), Some(reversal))
  }

  /** A reversal of an entry that is there, under a key that is not. */
  lemma FreshReverse(ledger: Books, opts: ReverseInput, original: Entry)
    requires FindById(ledger.entries, opts.entryId) == Some(original)
    requires FindByKey(ledger.entries, original.branchId, opts.idempotencyKey) == None
    ensures var reversal := ReversalOf(original, opts, ledger.nextEntryId);
            Reverse(ledger, opts).0
            == Books(MarkReversed(ledger.entries + [reversal], opts.entryId, reversal.id),
                     ledger.lines + Swapped(LinesOf(ledger.lines, opts.entryId), reversal.id, opts.occurredAt),
                     ledger.nextEntryId + 1)
  {
  }

  // ----- balance and accountTotals -----

  function Balance(ledger: Books, branch: int, code: GlAccountCode, range: BalanceRange): int {
    Net(Select(ledger.lines, ByAccount(branch, code, range))) * NormalBalanceSign(code)
  }

  datatype Totals = Totals(debit: int, credit: int)

  /** `SELECT accountCode, SUM(debit), SUM(credit) ... GROUP BY accountCode`. */
  function AccountTotals(ledger: Books, branch: int, range: BalanceRange): map<GlAccountCode, Totals> {
    var lines := Select(ledger.lines, ByBranch(branch, range));
    map code | code in (set line | line in lines :: line.accountCode) ::
      var rows := Select(lines, ByAccount(branch, code, ALWAYS));
      Totals(Debits(rows), Credits(rows))
  }

  // ----- Runs -----

  datatype Op = PostOp(input: PostInput) | ReverseOp(opts: ReverseInput)

  function Step(ledger: Books, op: Op): Books {
    match op
    case PostOp(input) => Post(ledger, input).0
    case ReverseOp(opts) => Reverse(ledger, opts).0
  }

  function Run(ledger: Books, ops: seq<Op>): Books
    decreases |ops|
  {
    if ops == [] then ledger else Run(Step(ledger, ops[0]), ops[1..])
  }

  predicate WholeCentLines(lines: seq<LineInput>) {
    forall k :: 0 <= k < |lines| ==> WholeCents(Amount(lines[k].debit)) && WholeCents(Amount(lines[k].credit))
  }

  /** Every amount posted in the run is a whole number of cents. */
  predicate WholeCentOps(ops: seq<Op>) {
    forall k :: 0 <= k < |ops| ==> ops[k].PostOp? ==> WholeCentLines(ops[k].input.lines)
  }
}
