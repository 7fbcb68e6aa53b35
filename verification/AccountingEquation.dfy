/**
 The accounting equation over every run: assets (less contra assets) plus expenses equal
 liabilities plus equity plus revenue, as `balance` reports them, for every branch and window.
 */
module AccountingEquation {
  import opened Outcomes
  import opened Money
  import opened ChartOfAccounts
  import opened Journal
  import opened Ledger
  import opened LedgerInvariant
  import opened Posting

  // ----- The equation -----

  /** The sum of the balances of the accounts of one type and contra flag. */
  function SumOf(
    seed: seq<GlAccountSeed>, ledger: Books, branch: int, range: BalanceRange, kind: GlAccountType, contra: bool)
    : int
  {
    if seed == [] then 0
    else (if seed[0].kind == kind && seed[0].contra == contra then Balance(ledger, branch, seed[0].code, range) else 0)
         + SumOf(seed[1..], ledger, branch, range, kind, contra)
  }

  /** Left side minus right side of the accounting equation, over a part of the chart. */
  function Gap(seed: seq<GlAccountSeed>, ledger: Books, branch: int, range: BalanceRange): int {
    SumOf(seed, ledger, branch, range, Asset, false) - SumOf(seed, ledger, branch, range, Asset, true)
    + SumOf(seed, ledger, branch, range, Expense, false)
    - SumOf(seed, ledger, branch, range, Liability, false)
    - SumOf(seed, ledger, branch, range, Equity, false)
    - SumOf(seed, ledger, branch, range, Revenue, false)
  }

  // ----- The gap is the net of the window -----

  function NetOver(seed: seq<GlAccountSeed>, lines: seq<Line>, branch: int, range: BalanceRange): int {
    if seed == [] then 0
    else Net(Select(lines, ByAccount(branch, seed[0].code, range))) + NetOver(seed[1..], lines, branch, range)
  }

  ghost predicate Covers(seed: seq<GlAccountSeed>, code: GlAccountCode) {
    exists i :: 0 <= i < |seed| && seed[i].code == code
  }

  ghost predicate SignsDisciplined(seed: seq<GlAccountSeed>) {
    forall i :: 0 <= i < |seed| ==>
      && Disciplined(seed[i])
      && NormalBalanceSign(seed[i].code) == if CreditSide(seed[i].kind) != seed[i].contra then -1 else 1
  }

  /** By the sign discipline each account enters the gap with its raw debit minus credit. */
  lemma {:induction false} GapIsNet(seed: seq<GlAccountSeed>, ledger: Books, branch: int, range: BalanceRange)
    requires SignsDisciplined(seed)
    ensures Gap(seed, ledger, branch, range) == NetOver(seed, ledger.lines, branch, range)
  {
    if seed != [] {
      GapIsNet(seed[1..], ledger, branch, range);
      var net := Net(Select(ledger.lines, ByAccount(branch, seed[0].code, range)));
      assert Disciplined(seed[0]);
      assert Balance(ledger, branch, seed[0].code, range) == net * NormalBalanceSign(seed[0].code);
      assert net * 1 == net && net * -1 == -net;
    }
  }

  /** A line counts once among distinct accounts, and only if its own is there. */
  lemma {:induction false} NetOverCons(
    seed: seq<GlAccountSeed>, line: Line, lines: seq<Line>, branch: int, range: BalanceRange)
    requires DistinctCodes(seed)
    ensures NetOver(seed, [line] + lines, branch, range)
            == NetOver(seed, lines, branch, range)
               + (if ByBranch(branch, range).Matches(line) && Covers(seed, line.accountCode)
                  then line.debit - line.credit else 0)
  {
    if seed != [] {
      NetOverCons(seed[1..], line, lines, branch, range);
      var q := ByAccount(branch, seed[0].code, range);
      assert ([line] + lines)[1..] == lines;
      if q.Matches(line) {
        SumsCons(line, Select(lines, q), line.accountCode);
        assert forall i :: 0 <= i < |seed[1..]| ==> seed[1..][i] == seed[i + 1];
        assert seed[0].code == line.accountCode;
      } else if Covers(seed, line.accountCode) {
        var i :| 0 <= i < |seed| && seed[i].code == line.accountCode;
        if ByBranch(branch, range).Matches(line) {
          assert seed[1..][i - 1].code == line.accountCode;
        }
      }
    }
  }

  lemma {:induction false} NetOverIsWindowNet(
    seed: seq<GlAccountSeed>, lines: seq<Line>, branch: int, range: BalanceRange)
    requires DistinctCodes(seed)
    requires forall k :: 0 <= k < |lines| ==> Covers(seed, lines[k].accountCode)
    ensures NetOver(seed, lines, branch, range) == Net(Select(lines, ByBranch(branch, range)))
  {
    if lines == [] {
      NetOverNothing(seed, branch, range);
    } else {
      NetOverIsWindowNet(seed, lines[1..], branch, range);
      NetOverCons(seed, lines[0], lines[1..], branch, range);
      assert lines == [lines[0]] + lines[1..];
      SumsCons(lines[0], Select(lines[1..], ByBranch(branch, range)), Cash);
    }
  }

  lemma {:induction false} NetOverNothing(seed: seq<GlAccountSeed>, branch: int, range: BalanceRange)
    ensures NetOver(seed, [], branch, range) == 0
  {
    if seed != [] {
      NetOverNothing(seed[1..], branch, range);
    }
  }

  lemma SeedCovers(ledger: Books)
    requires Valid(ledger)
    ensures DistinctCodes(GL_ACCOUNT_SEED)
    ensures forall k :: 0 <= k < |ledger.lines| ==> Covers(GL_ACCOUNT_SEED, ledger.lines[k].accountCode)
  {
    SeedIsDisciplined();
    forall k | 0 <= k < |ledger.lines|
      ensures Covers(GL_ACCOUNT_SEED, ledger.lines[k].accountCode)
    {
      LookupIsExact(ledger.lines[k].accountCode);
      SeedAt(ledger.lines[k].accountCode);
    }
  }

  /** In any valid ledger, the equation is off by exactly the net of the lines in the window. */
  lemma GapIsWindowNet(ledger: Books, branch: int, range: BalanceRange)
    requires Valid(ledger)
    ensures Gap(GL_ACCOUNT_SEED, ledger, branch, range) == Net(Select(ledger.lines, ByBranch(branch, range)))
  {
    SeedIsDisciplined();
    forall i | 0 <= i < |GL_ACCOUNT_SEED|
      ensures NormalBalanceSign(GL_ACCOUNT_SEED[i].code)
              == if CreditSide(GL_ACCOUNT_SEED[i].kind) != GL_ACCOUNT_SEED[i].contra then -1 else 1
    {
      SignDiscipline(i);
    }
    GapIsNet(GL_ACCOUNT_SEED, ledger, branch, range);
    SeedCovers(ledger);
    NetOverIsWindowNet(GL_ACCOUNT_SEED, ledger.lines, branch, range);
  }

  // ----- What every run keeps -----

  function EntriesIn(entries: seq<Entry>, branch: int, range: BalanceRange): nat {
    if entries == [] then 0
    else (if entries[0].branchId == branch && range.Contains(entries[0].occurredAt) then 1 else 0)
         + EntriesIn(entries[1..], branch, range)
  }

  lemma {:induction false} EntriesInAppend(entries: seq<Entry>, e: Entry, branch: int, range: BalanceRange)
    ensures EntriesIn(entries + [e], branch, range)
            == EntriesIn(entries, branch, range)
               + (if e.branchId == branch && range.Contains(e.occurredAt) then 1 else 0)
  {
    if entries == [] {
      assert entries + [e] == [e];
    } else {
      assert (entries + [e])[1..] == entries[1..] + [e];
      EntriesInAppend(entries[1..], e, branch, range);
    }
  }

  lemma {:induction false} EntriesInMarked(
    entries: seq<Entry>, id: nat, reversalId: nat, branch: int, range: BalanceRange)
    ensures EntriesIn(MarkReversed(entries, id, reversalId), branch, range) == EntriesIn(entries, branch, range)
  {
    if entries != [] {
      assert MarkReversed(entries, id, reversalId)[1..] == MarkReversed(entries[1..], id, reversalId);
      EntriesInMarked(entries[1..], id, reversalId, branch, range);
    }
  }

  /** How far from balance one entry's stored lines may be: nothing, or the rounding bound. */
  predicate Tolerable(exact: bool, block: seq<Line>) {
    if exact then Net(block) == 0 else 2 * Abs(Net(block)) <= |block| + 1
  }

  ghost predicate EntriesTolerable(exact: bool, ledger: Books) {
    forall i :: 0 <= i < |ledger.entries| ==> Tolerable(exact, LinesOf(ledger.lines, ledger.entries[i].id))
  }

  predicate WindowTolerable(exact: bool, ledger: Books, branch: int, range: BalanceRange) {
    var window := Select(ledger.lines, ByBranch(branch, range));
    if exact then Net(window) == 0
    else 2 * Abs(Net(window)) <= |window| + EntriesIn(ledger.entries, branch, range)
  }

  ghost predicate InBalance(exact: bool, ledger: Books) {
    && Valid(ledger)
    && EntriesTolerable(exact, ledger)
    && forall branch, range :: WindowTolerable(exact, ledger, branch, range)
  }

  lemma InsertKeepsBalance(exact: bool, ledger: Books, entry: Entry, block: seq<Line>, next: Books)
    requires InBalance(exact, ledger) && entry.id == ledger.nextEntryId
    requires BlockOk(entry, block) && Tolerable(exact, block)
    requires next.lines == ledger.lines + block
    requires next.entries == ledger.entries + [entry]
             || exists o :: next.entries == MarkReversed(ledger.entries + [entry], o, entry.id)
    ensures EntriesTolerable(exact, next)
    ensures forall branch, range :: WindowTolerable(exact, next, branch, range)
  {
    var entries := next.entries;
    assert |entries| == |ledger.entries| + 1;
    forall i | 0 <= i < |entries|
      ensures Tolerable(exact, LinesOf(next.lines, entries[i].id))
    {
      assert entries[i].id == (ledger.entries + [entry])[i].id;
      InsertLines(ledger, entry, block, entries[i].id);
      assert i < |ledger.entries| ==> Tolerable(exact, LinesOf(ledger.lines, ledger.entries[i].id));
    }
    forall branch, range: BalanceRange
      ensures WindowTolerable(exact, next, branch, range)
    {
      assert WindowTolerable(exact, ledger, branch, range);
      SelectAppend(ledger.lines, block, ByBranch(branch, range));
      SelectBlockByBranch(block, entry.id, entry.branchId, entry.occurredAt, branch, range);
      SumsAppend(Select(ledger.lines, ByBranch(branch, range)), Select(block, ByBranch(branch, range)));
      EntriesInAppend(ledger.entries, entry, branch, range);
      if entries != ledger.entries + [entry] {
        var o :| entries == MarkReversed(ledger.entries + [entry], o, entry.id);
        EntriesInMarked(ledger.entries + [entry], o, entry.id, branch, range);
      }
    }
  }

  lemma PostKeepsBalance(exact: bool, ledger: Books, input: PostInput)
    requires InBalance(exact, ledger) && (exact ==> WholeCentLines(input.lines))
    ensures InBalance(exact, Post(ledger, input).0)
  {
    PostKeepsValid(ledger, input);
    if Accepted(input) && FindByKey(ledger.entries, input.branchId, input.idempotencyKey) == None {
      var entry := NewEntry(input, ledger.nextEntryId);
      var block := StoredLines(input.lines, entry);
      StoredLinesBlock(input.lines, entry);
      RoundingBound(input, entry.id);
      if exact { WholeCentsBalance(input, entry.id); }
      InsertKeepsBalance(exact, ledger, entry, block, Post(ledger, input).0);
    }
  }

  lemma {:induction false} SwappedSums(lines: seq<Line>, id: nat, date: int, code: GlAccountCode)
    ensures Debits(Swapped(lines, id, date)) == Credits(lines)
    ensures Credits(Swapped(lines, id, date)) == Debits(lines)
    ensures NetOn(Swapped(lines, id, date), code) == -NetOn(lines, code)
  {
    if lines != [] {
      assert Swapped(lines, id, date)[1..] == Swapped(lines[1..], id, date);
      SwappedSums(lines[1..], id, date, code);
    }
  }

  lemma ReverseKeepsBalance(exact: bool, ledger: Books, opts: ReverseInput)
    requires InBalance(exact, ledger)
    ensures InBalance(exact, Reverse(ledger, opts).0)
  {
    ReverseKeepsValid(ledger, opts);
    var original := FindById(ledger.entries, opts.entryId);
    if original.Some? && FindByKey(ledger.entries, original.value.branchId, opts.idempotencyKey) == None {
      var i := FoundAt(ledger.entries, opts.entryId);
      var reversal := ReversalOf(original.value, opts, ledger.nextEntryId);
      var source := LinesOf(ledger.lines, opts.entryId);
      var block := Swapped(source, reversal.id, opts.occurredAt);
      assert Tolerable(exact, LinesOf(ledger.lines, ledger.entries[i].id));
      SwappedBlock(ledger, i, reversal);
      SwappedSums(source, reversal.id, opts.occurredAt, Cash);
      InsertKeepsBalance(exact, ledger, reversal, block, Reverse(ledger, opts).0);
    }
  }

  lemma {:induction false} RunKeepsBalance(exact: bool, ledger: Books, ops: seq<Op>)
    requires InBalance(exact, ledger) && (exact ==> WholeCentOps(ops))
    ensures InBalance(exact, Run(ledger, ops))
    decreases |ops|
  {
    if ops != [] {
      match ops[0] {
        case PostOp(input) => PostKeepsBalance(exact, ledger, input);
        case ReverseOp(opts) => ReverseKeepsBalance(exact, ledger, opts);
      }
      RunKeepsBalance(exact, Step(ledger, ops[0]), ops[1..]);
    }
  }

  lemma EmptyInBalance(exact: bool)
    ensures InBalance(exact, EMPTY)
  {
  }

  // ----- The theorems -----

  /** Whole-cent runs satisfy the accounting equation exactly, for every branch and every window. */
  lemma AccountingEquationHolds(ops: seq<Op>, branch: int, range: BalanceRange)
    requires WholeCentOps(ops)
    ensures var ledger := Run(EMPTY, ops);
            SumOf(GL_ACCOUNT_SEED, ledger, branch, range, Asset, false)
            - SumOf(GL_ACCOUNT_SEED, ledger, branch, range, Asset, true)
            + SumOf(GL_ACCOUNT_SEED, ledger, branch, range, Expense, false)
            == SumOf(GL_ACCOUNT_SEED, ledger, branch, range, Liability, false)
               + SumOf(GL_ACCOUNT_SEED, ledger, branch, range, Equity, false)
               + SumOf(GL_ACCOUNT_SEED, ledger, branch, range, Revenue, false)
  {
    EmptyInBalance(true);
    RunKeepsBalance(true, EMPTY, ops);
    var ledger := Run(EMPTY, ops);
    assert WindowTolerable(true, ledger, branch, range);
    GapIsWindowNet(ledger, branch, range);
  }

  /**
   Any run at all, sub-cent amounts included: the equation is off by at most half a cent
   for each line and each entry in the window.
   */
  lemma AccountingEquationBound(ops: seq<Op>, branch: int, range: BalanceRange)
    ensures var ledger := Run(EMPTY, ops);
            2 * Abs(Gap(GL_ACCOUNT_SEED, ledger, branch, range))
            <= |Select(ledger.lines, ByBranch(branch, range))| + EntriesIn(ledger.entries, branch, range)
  {
    EmptyInBalance(false);
    RunKeepsBalance(false, EMPTY, ops);
    var ledger := Run(EMPTY, ops);
    assert WindowTolerable(false, ledger, branch, range);
    GapIsWindowNet(ledger, branch, range);
  }
}
