/**
 Reversal: its effect on every balance, that it is the exact inverse of the entry it reverses,
 and what keeps an entry from being reversed twice.
 */
module Reversal {
  import opened Outcomes
  import opened ChartOfAccounts
  import opened Arithmetic
  import opened Journal
  import opened Ledger
  import opened LedgerInvariant
  import opened Posting
  import opened AccountingEquation

  /** The call creates a reversal: the entry exists and the key is unused in its branch. */
  predicate Fresh(ledger: Books, opts: ReverseInput) {
    var original := FindById(ledger.entries, opts.entryId);
    original.Some? && FindByKey(ledger.entries, original.value.branchId, opts.idempotencyKey) == None
  }

  // ----- The effect of one reversal -----

  /** What the entry's own lines contribute to a balance, whatever the window. */
  function Effect(ledger: Books, id: nat, code: GlAccountCode): int {
    NetOn(LinesOf(ledger.lines, id), code) * NormalBalanceSign(code)
  }

  /** A fresh reversal takes the entry's effect off each balance of its branch, in windows holding its date. */
  lemma ReverseMovesBalance(ledger: Books, opts: ReverseInput, branch: int, code: GlAccountCode, range: BalanceRange)
    requires Valid(ledger) && Fresh(ledger, opts)
    ensures var original := FindById(ledger.entries, opts.entryId).value;
            Balance(Reverse(ledger, opts).0, branch, code, range)
            == Balance(ledger, branch, code, range)
               - (if branch == original.branchId && range.Contains(opts.occurredAt)
                  then Effect(ledger, opts.entryId, code) else 0)
  {
    var i := FoundAt(ledger.entries, opts.entryId);
    var reversal := ReversalOf(ledger.entries[i], opts, ledger.nextEntryId);
    var source := LinesOf(ledger.lines, opts.entryId);
    SwappedBlock(ledger, i, reversal);
    SwappedSums(source, reversal.id, opts.occurredAt, code);
    InsertMovesBalance(ledger, reversal, Swapped(source, reversal.id, opts.occurredAt), branch, code, range);
    var before := Net(Select(ledger.lines, ByAccount(branch, code, range)));
    Distribute(before, -NetOn(source, code), NormalBalanceSign(code));
    assert -NetOn(source, code) * NormalBalanceSign(code) == -Effect(ledger, opts.entryId, code);
  }

  /** The reversal's own effect is the opposite of its original's; the original's stays what it was. */
  lemma ReversalEffects(ledger: Books, opts: ReverseInput, code: GlAccountCode)
    requires Valid(ledger) && Fresh(ledger, opts)
    ensures var (next, reversal) := Reverse(ledger, opts);
            && Effect(next, reversal.value.id, code) == -Effect(ledger, opts.entryId, code)
            && Effect(next, opts.entryId, code) == Effect(ledger, opts.entryId, code)
  {
    var i := FoundAt(ledger.entries, opts.entryId);
    var reversal := ReversalOf(ledger.entries[i], opts, ledger.nextEntryId);
    var source := LinesOf(ledger.lines, opts.entryId);
    var block := Swapped(source, reversal.id, opts.occurredAt);
    SwappedBlock(ledger, i, reversal);
    SwappedSums(source, reversal.id, opts.occurredAt, code);
    InsertLines(ledger, reversal, block, reversal.id);
    InsertLines(ledger, reversal, block, opts.entryId);
    assert -NetOn(source, code) * NormalBalanceSign(code) == -Effect(ledger, opts.entryId, code);
  }

  // ----- A post and its reversal, on the requests alone -----

  lemma PostedEffect(ledger: Books, input: PostInput, code: GlAccountCode)
    requires Valid(ledger) && Accepted(input)
    requires FindByKey(ledger.entries, input.branchId, input.idempotencyKey) == None
    ensures Effect(Post(ledger, input).0, ledger.nextEntryId, code)
            == InputNetOn(input.lines, code) * NormalBalanceSign(code)
    ensures var next := Post(ledger, input).0;
            Valid(next) && FindById(next.entries, ledger.nextEntryId) == Some(NewEntry(input, ledger.nextEntryId))
  {
    var entry := NewEntry(input, ledger.nextEntryId);
    PostKeepsValid(ledger, input);
    StoredLinesBlock(input.lines, entry);
    InsertLines(ledger, entry, StoredLines(input.lines, entry), entry.id);
    StoredNetOn(input.lines, entry, code);
    FindByIdSound(ledger.entries, entry.id);
    FindAppend(ledger.entries, entry, 0, "", entry.id);
  }

  /**
   A fresh post dated d, reversed under another key with date r: a bounded balance keeps the post's net when it holds d
   and not r, loses it when it holds r and not d, and is as before otherwise.
   */
  lemma ReversingAPostUndoesIt(
    ledger: Books, input: PostInput, key: string, date: int, code: GlAccountCode, from: int, to: int)
    requires Valid(ledger) && Accepted(input) && key != input.idempotencyKey
    requires FindByKey(ledger.entries, input.branchId, input.idempotencyKey) == None
    requires FindByKey(ledger.entries, input.branchId, key) == None
    ensures var moved := InputNetOn(input.lines, code) * NormalBalanceSign(code);
            var end := Reverse(Post(ledger, input).0, ReverseInput(ledger.nextEntryId, key, date)).0;
            var between, upTo := BalanceRange(Some(from), Some(to)), AsOf(to);
            var since, always := BalanceRange(Some(from), None), BalanceRange(None, None);
            && Balance(end, input.branchId, code, between) == Balance(ledger, input.branchId, code, between)
                 + (if from <= input.occurredAt <= to then moved else 0) - (if from <= date <= to then moved else 0)
            && Balance(end, input.branchId, code, upTo) == Balance(ledger, input.branchId, code, upTo)
                 + (if input.occurredAt <= to then moved else 0) - (if date <= to then moved else 0)
            && Balance(end, input.branchId, code, since) == Balance(ledger, input.branchId, code, since)
                 + (if from <= input.occurredAt then moved else 0) - (if from <= date then moved else 0)
            && Balance(end, input.branchId, code, always) == Balance(ledger, input.branchId, code, always)
  {
    var next, opts := Post(ledger, input).0, ReverseInput(ledger.nextEntryId, key, date);
    PostedEffect(ledger, input, code);
    FindAppend(ledger.entries, NewEntry(input, ledger.nextEntryId), input.branchId, key, 0);
    PostMovesPeriods(ledger, input, code, from, to);
    ReverseMovesBalance(next, opts, input.branchId, code, BalanceRange(Some(from), Some(to)));
    ReverseMovesBalance(next, opts, input.branchId, code, AsOf(to));
    ReverseMovesBalance(next, opts, input.branchId, code, BalanceRange(Some(from), None));
    ReverseMovesBalance(next, opts, input.branchId, code, BalanceRange(None, None));
  }

  /** The same currency, and the links both ways. */
  lemma ReversalWritesTheRequest(ledger: Books, opts: ReverseInput)
    requires Valid(ledger) && Fresh(ledger, opts)
    ensures var (next, result) := Reverse(ledger, opts);
            var original := FindById(ledger.entries, opts.entryId).value;
            && result.Some? && |next.entries| == |ledger.entries| + 1 && |next.lines| >= |ledger.lines|
            && var e := result.value;
               && next.entries[|ledger.entries|] == e && e.id == ledger.nextEntryId
               && e.branchId == original.branchId && e.currency == original.currency
               && e.occurredAt == opts.occurredAt && e.idempotencyKey == opts.idempotencyKey
               && e.reversesEntryId == Some(opts.entryId) && e.reversedByEntryId == None
               && (forall i :: 0 <= i < |ledger.entries| ==>
                    next.entries[i] == if ledger.entries[i].id != opts.entryId then ledger.entries[i]
                                       else ledger.entries[i].(reversedByEntryId := Some(e.id)))
               && next.lines[..|ledger.lines|] == ledger.lines
               && forall line :: line in next.lines[|ledger.lines|..] ==>
                    && line.entryId == e.id && line.branchId == e.branchId
                    && line.occurredAt == opts.occurredAt && line.currency == original.currency
  {
    var original := FindById(ledger.entries, opts.entryId).value;
    FreshReverse(ledger, opts, original);
    var reversal := ReversalOf(original, opts, ledger.nextEntryId);
    var block := Swapped(LinesOf(ledger.lines, opts.entryId), reversal.id, opts.occurredAt);
    var i := FoundAt(ledger.entries, opts.entryId);
    SwappedBlock(ledger, i, reversal);
    FindByIdSound(ledger.entries, reversal.id);
    assert (ledger.lines + block)[|ledger.lines|..] == block;
  }

  // ----- Exact inverse -----

  /** The line table without the lines of two entries. */
  function Without(lines: seq<Line>, a: nat, b: nat): seq<Line> {
    if lines == [] then []
    else if lines[0].entryId == a || lines[0].entryId == b then Without(lines[1..], a, b)
    else [lines[0]] + Without(lines[1..], a, b)
  }

  lemma {:induction false} WithoutSplits(lines: seq<Line>, a: nat, b: nat, q: Query)
    requires a != b
    ensures Net(Select(lines, q))
            == Net(Select(Without(lines, a, b), q))
               + Net(Select(LinesOf(lines, a), q)) + Net(Select(LinesOf(lines, b), q))
  {
    if lines != [] {
      var head, tail := lines[0], lines[1..];
      WithoutSplits(tail, a, b, q);
      assert lines == [head] + tail;
      NetSelectCons(head, tail, q);
      NetSelectCons(head, Without(tail, a, b), q);
      NetSelectCons(head, LinesOf(tail, a), q);
      NetSelectCons(head, LinesOf(tail, b), q);
    }
  }

  /**
   In every valid ledger, a reversal and its original together contribute nothing to any window that
   holds both dates or neither: the balance is that of the ledger without the two of them.
   */
  lemma ReversedPairCancels(ledger: Books, i: nat, branch: int, code: GlAccountCode, range: BalanceRange)
    requires Valid(ledger) && i < |ledger.entries| && ledger.entries[i].reversesEntryId.Some?
    requires var original := FindById(ledger.entries, ledger.entries[i].reversesEntryId.value);
             original.Some? ==>
               range.Contains(original.value.occurredAt) == range.Contains(ledger.entries[i].occurredAt)
    ensures var reversal := ledger.entries[i];
            Balance(ledger, branch, code, range)
            == Balance(ledger.(lines := Without(ledger.lines, reversal.id, reversal.reversesEntryId.value)),
                       branch, code, range)
  {
    var reversal := ledger.entries[i];
    var o := reversal.reversesEntryId.value;
    assert ReversesOk(ledger.entries, reversal);
    var j := FoundAt(ledger.entries, o);
    var original := ledger.entries[j];
    var q := ByAccount(branch, code, range);
    WithoutSplits(ledger.lines, reversal.id, o, q);
    LinesOfUniform(ledger, i);
    LinesOfUniform(ledger, j);
    NetBlockByAccount(LinesOf(ledger.lines, o), o, original.branchId, original.occurredAt, branch, code, range);
    NetBlockByAccount(LinesOf(ledger.lines, reversal.id), reversal.id, reversal.branchId, reversal.occurredAt,
                      branch, code, range);
    SwappedSums(LinesOf(ledger.lines, o), reversal.id, reversal.occurredAt, code);
  }

  /** A fresh reversal restores, in windows holding both, the ledger that never had the entry. */
  lemma ReverseIsExactInverse(ledger: Books, opts: ReverseInput, branch: int, code: GlAccountCode, range: BalanceRange)
    requires Valid(ledger) && Fresh(ledger, opts)
    requires range.Contains(FindById(ledger.entries, opts.entryId).value.occurredAt) && range.Contains(opts.occurredAt)
    ensures Balance(Reverse(ledger, opts).0, branch, code, range)
            == Balance(ledger.(lines := Without(ledger.lines, opts.entryId, ledger.nextEntryId)), branch, code, range)
  {
    ReverseMovesBalance(ledger, opts, branch, code, range);
    var i := FoundAt(ledger.entries, opts.entryId);
    WithoutEntry(ledger, i, branch, code, range);
  }

  /** Without the lines of an entry, its effect is gone from the windows of its branch that hold its date. */
  lemma WithoutEntry(ledger: Books, i: nat, branch: int, code: GlAccountCode, range: BalanceRange)
    requires Valid(ledger) && i < |ledger.entries| && range.Contains(ledger.entries[i].occurredAt)
    ensures var e := ledger.entries[i];
            Balance(ledger, branch, code, range)
            == Balance(ledger.(lines := Without(ledger.lines, e.id, ledger.nextEntryId)), branch, code, range)
               + (if branch == e.branchId then Effect(ledger, e.id, code) else 0)
  {
    var e, q := ledger.entries[i], ByAccount(branch, code, range);
    var source := LinesOf(ledger.lines, e.id);
    WithoutSplits(ledger.lines, e.id, ledger.nextEntryId, q);
    LinesBelowSequence(ledger, ledger.nextEntryId);
    LinesOfUniform(ledger, i);
    NetBlockByAccount(source, e.id, e.branchId, e.occurredAt, branch, code, range);
    var rest := Net(Select(Without(ledger.lines, e.id, ledger.nextEntryId), q));
    Distribute(rest, Net(Select(source, q)), NormalBalanceSign(code));
  }

  /** Reversing the reversal gives the entry its effect back. */
  lemma ReverseTwiceRestores(
    ledger: Books, first: ReverseInput, second: ReverseInput, branch: int, code: GlAccountCode, range: BalanceRange)
    requires Valid(ledger) && Fresh(ledger, first)
    requires second.entryId == Reverse(ledger, first).1.value.id && Fresh(Reverse(ledger, first).0, second)
    requires range.Contains(first.occurredAt) == range.Contains(second.occurredAt)
    ensures Balance(Reverse(Reverse(ledger, first).0, second).0, branch, code, range)
            == Balance(ledger, branch, code, range)
  {
    var (next, reversal) := Reverse(ledger, first);
    ReverseKeepsValid(ledger, first);
    ReversalEffects(ledger, first, code);
    ReverseMovesBalance(ledger, first, branch, code, range);
    ReverseMovesBalance(next, second, branch, code, range);
    FindByIdSound(ledger.entries, reversal.value.id);
    LookupAfterReverse(ledger, reversal.value, first.entryId, reversal.value.id);
    FindByIdSound(ledger.entries, first.entryId);
  }

  // ----- The links, in every reachable ledger -----

  /** `reversedByEntryId = r` of an entry means: r exists, later, in its branch, and reverses it. */
  lemma ReversalLinks(ops: seq<Op>, i: nat)
    requires i < |Run(EMPTY, ops).entries| && Run(EMPTY, ops).entries[i].reversedByEntryId.Some?
    ensures var entries := Run(EMPTY, ops).entries;
            exists j :: i < j < |entries| && entries[j].id == entries[i].reversedByEntryId.value
              && entries[j].branchId == entries[i].branchId
              && entries[j].reversesEntryId == Some(entries[i].id)
              && entries[i].id < entries[j].id
  {
    RunKeepsValid(EMPTY, ops);
    var entries := Run(EMPTY, ops).entries;
    assert ReversedByOk(entries, entries[i]);
    var j := FoundAt(entries, entries[i].reversedByEntryId.value);
    assert i < j;
  }

  // ----- Reversed at most once -----

  /** Each reversal takes the key that `keyOf` gives the entry it reverses. */
  ghost predicate KeyedByEntry(ops: seq<Op>, keyOf: nat -> string) {
    forall k :: 0 <= k < |ops| ==> KeyedOp(ops[k], keyOf)
  }

  predicate KeyedOp(op: Op, keyOf: nat -> string) {
    op.ReverseOp? ==> op.opts.idempotencyKey == keyOf(op.opts.entryId)
  }

  predicate KeyTied(e: Entry, keyOf: nat -> string) {
    e.reversesEntryId.Some? ==> e.idempotencyKey == keyOf(e.reversesEntryId.value)
  }

  ghost predicate KeysTied(ledger: Books, keyOf: nat -> string) {
    Valid(ledger) && forall i :: 0 <= i < |ledger.entries| ==> KeyTied(ledger.entries[i], keyOf)
  }

  lemma StepKeepsKeysTied(ledger: Books, op: Op, keyOf: nat -> string)
    requires KeysTied(ledger, keyOf) && KeyedOp(op, keyOf)
    ensures KeysTied(Step(ledger, op), keyOf)
  {
    StepKeepsValid(ledger, op);
    var next := Step(ledger, op);
    forall i | 0 <= i < |next.entries|
      ensures KeyTied(next.entries[i], keyOf)
    {
      assert i < |ledger.entries| ==> KeyTied(ledger.entries[i], keyOf);
    }
  }

  lemma {:induction false} RunKeepsKeysTied(ledger: Books, ops: seq<Op>, keyOf: nat -> string)
    requires KeysTied(ledger, keyOf) && KeyedByEntry(ops, keyOf)
    ensures KeysTied(Run(ledger, ops), keyOf)
    decreases |ops|
  {
    if ops != [] {
      StepKeepsKeysTied(ledger, ops[0], keyOf);
      RunKeepsKeysTied(Step(ledger, ops[0]), ops[1..], keyOf);
    }
  }

  /** Keyed by entry, an entry has at most one reversal, however often and in whatever order it is asked for. */
  lemma ReversedAtMostOnce(ops: seq<Op>, keyOf: nat -> string, i: nat, j: nat)
    requires KeyedByEntry(ops, keyOf)
    requires i < |Run(EMPTY, ops).entries| && j < |Run(EMPTY, ops).entries|
    requires Run(EMPTY, ops).entries[i].reversesEntryId.Some?
    requires Run(EMPTY, ops).entries[i].reversesEntryId == Run(EMPTY, ops).entries[j].reversesEntryId
    ensures i == j
  {
    RunKeepsKeysTied(EMPTY, ops, keyOf);
    var entries := Run(EMPTY, ops).entries;
    assert KeyTied(entries[i], keyOf) && KeyTied(entries[j], keyOf);
    assert ReversesOk(entries, entries[i]) && ReversesOk(entries, entries[j]);
  }

  /** In the entry's branch, no posted entry has the entry's reversal key, and no other entry shares it. */
  ghost predicate KeyReserved(entries: seq<Entry>, keyOf: nat -> string, entry: Entry) {
    forall e :: e in entries && e.branchId == entry.branchId ==>
      && (e.reversesEntryId.None? ==> e.idempotencyKey != keyOf(entry.id))
      && (e.id != entry.id ==> keyOf(e.id) != keyOf(entry.id))
  }

  /** With its key reserved in its own branch, asking to reverse an entry returns that entry's own reversal. */
  lemma ReverseReturnsOwnReversal(ops: seq<Op>, keyOf: nat -> string, opts: ReverseInput)
    requires KeyedByEntry(ops, keyOf) && opts.idempotencyKey == keyOf(opts.entryId)
    requires var original := FindById(Run(EMPTY, ops).entries, opts.entryId);
             original.Some? && KeyReserved(Run(EMPTY, ops).entries, keyOf, original.value)
    ensures var (next, result) := Reverse(Run(EMPTY, ops), opts);
            && result.Some? && result.value.reversesEntryId == Some(opts.entryId)
            && (exists i :: 0 <= i < |next.entries| && next.entries[i].reversesEntryId == Some(opts.entryId))
  {
    RunKeepsKeysTied(EMPTY, ops, keyOf);
    var ledger := Run(EMPTY, ops);
    var original := FindById(ledger.entries, opts.entryId).value;
    FindByIdSound(ledger.entries, opts.entryId);
    FindByKeySound(ledger.entries, original.branchId, opts.idempotencyKey);
    var (next, result) := Reverse(ledger, opts);
    if Fresh(ledger, opts) {
      assert next.entries[|ledger.entries|].reversesEntryId == Some(opts.entryId);
    } else {
      var i :| 0 <= i < |ledger.entries| && ledger.entries[i] == result.value;
      assert KeyTied(ledger.entries[i], keyOf) && ReversesOk(ledger.entries, ledger.entries[i]);
      FindByIdSound(ledger.entries, ledger.entries[i].reversesEntryId.value);
    }
  }

  // ----- The source calls a second reversal a no-op; it is one only under a used key -----

  /** For an entry already reversed, the call changes nothing exactly when its key is taken in the branch. */
  lemma SecondReversalIsNoopIff(ledger: Books, opts: ReverseInput)
    requires FindById(ledger.entries, opts.entryId).Some?
    requires FindById(ledger.entries, opts.entryId).value.reversedByEntryId.Some?
    ensures Reverse(ledger, opts).0 == ledger <==>
            exists e :: e in ledger.entries && e.idempotencyKey == opts.idempotencyKey
              && e.branchId == FindById(ledger.entries, opts.entryId).value.branchId
  {
    FindByKeySound(ledger.entries, FindById(ledger.entries, opts.entryId).value.branchId, opts.idempotencyKey);
    if Fresh(ledger, opts) {
      assert Reverse(ledger, opts).0.nextEntryId != ledger.nextEntryId;
    }
  }

  /** Two keys take the entry's effect off twice. */
  lemma DoubleReversal(
    ledger: Books, first: ReverseInput, second: ReverseInput, code: GlAccountCode, range: BalanceRange)
    requires Valid(ledger) && Fresh(ledger, first) && Fresh(ledger, second)
    requires first.entryId == second.entryId && first.idempotencyKey != second.idempotencyKey
    requires range.Contains(first.occurredAt) && range.Contains(second.occurredAt)
    ensures var branch := FindById(ledger.entries, first.entryId).value.branchId;
            Balance(Reverse(Reverse(ledger, first).0, second).0, branch, code, range)
            == Balance(ledger, branch, code, range) - 2 * Effect(ledger, first.entryId, code)
  {
    var original := FindById(ledger.entries, first.entryId).value;
    var (next, reversal) := Reverse(ledger, first);
    ReverseKeepsValid(ledger, first);
    LookupAfterReverse(ledger, reversal.value, first.entryId, first.entryId);
    FindAppend(ledger.entries, reversal.value, original.branchId, second.idempotencyKey, 0);
    FindMarked(ledger.entries + [reversal.value], first.entryId, reversal.value.id, original.branchId,
               second.idempotencyKey, 0);
    ReversalEffects(ledger, first, code);
    ReverseMovesBalance(ledger, first, original.branchId, code, range);
    ReverseMovesBalance(next, second, original.branchId, code, range);
  }

  function Sale(key: string): PostInput {
    PostInput(1, 0, key, None, [LineInput(Cash, Some(100.0), None), LineInput(ServiceRevenue, None, Some(100.0))])
  }

  lemma SaleIsAccepted(key: string)
    requires key != ""
    ensures Accepted(Sale(key)) && InputNetOn(Sale(key).lines, Cash) == 100 && NormalBalanceSign(Cash) == 1
  {
  }

  lemma AfterSale(key: string)
    requires key != ""
    ensures var ledger := Post(EMPTY, Sale(key)).0;
            && Valid(ledger) && ledger.entries == [NewEntry(Sale(key), 1)]
            && Balance(ledger, 1, Cash, ALWAYS) == 100 && Effect(ledger, 1, Cash) == 100
  {
    SaleIsAccepted(key);
    PostKeepsValid(EMPTY, Sale(key));
    PostMovesBalance(EMPTY, Sale(key), 1, Cash, ALWAYS);
    SaleLines(key);
    StoredNetOn(Sale(key).lines, NewEntry(Sale(key), 1), Cash);
  }

  lemma SaleLines(key: string)
    requires Accepted(Sale(key))
    ensures LinesOf(Post(EMPTY, Sale(key)).0.lines, 1) == StoredLines(Sale(key).lines, NewEntry(Sale(key), 1))
  {
    var entry := NewEntry(Sale(key), 1);
    var block := StoredLines(Sale(key).lines, entry);
    StoredLinesBlock(Sale(key).lines, entry);
    SelectBlockByEntry(block, 1, 1, 0, 1);
    assert EMPTY.lines + block == block;
  }

  /** A sale of 100 reversed under two keys leaves cash at minus 100. */
  lemma SaleReversedTwice()
    ensures var ops := [PostOp(Sale("s")), ReverseOp(ReverseInput(1, "a", 0)), ReverseOp(ReverseInput(1, "b", 0))];
            Balance(Run(EMPTY, ops), 1, Cash, ALWAYS) == -100
  {
    var post, a, b := PostOp(Sale("s")), ReverseInput(1, "a", 0), ReverseInput(1, "b", 0);
    AfterSale("s");
    ReversedTwiceFrom(Step(EMPTY, post), NewEntry(Sale("s"), 1), a, b);
    RunThree(post, ReverseOp(a), ReverseOp(b));
  }

  lemma ReversedTwiceFrom(ledger: Books, entry: Entry, a: ReverseInput, b: ReverseInput)
    requires Valid(ledger) && ledger.entries == [entry] && entry.id == 1 && entry.branchId == 1
    requires entry.idempotencyKey == "s" && a == ReverseInput(1, "a", 0) && b == ReverseInput(1, "b", 0)
    requires Balance(ledger, 1, Cash, ALWAYS) == 100 && Effect(ledger, 1, Cash) == 100
    ensures Balance(Reverse(Reverse(ledger, a).0, b).0, 1, Cash, ALWAYS) == -100
  {
    assert "s"[0] != "a"[0] && "s"[0] != "b"[0] && "a"[0] != "b"[0];
    FindEntry(ledger.entries, ledger.nextEntryId, 0);
    FindByKeySound(ledger.entries, 1, "a");
    FindByKeySound(ledger.entries, 1, "b");
    DoubleReversal(ledger, a, b, Cash, ALWAYS);
  }

  lemma RunThree(a: Op, b: Op, c: Op)
    ensures Run(EMPTY, [a, b, c]) == Step(Step(Step(EMPTY, a), b), c)
  {
    assert [a, b, c][1..] == [b, c] && [b, c][1..] == [c] && [c][1..] == [];
    assert Run(Step(Step(EMPTY, a), b), [c]) == Step(Step(Step(EMPTY, a), b), c);
    assert Run(Step(EMPTY, a), [b, c]) == Run(Step(Step(EMPTY, a), b), [c]);
  }
}
