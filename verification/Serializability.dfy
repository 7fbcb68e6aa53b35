/**
 What the interleavings of Concurrency.dfy come to. Numbering the committed entries by commit position turns the
 committed tables into exactly the ledger of one sequential run of the committed calls, so every law of sequential
 runs holds of the tables that concurrent calls leave behind.
 */
module Serializability {
  import opened Outcomes
  import opened ChartOfAccounts
  import opened Journal
  import opened Ledger
  import opened LedgerInvariant
  import opened AccountingEquation
  import opened Retry
  import opened Reversal
  import opened Concurrency

  // ----- The committed tables, renumbered by commit position -----

  function RenumberRef(entries: seq<Entry>, ref: Option<nat>): Option<nat> {
    if ref.None? then None else Some(Position(entries, ref.value))
  }

  function RenumberEntry(entries: seq<Entry>, e: Entry): Entry {
    e.(id := Position(entries, e.id), reversesEntryId := RenumberRef(entries, e.reversesEntryId),
       reversedByEntryId := RenumberRef(entries, e.reversedByEntryId))
  }

  function RenumberEntries(entries: seq<Entry>): (renumbered: seq<Entry>)
    ensures |renumbered| == |entries|
  {
    seq(|entries|, i requires 0 <= i < |entries| => RenumberEntry(entries, entries[i]))
  }

  function RenumberLines(entries: seq<Entry>, lines: seq<Line>): (renumbered: seq<Line>)
    ensures |renumbered| == |lines|
  {
    seq(|lines|, k requires 0 <= k < |lines| => lines[k].(entryId := Position(entries, lines[k].entryId)))
  }

  function Renumbered(s: System): Books {
    Books(RenumberEntries(s.entries), RenumberLines(s.entries, s.lines), |s.entries| + 1)
  }

  /** The committed tables are those of running the committed calls one after another, in commit order. */
  ghost predicate Serial(s: System) {
    Renumbered(s) == Run(EMPTY, s.history)
  }

  // ----- Positions when an entry is added -----

  lemma {:induction false} PositionBound(entries: seq<Entry>, id: nat)
    ensures Position(entries, id) <= |entries|
    ensures Position(entries, id) > 0 ==> entries[Position(entries, id) - 1].id == id
  {
    if entries != [] {
      PositionBound(entries[..|entries| - 1], id);
    }
  }

  lemma {:induction false} PositionById(a: seq<Entry>, b: seq<Entry>, id: nat)
    requires |a| == |b| && forall i :: 0 <= i < |a| ==> a[i].id == b[i].id
    ensures Position(a, id) == Position(b, id)
  {
    if a != [] {
      PositionById(a[..|a| - 1], b[..|b| - 1], id);
    }
  }

  lemma PositionExtends(after: seq<Entry>, before: seq<Entry>, e: Entry, id: nat)
    requires Extends(after, before, e)
    ensures Position(after, id) == if Position(before, id) > 0 then Position(before, id)
                                   else if e.id == id then |before| + 1 else 0
  {
    forall i | 0 <= i < |before|
      ensures after[i].id == before[i].id
    {
      assert SameRow(after[i], before[i]);
    }
    PositionById(after[..|before|], before, id);
  }

  /** In a serial state, the references in a committed entry are to committed entries. */
  lemma RefsAreCommitted(s: System, i: nat)
    requires TablesOk(s) && Serial(s) && i < |s.entries|
    ensures s.entries[i].reversesEntryId.Some? ==> Position(s.entries, s.entries[i].reversesEntryId.value) > 0
    ensures s.entries[i].reversedByEntryId.Some? ==> Position(s.entries, s.entries[i].reversedByEntryId.value) > 0
  {
    RunKeepsValid(EMPTY, s.history);
    var entries := RenumberEntries(s.entries);
    assert ReversedByOk(entries, entries[i]) && ReversesOk(entries, entries[i]);
    if entries[i].reversesEntryId.Some? {
      RenumberedIds(s, entries[i].reversesEntryId.value);
    }
    if entries[i].reversedByEntryId.Some? {
      RenumberedIds(s, entries[i].reversedByEntryId.value);
    }
  }

  lemma RenumberedIds(s: System, id: nat)
    requires DistinctEntries(s.entries) && FindById(RenumberEntries(s.entries), id).Some?
    ensures id > 0
  {
    var i := FoundAt(RenumberEntries(s.entries), id);
    PositionAt(s.entries, i);
  }

  // ----- A commit is a step of the run -----

  /** Adding an entry renumbers nothing that is there. */
  lemma RenumberedBefore(s: System, tx: nat, i: nat)
    requires Consistent(s) && Serial(s) && tx in s.txs && s.txs[tx].ReadyToCommit() && i < |s.entries|
    ensures RenumberEntry(CommitTx(s, tx).entries, s.entries[i]) == RenumberEntry(s.entries, s.entries[i])
  {
    var after, e := CommitTx(s, tx).entries, s.txs[tx].entry.value;
    CommitExtends(s, tx);
    RefsAreCommitted(s, i);
    PositionAt(s.entries, i);
    PositionExtends(after, s.entries, e, s.entries[i].id);
    if s.entries[i].reversesEntryId.Some? {
      PositionExtends(after, s.entries, e, s.entries[i].reversesEntryId.value);
    }
    if s.entries[i].reversedByEntryId.Some? {
      PositionExtends(after, s.entries, e, s.entries[i].reversedByEntryId.value);
    }
  }

  /** The new entry's number is the next one of the run. */
  lemma NewPosition(s: System, tx: nat)
    requires Consistent(s) && tx in s.txs && s.txs[tx].ReadyToCommit()
    ensures Position(CommitTx(s, tx).entries, s.txs[tx].entry.value.id) == |s.entries| + 1
  {
    assert TxOk(s, s.txs[tx]);
    CommitExtends(s, tx);
    PositionNone(s.entries, s.txs[tx].entry.value.id);
    PositionExtends(CommitTx(s, tx).entries, s.entries, s.txs[tx].entry.value, s.txs[tx].entry.value.id);
  }

  function Numbered(lines: seq<Line>, id: nat): (numbered: seq<Line>)
    ensures |numbered| == |lines|
  {
    seq(|lines|, k requires 0 <= k < |lines| => lines[k].(entryId := id))
  }

  lemma RenumberedOldLines(s: System, after: seq<Entry>, e: Entry)
    requires DistinctEntries(s.entries) && LinesOwned(s.entries, s.lines) && Extends(after, s.entries, e)
    ensures RenumberLines(after, s.lines) == RenumberLines(s.entries, s.lines)
  {
    forall k | 0 <= k < |s.lines|
      ensures Position(after, s.lines[k].entryId) == Position(s.entries, s.lines[k].entryId)
    {
      assert LineOwned(s.entries, s.lines[k]);
      var i :| 0 <= i < |s.entries| && s.entries[i].id == s.lines[k].entryId;
      PositionAt(s.entries, i);
      PositionExtends(after, s.entries, e, s.lines[k].entryId);
    }
  }

  lemma RenumberedBlock(entries: seq<Entry>, lines: seq<Line>, id: nat)
    requires forall k :: 0 <= k < |lines| ==> lines[k].entryId == id
    ensures RenumberLines(entries, lines) == Numbered(lines, Position(entries, id))
  {
  }

  lemma RenumberAppend(entries: seq<Entry>, a: seq<Line>, b: seq<Line>)
    ensures RenumberLines(entries, a + b) == RenumberLines(entries, a) + RenumberLines(entries, b)
  {
  }

  /** The line table of the commit, renumbered: the old one, and the block under the new number. */
  lemma RenumberedLines(s: System, tx: nat)
    requires Consistent(s) && tx in s.txs && s.txs[tx].ReadyToCommit()
    ensures RenumberLines(CommitTx(s, tx).entries, CommitTx(s, tx).lines)
            == RenumberLines(s.entries, s.lines) + Numbered(s.txs[tx].lines, |s.entries| + 1)
  {
    var t, after := s.txs[tx], CommitTx(s, tx).entries;
    assert TxOk(s, t);
    CommitExtends(s, tx);
    NewPosition(s, tx);
    OwnLines(s, t);
    RenumberedOldLines(s, after, t.entry.value);
    RenumberedBlock(after, t.lines, t.entry.value.id);
    RenumberAppend(after, s.lines, t.lines);
  }

  lemma {:induction false} StoredNumbered(lines: seq<LineInput>, a: Entry, b: Entry)
    requires b == a.(id := b.id)
    ensures Numbered(StoredLines(lines, a), b.id) == StoredLines(lines, b)
  {
    if lines != [] {
      StoredNumbered(lines[1..], a, b);
    }
  }

  /** A key nobody has committed is unused in the renumbered table too. */
  lemma UnusedKey(s: System, e: Entry)
    requires Unused(s.entries, e)
    ensures FindByKey(Renumbered(s).entries, e.branchId, e.idempotencyKey) == None
  {
    FindByKeySound(Renumbered(s).entries, e.branchId, e.idempotencyKey);
    forall i | 0 <= i < |s.entries|
      ensures EntryKey(Renumbered(s).entries[i]) != EntryKey(e)
    {
      assert EntryKey(s.entries[i]) != EntryKey(e);
    }
  }

  lemma PostIsStep(s: System, tx: nat)
    requires Consistent(s) && Serial(s) && tx in s.txs && s.txs[tx].ReadyToCommit() && s.txs[tx].op.PostOp?
    ensures Renumbered(CommitTx(s, tx)) == Step(Renumbered(s), HistoryOp(s, s.txs[tx].op))
  {
    var t, next := s.txs[tx], CommitTx(s, tx);
    assert TxOk(s, t);
    var input := t.op.input;
    var entry := NewEntry(input, |s.entries| + 1);
    UnusedKey(s, t.entry.value);
    NewPosition(s, tx);
    RenumberedLines(s, tx);
    StoredNumbered(input.lines, t.entry.value, entry);
    assert Renumbered(next).entries == Renumbered(s).entries + [entry] by {
      forall i | 0 <= i < |s.entries|
        ensures RenumberEntry(next.entries, s.entries[i]) == RenumberEntry(s.entries, s.entries[i])
      {
        RenumberedBefore(s, tx, i);
      }
    }
  }

  // ----- A reversal -----

  lemma {:induction false} SelectRenumbered(entries: seq<Entry>, lines: seq<Line>, id: nat)
    requires Position(entries, id) > 0
    ensures LinesOf(RenumberLines(entries, lines), Position(entries, id)) == RenumberLines(entries, LinesOf(lines, id))
  {
    if lines != [] {
      SelectRenumbered(entries, lines[1..], id);
      PositionBound(entries, id);
      PositionBound(entries, lines[0].entryId);
      assert RenumberLines(entries, lines)[1..] == RenumberLines(entries, lines[1..]);
    }
  }

  /** What the run finds under the renumbered id of a committed entry. */
  lemma RenumberedFind(s: System, i: nat)
    requires DistinctEntries(s.entries) && i < |s.entries|
    ensures FindById(Renumbered(s).entries, i + 1) == Some(RenumberEntry(s.entries, s.entries[i]))
  {
    PositionAt(s.entries, i);
    FindByIdSound(Renumbered(s).entries, i + 1);
    assert Renumbered(s).entries[i] in Renumbered(s).entries;
    var j := FoundAt(Renumbered(s).entries, i + 1);
    PositionAt(s.entries, j);
  }

  /** One entry after the commit of a reversal: the original is marked, the reversal is the last one. */
  lemma ReversedEntryAt(s: System, tx: nat, j: nat, i: nat)
    requires Consistent(s) && Serial(s) && tx in s.txs && s.txs[tx].ReadyToCommit() && s.txs[tx].op.ReverseOp?
    requires j < |s.entries| && s.entries[j].id == s.txs[tx].op.opts.entryId && i < |s.entries|
    ensures Renumbered(CommitTx(s, tx)).entries[i] == Marked(Renumbered(s).entries[i], j + 1, |s.entries| + 1)
  {
    NewPosition(s, tx);
    PositionAt(s.entries, i);
    PositionAt(s.entries, j);
    RenumberedBefore(s, tx, i);
  }

  lemma NewReversal(s: System, tx: nat, j: nat)
    requires Consistent(s) && Serial(s) && tx in s.txs && s.txs[tx].ReadyToCommit() && s.txs[tx].op.ReverseOp?
    requires j < |s.entries| && s.entries[j].id == s.txs[tx].op.opts.entryId
    requires SameRow(s.entries[j], s.txs[tx].original.value)
    ensures var opts := s.txs[tx].op.opts.(entryId := j + 1);
            Renumbered(CommitTx(s, tx)).entries[|s.entries|]
            == ReversalOf(RenumberEntry(s.entries, s.entries[j]), opts, |s.entries| + 1)
  {
    var t, after := s.txs[tx], CommitTx(s, tx).entries;
    assert TxOk(s, t);
    CommitExtends(s, tx);
    NewPosition(s, tx);
    PositionAt(s.entries, j);
    PositionExtends(after, s.entries, t.entry.value, s.entries[j].id);
  }

  lemma ReversedEntries(s: System, tx: nat, j: nat)
    requires Consistent(s) && Serial(s) && tx in s.txs && s.txs[tx].ReadyToCommit() && s.txs[tx].op.ReverseOp?
    requires j < |s.entries| && s.entries[j].id == s.txs[tx].op.opts.entryId
    requires SameRow(s.entries[j], s.txs[tx].original.value)
    ensures var opts := s.txs[tx].op.opts.(entryId := j + 1);
            var reversal := ReversalOf(RenumberEntry(s.entries, s.entries[j]), opts, |s.entries| + 1);
            Renumbered(CommitTx(s, tx)).entries
            == MarkReversed(Renumbered(s).entries + [reversal], j + 1, |s.entries| + 1)
  {
    NewReversal(s, tx, j);
    forall i | 0 <= i < |s.entries|
      ensures Renumbered(CommitTx(s, tx)).entries[i] == Marked(Renumbered(s).entries[i], j + 1, |s.entries| + 1)
    {
      ReversedEntryAt(s, tx, j, i);
    }
  }

  lemma ReversedLines(s: System, tx: nat, j: nat)
    requires Consistent(s) && tx in s.txs && s.txs[tx].ReadyToCommit() && s.txs[tx].op.ReverseOp?
    requires j < |s.entries| && s.entries[j].id == s.txs[tx].op.opts.entryId
    ensures Renumbered(CommitTx(s, tx)).lines
            == Renumbered(s).lines
               + Swapped(LinesOf(Renumbered(s).lines, j + 1), |s.entries| + 1, s.txs[tx].op.opts.occurredAt)
  {
    assert TxOk(s, s.txs[tx]);
    PositionAt(s.entries, j);
    RenumberedLines(s, tx);
    SelectRenumbered(s.entries, s.lines, s.entries[j].id);
  }

  lemma OriginalAt(s: System, tx: nat) returns (j: nat)
    requires Consistent(s) && tx in s.txs && s.txs[tx].ReadyToCommit() && s.txs[tx].op.ReverseOp?
    ensures s.txs[tx].original.Some? && j < |s.entries| && SameRow(s.entries[j], s.txs[tx].original.value)
    ensures s.entries[j].id == s.txs[tx].op.opts.entryId
    ensures EntryKey(s.txs[tx].entry.value) == (s.entries[j].branchId, s.txs[tx].op.opts.idempotencyKey)
    ensures Unused(s.entries, s.txs[tx].entry.value)
  {
    assert TxOk(s, s.txs[tx]);
    j :| 0 <= j < |s.entries| && SameRow(s.entries[j], s.txs[tx].original.value);
  }

  lemma ReverseIsStep(s: System, tx: nat)
    requires Consistent(s) && Serial(s) && tx in s.txs && s.txs[tx].ReadyToCommit() && s.txs[tx].op.ReverseOp?
    ensures Renumbered(CommitTx(s, tx)) == Step(Renumbered(s), HistoryOp(s, s.txs[tx].op))
  {
    var t := s.txs[tx];
    var j := OriginalAt(s, tx);
    PositionAt(s.entries, j);
    RenumberedFind(s, j);
    UnusedKey(s, t.entry.value);
    FreshReverse(Renumbered(s), t.op.opts.(entryId := j + 1), RenumberEntry(s.entries, s.entries[j]));
    ReversedEntries(s, tx, j);
    ReversedLines(s, tx, j);
  }

  lemma {:induction false} RunSnoc(ledger: Books, ops: seq<Op>, last: Op)
    ensures Run(ledger, ops + [last]) == Step(Run(ledger, ops), last)
    decreases |ops|
  {
    if ops == [] {
      assert ops + [last] == [last] && [last][1..] == [];
    } else {
      assert (ops + [last])[1..] == ops[1..] + [last];
      RunSnoc(Step(ledger, ops[0]), ops[1..], last);
    }
  }

  lemma NextKeepsSerial(s: System, event: Event)
    requires Consistent(s) && Serial(s)
    ensures Serial(Next(s, event))
  {
    if event.Commit? && Next(s, event) != s {
      RunSnoc(EMPTY, s.history, HistoryOp(s, s.txs[event.tx].op));
      if s.txs[event.tx].op.PostOp? {
        PostIsStep(s, event.tx);
      } else {
        ReverseIsStep(s, event.tx);
      }
    }
  }

  lemma {:induction false} ScheduleKeepsSerial(s: System, events: seq<Event>)
    requires Consistent(s) && Serial(s)
    ensures Consistent(Schedule(s, events)) && Serial(Schedule(s, events))
    decreases |events|
  {
    if events != [] {
      NextKeepsConsistent(s, events[0]);
      NextKeepsSerial(s, events[0]);
      ScheduleKeepsSerial(Next(s, events[0]), events[1..]);
    }
  }

  lemma ReachableIsSerial(events: seq<Event>)
    ensures Consistent(Schedule(START, events)) && Serial(Schedule(START, events))
  {
    assert Renumbered(START).entries == [] && Renumbered(START).lines == [];
    ScheduleKeepsSerial(START, events);
  }

  // ----- The theorems -----

  lemma {:induction false} RenumberingKeepsSelections(entries: seq<Entry>, lines: seq<Line>, q: Query)
    requires !q.ByEntry?
    ensures Select(RenumberLines(entries, lines), q) == RenumberLines(entries, Select(lines, q))
  {
    if lines != [] {
      RenumberingKeepsSelections(entries, lines[1..], q);
      assert RenumberLines(entries, lines)[1..] == RenumberLines(entries, lines[1..]);
    }
  }

  lemma {:induction false} RenumberingKeepsSums(entries: seq<Entry>, lines: seq<Line>)
    ensures Debits(RenumberLines(entries, lines)) == Debits(lines)
    ensures Credits(RenumberLines(entries, lines)) == Credits(lines)
  {
    if lines != [] {
      assert RenumberLines(entries, lines)[1..] == RenumberLines(entries, lines[1..]);
      RenumberingKeepsSums(entries, lines[1..]);
    }
  }

  lemma RenumberingKeepsBalances(s: System, branch: int, code: GlAccountCode, range: BalanceRange)
    ensures Balance(Books(s.entries, s.lines, s.sequence), branch, code, range)
            == Balance(Renumbered(s), branch, code, range)
  {
    RenumberingKeepsSelections(s.entries, s.lines, ByAccount(branch, code, range));
    RenumberingKeepsSums(s.entries, Select(s.lines, ByAccount(branch, code, range)));
  }

  /**
   Whatever the interleaving of posts and reversals, the committed tables are those of running the committed calls
   one after another in commit order, ids renumbered, and every balance is that run's balance.
   */
  lemma InterleavingsAreSerializable(events: seq<Event>, branch: int, code: GlAccountCode, range: BalanceRange)
    ensures var s := Schedule(START, events);
            && Renumbered(s) == Run(EMPTY, s.history)
            && Balance(Books(s.entries, s.lines, s.sequence), branch, code, range)
               == Balance(Run(EMPTY, s.history), branch, code, range)
  {
    ReachableIsSerial(events);
    RenumberingKeepsBalances(Schedule(START, events), branch, code, range);
  }

  predicate WholeOp(op: Op) {
    op.PostOp? ==> WholeCentLines(op.input.lines)
  }

  ghost predicate WholeEvents(events: seq<Event>) {
    forall k :: 0 <= k < |events| && events[k].Begin? ==> WholeOp(events[k].op)
  }

  ghost predicate WholeSystem(s: System) {
    && (forall tx :: tx in s.txs ==> WholeOp(s.txs[tx].op))
    && WholeCentOps(s.history)
  }

  lemma NextKeepsWhole(s: System, event: Event)
    requires WholeSystem(s) && (event.Begin? ==> WholeOp(event.op))
    ensures WholeSystem(Next(s, event))
  {
    if event.tx in s.txs {
      assert WholeOp(s.txs[event.tx].op);
    }
  }

  lemma {:induction false} ScheduleKeepsWhole(s: System, events: seq<Event>)
    requires WholeSystem(s) && WholeEvents(events)
    ensures WholeSystem(Schedule(s, events))
    decreases |events|
  {
    if events != [] {
      NextKeepsWhole(s, events[0]);
      ScheduleKeepsWhole(Next(s, events[0]), events[1..]);
    }
  }

  /** Whatever the interleaving, with whole-cent posts every branch's committed lines balance in every window. */
  lemma InterleavingsBalance(events: seq<Event>, branch: int, range: BalanceRange)
    requires WholeEvents(events)
    ensures Net(Select(Schedule(START, events).lines, ByBranch(branch, range))) == 0
  {
    ReachableIsSerial(events);
    ScheduleKeepsWhole(START, events);
    EmptyInBalance(true);
    var s := Schedule(START, events);
    RunKeepsBalance(true, EMPTY, s.history);
    assert WindowTolerable(true, Run(EMPTY, s.history), branch, range);
    RenumberingKeepsSelections(s.entries, s.lines, ByBranch(branch, range));
    RenumberingKeepsSums(s.entries, Select(s.lines, ByBranch(branch, range)));
  }

  /**
   A committed reversal is the mirror of an entry committed before it in the same branch, and that entry is marked
   as reversed.
   */
  lemma CommittedReversalsMirror(events: seq<Event>, i: nat)
    requires i < |Schedule(START, events).entries| && Schedule(START, events).entries[i].reversesEntryId.Some?
    ensures var s := Schedule(START, events);
            exists j :: 0 <= j < i && s.entries[i].reversesEntryId == Some(s.entries[j].id)
              && s.entries[j].branchId == s.entries[i].branchId && s.entries[j].reversedByEntryId.Some?
              && LinesOf(s.lines, s.entries[i].id)
                 == Swapped(LinesOf(s.lines, s.entries[j].id), s.entries[i].id, s.entries[i].occurredAt)
  {
    ReachableIsSerial(events);
    var s := Schedule(START, events);
    assert CompleteAt(s, i);
    var j := s.history[i].opts.entryId - 1;
    PositionAt(s.entries, j);
    RunKeepsValid(EMPTY, s.history);
    assert ReversesOk(Renumbered(s).entries, Renumbered(s).entries[i]);
    RenumberedFind(s, j);
    assert s.entries[i].reversesEntryId == Some(s.entries[j].id);
  }

  // ----- Reversed at most once, under any interleaving -----

  /** Each reversal begun takes the key that `keyOf` gives the entry it reverses. */
  ghost predicate KeyedEvents(events: seq<Event>, keyOf: nat -> string) {
    forall k :: 0 <= k < |events| && events[k].Begin? ==> KeyedOp(events[k].op, keyOf)
  }

  ghost predicate KeyedSystem(s: System, keyOf: nat -> string) {
    && (forall tx :: tx in s.txs ==> KeyedOp(s.txs[tx].op, keyOf))
    && (forall i :: 0 <= i < |s.entries| ==> KeyTied(s.entries[i], keyOf))
  }

  lemma CommitKeepsKeyed(s: System, tx: nat, keyOf: nat -> string)
    requires KeyedSystem(s, keyOf) && tx in s.txs && s.txs[tx].ReadyToCommit() && TxOk(s, s.txs[tx])
    ensures KeyedSystem(CommitTx(s, tx), keyOf)
  {
    var after := CommitTx(s, tx).entries;
    CommitExtends(s, tx);
    forall i | 0 <= i < |after|
      ensures KeyTied(after[i], keyOf)
    {
      if i < |s.entries| {
        assert SameRow(after[i], s.entries[i]) && KeyTied(s.entries[i], keyOf);
      } else {
        assert KeyedOp(s.txs[tx].op, keyOf);
      }
    }
  }

  lemma NextKeepsKeyed(s: System, event: Event, keyOf: nat -> string)
    requires TxsOk(s) && KeyedSystem(s, keyOf) && (event.Begin? ==> KeyedOp(event.op, keyOf))
    ensures KeyedSystem(Next(s, event), keyOf)
  {
    if event.tx in s.txs {
      assert KeyedOp(s.txs[event.tx].op, keyOf);
      if event.Commit? && Next(s, event) != s {
        assert TxOk(s, s.txs[event.tx]);
        CommitKeepsKeyed(s, event.tx, keyOf);
      }
    }
  }

  lemma {:induction false} ScheduleKeepsKeyed(s: System, events: seq<Event>, keyOf: nat -> string)
    requires Consistent(s) && KeyedSystem(s, keyOf) && KeyedEvents(events, keyOf)
    ensures KeyedSystem(Schedule(s, events), keyOf)
    decreases |events|
  {
    if events != [] {
      NextKeepsConsistent(s, events[0]);
      NextKeepsKeyed(s, events[0], keyOf);
      ScheduleKeepsKeyed(Next(s, events[0]), events[1..], keyOf);
    }
  }

  /** Keyed by entry, however many reversals race for an entry, at most one of them is ever committed. */
  lemma RacingReversalsCommitOnce(events: seq<Event>, keyOf: nat -> string, i: nat, j: nat)
    requires KeyedEvents(events, keyOf)
    requires i < |Schedule(START, events).entries| && j < |Schedule(START, events).entries|
    requires Schedule(START, events).entries[i].reversesEntryId.Some?
    requires Schedule(START, events).entries[i].reversesEntryId == Schedule(START, events).entries[j].reversesEntryId
    ensures i == j
  {
    ReachableIsSerial(events);
    ScheduleKeepsKeyed(START, events, keyOf);
    CommittedReversalsMirror(events, i);
    CommittedReversalsMirror(events, j);
    var entries := Schedule(START, events).entries;
    assert KeyTied(entries[i], keyOf) && KeyTied(entries[j], keyOf);
    assert EntryKey(entries[i]) == EntryKey(entries[j]);
  }
}
