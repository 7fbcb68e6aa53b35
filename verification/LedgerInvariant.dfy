/** The structural invariant of the two tables, and the proof that every operation keeps it. */
module LedgerInvariant {
  import opened Outcomes
  import opened ChartOfAccounts
  import opened Journal
  import opened Ledger

  // ----- The invariant -----

  /** Ids grow in insertion order, below the sequence; (branch, key) is unique. */
  ghost predicate KeysOk(entries: seq<Entry>, nextEntryId: nat) {
    && (forall i :: 0 <= i < |entries| ==> entries[i].id < nextEntryId)
    && (forall i, j :: 0 <= i < j < |entries| ==> entries[i].id < entries[j].id)
    && (forall i, j :: 0 <= i < j < |entries| ==>
         entries[i].branchId != entries[j].branchId || entries[i].idempotencyKey != entries[j].idempotencyKey)
  }

  predicate RowOk(line: Line) {
    && IsGlAccountCode(line.accountCode)
    && 0 <= line.debit && 0 <= line.credit
    && (line.debit == 0 || line.credit == 0)
  }

  /** The line's entry exists and the line carries that entry's branch, date and currency. */
  predicate Owned(entries: seq<Entry>, line: Line) {
    var owner := FindById(entries, line.entryId);
    && owner.Some?
    && owner.value.branchId == line.branchId
    && owner.value.occurredAt == line.occurredAt
    && owner.value.currency == line.currency
  }

  ghost predicate LinesOk(entries: seq<Entry>, lines: seq<Line>) {
    forall k :: 0 <= k < |lines| ==> RowOk(lines[k]) && Owned(entries, lines[k])
  }

  /** `reversedByEntryId` names a later entry of the same branch that reverses this one. */
  predicate ReversedByOk(entries: seq<Entry>, e: Entry) {
    e.reversedByEntryId.Some? ==>
      var r := FindById(entries, e.reversedByEntryId.value);
      r.Some? && r.value.branchId == e.branchId && r.value.reversesEntryId == Some(e.id) && e.id < r.value.id
  }

  /** `reversesEntryId` names an earlier entry of the same branch, which is marked as reversed. */
  predicate ReversesOk(entries: seq<Entry>, e: Entry) {
    e.reversesEntryId.Some? ==>
      var o := FindById(entries, e.reversesEntryId.value);
      o.Some? && o.value.branchId == e.branchId && o.value.id < e.id && o.value.reversedByEntryId.Some?
  }

  ghost predicate LinksOk(entries: seq<Entry>) {
    forall i :: 0 <= i < |entries| ==> ReversedByOk(entries, entries[i]) && ReversesOk(entries, entries[i])
  }

  /** A reversal's lines are its original's with debit and credit exchanged. */
  ghost predicate MirrorsOk(entries: seq<Entry>, lines: seq<Line>) {
    forall i :: 0 <= i < |entries| && entries[i].reversesEntryId.Some? ==>
      LinesOf(lines, entries[i].id)
      == Swapped(LinesOf(lines, entries[i].reversesEntryId.value), entries[i].id, entries[i].occurredAt)
  }

  ghost predicate Valid(ledger: Books) {
    && KeysOk(ledger.entries, ledger.nextEntryId)
    && LinesOk(ledger.entries, ledger.lines)
    && LinksOk(ledger.entries)
    && MirrorsOk(ledger.entries, ledger.lines)
  }

  // ----- How the lookups see a marked table -----

  function Marked(e: Entry, id: nat, reversalId: nat): Entry {
    if e.id == id then e.(reversedByEntryId := Some(reversalId)) else e
  }

  function MarkFound(found: Option<Entry>, id: nat, reversalId: nat): Option<Entry> {
    if found.None? then None else Some(Marked(found.value, id, reversalId))
  }

  lemma {:induction false} FindMarked(
    entries: seq<Entry>, id: nat, reversalId: nat, branch: int, key: string, other: nat)
    ensures FindByKey(MarkReversed(entries, id, reversalId), branch, key)
            == MarkFound(FindByKey(entries, branch, key), id, reversalId)
    ensures FindById(MarkReversed(entries, id, reversalId), other)
            == MarkFound(FindById(entries, other), id, reversalId)
  {
    if entries != [] {
      assert MarkReversed(entries, id, reversalId)[1..] == MarkReversed(entries[1..], id, reversalId);
      FindMarked(entries[1..], id, reversalId, branch, key, other);
    }
  }

  /** With increasing ids, looking an entry up by its id finds that entry. */
  lemma FindEntry(entries: seq<Entry>, nextEntryId: nat, i: nat)
    requires KeysOk(entries, nextEntryId) && i < |entries|
    ensures FindById(entries, entries[i].id) == Some(entries[i])
    ensures FindByKey(entries, entries[i].branchId, entries[i].idempotencyKey) == Some(entries[i])
  {
    FindByIdSound(entries, entries[i].id);
    FindByKeySound(entries, entries[i].branchId, entries[i].idempotencyKey);
  }

  /** No line belongs to an id the sequence has not yet given out. */
  lemma LinesBelowSequence(ledger: Books, id: nat)
    requires Valid(ledger) && ledger.nextEntryId <= id
    ensures LinesOf(ledger.lines, id) == []
  {
    forall k | 0 <= k < |ledger.lines|
      ensures !ByEntry(id).Matches(ledger.lines[k])
    {
      FindByIdSound(ledger.entries, ledger.lines[k].entryId);
    }
    SelectNone(ledger.lines, ByEntry(id));
  }

  /** The lines of an entry form one block carrying its id, branch and date. */
  lemma LinesOfUniform(ledger: Books, i: nat)
    requires Valid(ledger) && i < |ledger.entries|
    ensures var e := ledger.entries[i];
            var block := LinesOf(ledger.lines, e.id);
            Uniform(block, e.id, e.branchId, e.occurredAt)
            && forall k :: 0 <= k < |block| ==> RowOk(block[k]) && block[k].currency == e.currency
  {
    var e := ledger.entries[i];
    var block := LinesOf(ledger.lines, e.id);
    FindEntry(ledger.entries, ledger.nextEntryId, i);
    forall k | 0 <= k < |block|
      ensures block[k].entryId == e.id && block[k].branchId == e.branchId && block[k].occurredAt == e.occurredAt
      ensures RowOk(block[k]) && block[k].currency == e.currency
    {
      SelectSound(ledger.lines, ByEntry(e.id), block[k]);
    }
  }

  // ----- Inserting an entry with its block of lines -----

  /** `block` may be written for `entry`: it is the entry's own, and its rows are in order. */
  ghost predicate BlockOk(entry: Entry, block: seq<Line>) {
    && Uniform(block, entry.id, entry.branchId, entry.occurredAt)
    && forall k :: 0 <= k < |block| ==> RowOk(block[k]) && block[k].currency == entry.currency
  }

  lemma InsertLines(ledger: Books, entry: Entry, block: seq<Line>, id: nat)
    requires Valid(ledger) && entry.id == ledger.nextEntryId && BlockOk(entry, block)
    ensures LinesOf(ledger.lines + block, id) == if id == entry.id then block else LinesOf(ledger.lines, id)
  {
    SelectAppend(ledger.lines, block, ByEntry(id));
    SelectBlockByEntry(block, entry.id, entry.branchId, entry.occurredAt, id);
    LinesBelowSequence(ledger, entry.id);
  }

  lemma InsertKeepsLines(ledger: Books, entry: Entry, block: seq<Line>)
    requires Valid(ledger) && entry.id == ledger.nextEntryId && BlockOk(entry, block)
    ensures LinesOk(ledger.entries + [entry], ledger.lines + block)
  {
    var lines := ledger.lines + block;
    forall k | 0 <= k < |lines|
      ensures RowOk(lines[k]) && Owned(ledger.entries + [entry], lines[k])
    {
      FindAppend(ledger.entries, entry, 0, "", lines[k].entryId);
      if k < |ledger.lines| {
        assert lines[k] == ledger.lines[k];
      } else {
        assert lines[k] == block[k - |ledger.lines|];
        FindByIdSound(ledger.entries, entry.id);
      }
    }
  }

  lemma InsertKeepsKeys(ledger: Books, entry: Entry)
    requires Valid(ledger) && entry.id == ledger.nextEntryId
    requires FindByKey(ledger.entries, entry.branchId, entry.idempotencyKey) == None
    ensures KeysOk(ledger.entries + [entry], ledger.nextEntryId + 1)
  {
    FindByKeySound(ledger.entries, entry.branchId, entry.idempotencyKey);
  }

  // ----- post keeps the invariant -----

  lemma {:induction false} StoredLinesBlock(lines: seq<LineInput>, entry: Entry)
    requires FirstLineError(lines) == None
    ensures BlockOk(entry, StoredLines(lines, entry))
  {
    if lines != [] {
      StoredLinesBlock(lines[1..], entry);
      assert LineError(lines[0]) == None;
    }
  }

  lemma PostKeepsValid(ledger: Books, input: PostInput)
    requires Valid(ledger)
    ensures Valid(Post(ledger, input).0)
  {
    if Accepted(input) && FindByKey(ledger.entries, input.branchId, input.idempotencyKey) == None {
      var entry := NewEntry(input, ledger.nextEntryId);
      var block := StoredLines(input.lines, entry);
      StoredLinesBlock(input.lines, entry);
      InsertKeepsKeys(ledger, entry);
      InsertKeepsLines(ledger, entry, block);
      InsertKeepsLinks(ledger, entry);
      InsertKeepsMirrors(ledger, entry, block);
    }
  }

  lemma InsertKeepsLinks(ledger: Books, entry: Entry)
    requires Valid(ledger) && entry.reversesEntryId == None && entry.reversedByEntryId == None
    ensures LinksOk(ledger.entries + [entry])
  {
    var entries := ledger.entries + [entry];
    forall i | 0 <= i < |entries|
      ensures ReversedByOk(entries, entries[i]) && ReversesOk(entries, entries[i])
    {
      if i < |ledger.entries| {
        var e := ledger.entries[i];
        assert ReversedByOk(ledger.entries, e) && ReversesOk(ledger.entries, e);
        if e.reversedByEntryId.Some? { FindAppend(ledger.entries, entry, 0, "", e.reversedByEntryId.value); }
        if e.reversesEntryId.Some? { FindAppend(ledger.entries, entry, 0, "", e.reversesEntryId.value); }
      }
    }
  }

  lemma InsertKeepsMirrors(ledger: Books, entry: Entry, block: seq<Line>)
    requires Valid(ledger) && entry.id == ledger.nextEntryId && BlockOk(entry, block)
    ensures MirrorsOk(ledger.entries, ledger.lines + block)
    ensures entry.reversesEntryId == None ==> MirrorsOk(ledger.entries + [entry], ledger.lines + block)
  {
    forall i | 0 <= i < |ledger.entries| && ledger.entries[i].reversesEntryId.Some?
      ensures LinesOf(ledger.lines + block, ledger.entries[i].id)
              == Swapped(LinesOf(ledger.lines + block, ledger.entries[i].reversesEntryId.value),
                         ledger.entries[i].id, ledger.entries[i].occurredAt)
    {
      var e := ledger.entries[i];
      assert ReversesOk(ledger.entries, e);
      FindByIdSound(ledger.entries, e.reversesEntryId.value);
      InsertLines(ledger, entry, block, e.id);
      InsertLines(ledger, entry, block, e.reversesEntryId.value);
    }
  }

  // ----- reverse keeps the invariant -----

  lemma SwappedBlock(ledger: Books, i: nat, reversal: Entry)
    requires Valid(ledger) && i < |ledger.entries|
    requires reversal.branchId == ledger.entries[i].branchId && reversal.currency == ledger.entries[i].currency
    ensures BlockOk(reversal, Swapped(LinesOf(ledger.lines, ledger.entries[i].id), reversal.id, reversal.occurredAt))
  {
    LinesOfUniform(ledger, i);
  }

  /** Marking changes no key, no line's owner and no mirror. */
  lemma MarkKeeps(entries: seq<Entry>, lines: seq<Line>, nextEntryId: nat, id: nat, reversalId: nat)
    requires KeysOk(entries, nextEntryId) && LinesOk(entries, lines) && MirrorsOk(entries, lines)
    ensures var marked := MarkReversed(entries, id, reversalId);
            KeysOk(marked, nextEntryId) && LinesOk(marked, lines) && MirrorsOk(marked, lines)
  {
    var marked := MarkReversed(entries, id, reversalId);
    forall k | 0 <= k < |lines|
      ensures RowOk(lines[k]) && Owned(marked, lines[k])
    {
      FindMarked(entries, id, reversalId, 0, "", lines[k].entryId);
    }
  }

  lemma MarkedLinks(ledger: Books, reversal: Entry, original: Entry)
    requires Valid(ledger) && FindById(ledger.entries, original.id) == Some(original)
    requires reversal.id == ledger.nextEntryId && reversal.branchId == original.branchId
    requires reversal.reversesEntryId == Some(original.id) && reversal.reversedByEntryId == None
    ensures LinksOk(MarkReversed(ledger.entries + [reversal], original.id, reversal.id))
  {
    var inserted := ledger.entries + [reversal];
    var marked := MarkReversed(inserted, original.id, reversal.id);
    FindByIdSound(ledger.entries, reversal.id);
    FindByIdSound(ledger.entries, original.id);
    forall i | 0 <= i < |marked|
      ensures ReversedByOk(marked, marked[i]) && ReversesOk(marked, marked[i])
    {
      LookupAfterReverse(ledger, reversal, original.id, reversal.id);
      LookupAfterReverse(ledger, reversal, original.id, original.id);
      if i < |ledger.entries| {
        var e := ledger.entries[i];
        assert ReversedByOk(ledger.entries, e) && ReversesOk(ledger.entries, e);
        if e.reversedByEntryId.Some? {
          LookupAfterReverse(ledger, reversal, original.id, e.reversedByEntryId.value);
        }
        if e.reversesEntryId.Some? {
          LookupAfterReverse(ledger, reversal, original.id, e.reversesEntryId.value);
        }
        FindEntry(ledger.entries, ledger.nextEntryId, i);
      }
    }
  }

  lemma LookupAfterReverse(ledger: Books, reversal: Entry, id: nat, other: nat)
    ensures FindById(MarkReversed(ledger.entries + [reversal], id, reversal.id), other)
            == MarkFound(if FindById(ledger.entries, other).Some? then FindById(ledger.entries, other)
                         else if reversal.id == other then Some(reversal) else None, id, reversal.id)
  {
    FindAppend(ledger.entries, reversal, 0, "", other);
    FindMarked(ledger.entries + [reversal], id, reversal.id, 0, "", other);
  }

  lemma FoundAt(entries: seq<Entry>, id: nat) returns (i: nat)
    requires FindById(entries, id).Some?
    ensures i < |entries| && entries[i] == FindById(entries, id).value && entries[i].id == id
  {
    FindByIdSound(entries, id);
    i :| i < |entries| && entries[i] == FindById(entries, id).value;
  }

  lemma ReverseKeepsValid(ledger: Books, opts: ReverseInput)
    requires Valid(ledger)
    ensures Valid(Reverse(ledger, opts).0)
  {
    var original := FindById(ledger.entries, opts.entryId);
    if original.Some? && FindByKey(ledger.entries, original.value.branchId, opts.idempotencyKey) == None {
      var i := FoundAt(ledger.entries, opts.entryId);
      var reversal := ReversalOf(original.value, opts, ledger.nextEntryId);
      var block := Swapped(LinesOf(ledger.lines, opts.entryId), reversal.id, opts.occurredAt);
      SwappedBlock(ledger, i, reversal);
      InsertKeepsKeys(ledger, reversal);
      InsertKeepsLines(ledger, reversal, block);
      InsertKeepsMirrors(ledger, reversal, block);
      InsertLines(ledger, reversal, block, reversal.id);
      InsertLines(ledger, reversal, block, opts.entryId);
      assert MirrorsOk(ledger.entries + [reversal], ledger.lines + block);
      MarkKeeps(ledger.entries + [reversal], ledger.lines + block, ledger.nextEntryId + 1, opts.entryId, reversal.id);
      MarkedLinks(ledger, reversal, original.value);
    }
  }

  // ----- Every run -----

  lemma StepKeepsValid(ledger: Books, op: Op)
    requires Valid(ledger)
    ensures Valid(Step(ledger, op))
  {
    match op
    case PostOp(input) => PostKeepsValid(ledger, input);
    case ReverseOp(opts) => ReverseKeepsValid(ledger, opts);
  }

  lemma {:induction false} RunKeepsValid(ledger: Books, ops: seq<Op>)
    requires Valid(ledger)
    ensures Valid(Run(ledger, ops))
    decreases |ops|
  {
    if ops != [] {
      StepKeepsValid(ledger, ops[0]);
      RunKeepsValid(Step(ledger, ops[0]), ops[1..]);
    }
  }
}
