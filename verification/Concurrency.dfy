/**
 Concurrent posting and reversing. Each call is a database transaction that takes its steps one at a time and
 interleaves with any number of others. A post looks for its key among committed entries, inserts its entry under
 the unique (branch, key) index, inserts its lines and commits. A reversal finds the original, looks for its key,
 reads the original's lines, inserts the mirror entry and its lines, updates the original's row and commits. Any
 of them may abort at any point. A key or a row another open transaction holds makes the step wait; a committed
 key makes the insert fail.
 */
module Concurrency {
  import opened Outcomes
  import opened Journal
  import opened Ledger
  import opened LedgerInvariant
  import opened Retry

  datatype Stage =
    | Begun | Located | Searched | Read | Inserted | Written | Updated
    | Returned | Committed | Aborted(duplicate: bool)

  /** A transaction: the call, how far it got, and what it has read and prepared. */
  datatype Tx = Tx(
    op: Op, stage: Stage, original: Option<Entry>, source: seq<Line>, entry: Option<Entry>, lines: seq<Line>)
  {
    /** What a transaction of its kind has at hand at its stage. */
    predicate WellFormed() {
      && (op.PostOp? ==> Accepted(op.input))
      && (op.PostOp? ==> !stage.Located? && !stage.Read? && !stage.Updated?)
      && (stage.Begun? || stage.Located? || stage.Searched? || stage.Read? ==> entry.None?)
      && (stage.Inserted? || stage.Written? || stage.Updated? || stage.Committed? ==> entry.Some?)
      && (stage.Returned? ==> (entry.None? <==> op.ReverseOp? && original.None?))
      && (op.ReverseOp? && original.None? ==> stage.Begun? || stage.Returned? || stage == Aborted(false))
    }

    /** The transaction has an uncommitted row in the unique index. */
    predicate Holds() {
      (stage.Inserted? || stage.Written? || stage.Updated?) && entry.Some?
    }

    predicate Finished() {
      stage.Returned? || stage.Committed? || stage.Aborted?
    }

    /** The next step is the insert of the entry. */
    predicate ReadyToInsert() {
      if op.PostOp? then stage.Searched? else stage.Read? && original.Some?
    }

    predicate ReadyToCommit() {
      Holds() && if op.PostOp? then stage.Written? else stage.Updated?
    }

    /** The (branch, key) the call is about; a reversal's branch is its original's. */
    function Target(): Key
      requires op.ReverseOp? ==> original.Some?
    {
      match op
      case PostOp(input) => KeyOf(input)
      case ReverseOp(opts) => (original.value.branchId, opts.idempotencyKey)
    }

    /** The entry the call inserts. */
    function Draft(id: nat): Entry
      requires op.ReverseOp? ==> original.Some?
    {
      match op
      case PostOp(input) => NewEntry(input, id)
      case ReverseOp(opts) => ReversalOf(original.value, opts, id)
    }

    /** The lines the call inserts with it. */
    function Block(e: Entry): seq<Line> {
      match op
      case PostOp(input) => StoredLines(input.lines, e)
      case ReverseOp(opts) => Swapped(source, e.id, opts.occurredAt)
    }
  }

  /**
   Committed tables, the id sequence (never rolled back), the transactions, and the calls in commit order. In the
   history a reversal names its original by commit position, counted from one.
   */
  datatype System = System(
    entries: seq<Entry>, lines: seq<Line>, sequence: nat, txs: map<nat, Tx>, history: seq<Op>)

  const START := System([], [], 1, map[], [])

  datatype Event =
    | Begin(tx: nat, op: Op)
    | FindOriginal(tx: nat)
    | FindKey(tx: nat)
    | ReadLines(tx: nat)
    | InsertEntry(tx: nat)
    | InsertLines(tx: nat)
    | UpdateOriginal(tx: nat)
    | Commit(tx: nat)
    | Abort(tx: nat)

  /** Another open transaction has claimed the key. */
  predicate Claimed(s: System, tx: nat, key: Key) {
    exists other :: other in s.txs && other != tx && s.txs[other].Holds() && EntryKey(s.txs[other].entry.value) == key
  }

  /** Another open transaction has updated the original's row and holds its lock. */
  predicate Locked(s: System, tx: nat, id: nat) {
    exists other :: other in s.txs && other != tx && s.txs[other].stage.Updated?
                    && s.txs[other].op.ReverseOp? && s.txs[other].op.opts.entryId == id
  }

  /** The commit position of an entry, counted from one; zero for an id that is not committed. */
  function Position(entries: seq<Entry>, id: nat): nat {
    if entries == [] then 0
    else
      var last := |entries| - 1;
      var before := Position(entries[..last], id);
      if before > 0 then before else if entries[last].id == id then last + 1 else 0
  }

  function HistoryOp(s: System, op: Op): Op {
    match op
    case PostOp(input) => op
    case ReverseOp(opts) => ReverseOp(opts.(entryId := Position(s.entries, opts.entryId)))
  }

  function CommitTx(s: System, tx: nat): System
    requires tx in s.txs && s.txs[tx].ReadyToCommit()
  {
    var t := s.txs[tx];
    var inserted := s.entries + [t.entry.value];
    System(if t.op.PostOp? then inserted else MarkReversed(inserted, t.op.opts.entryId, t.entry.value.id),
           s.lines + t.lines, s.sequence, s.txs[tx := t.(stage := Committed)], s.history + [HistoryOp(s, t.op)])
  }

  function Move(s: System, tx: nat, t: Tx): System {
    s.(txs := s.txs[tx := t])
  }

  /** One event. An event that is not possible in the state, or has to wait, changes nothing. */
  function Next(s: System, event: Event): System {
    if event.Begin? then
      if event.tx !in s.txs && (event.op.PostOp? ==> Accepted(event.op.input))
      then Move(s, event.tx, Tx(event.op, Begun, None, [], None, [])) else s
    else if event.tx !in s.txs || s.txs[event.tx].Finished() then s
    else NextOf(s, event.tx, s.txs[event.tx], event)
  }

  function NextOf(s: System, tx: nat, t: Tx, event: Event): System
    requires tx in s.txs && s.txs[tx] == t && !t.Finished() && !event.Begin?
  {
    match event
    case FindOriginal(_) =>
      if t.stage.Begun? && t.op.ReverseOp? then
        var original := FindById(s.entries, t.op.opts.entryId);
        Move(s, tx, t.(stage := if original.Some? then Located else Returned, original := original))
      else s
    case FindKey(_) =>
      if (if t.op.PostOp? then t.stage.Begun? else t.stage.Located? && t.original.Some?) then
        var existing := FindByKey(s.entries, t.Target().0, t.Target().1);
        Move(s, tx, t.(stage := if existing.Some? then Returned else Searched, entry := existing))
      else s
    case ReadLines(_) =>
      if t.stage.Searched? && t.op.ReverseOp?
      then Move(s, tx, t.(stage := Read, source := LinesOf(s.lines, t.op.opts.entryId))) else s
    case InsertEntry(_) =>
      if t.ReadyToInsert() && !Claimed(s, tx, t.Target()) then
        var taken := FindByKey(s.entries, t.Target().0, t.Target().1).Some?;
        var next := if taken then t.(stage := Aborted(true))
                    else t.(stage := Inserted, entry := Some(t.Draft(s.sequence)));
        Move(s, tx, next).(sequence := s.sequence + 1)
      else s
    case InsertLines(_) =>
      if t.stage.Inserted? && t.entry.Some?
      then Move(s, tx, t.(stage := Written, lines := t.Block(t.entry.value))) else s
    case UpdateOriginal(_) =>
      if t.stage.Written? && t.op.ReverseOp? && !Locked(s, tx, t.op.opts.entryId)
      then Move(s, tx, t.(stage := Updated)) else s
    case Commit(_) => if t.ReadyToCommit() then CommitTx(s, tx) else s
    case Abort(_) => Move(s, tx, t.(stage := Aborted(false)))
  }

  function Schedule(s: System, events: seq<Event>): System
    decreases |events|
  {
    if events == [] then s else Schedule(Next(s, events[0]), events[1..])
  }

  // ----- The invariant -----

  /** The same row, whatever has been written to its `reversedByEntryId` since. */
  predicate SameRow(a: Entry, b: Entry) {
    a == b.(reversedByEntryId := a.reversedByEntryId)
  }

  ghost predicate HasRow(entries: seq<Entry>, e: Entry) {
    exists i :: 0 <= i < |entries| && SameRow(entries[i], e)
  }

  ghost predicate DistinctEntries(entries: seq<Entry>) {
    forall i, j :: 0 <= i < j < |entries| ==>
      entries[i].id != entries[j].id && EntryKey(entries[i]) != EntryKey(entries[j])
  }

  ghost predicate HasKey(entries: seq<Entry>, key: Key) {
    exists i :: 0 <= i < |entries| && EntryKey(entries[i]) == key
  }

  /** A reversal past its first lookup has a committed original, and past its read that original's lines. */
  ghost predicate OriginalOk(s: System, t: Tx) {
    t.op.ReverseOp? && t.original.Some? ==>
      && HasRow(s.entries, t.original.value) && t.original.value.id == t.op.opts.entryId
      && (t.stage.Read? || t.Holds() ==> t.source == LinesOf(s.lines, t.op.opts.entryId))
  }

  /** Neither the id nor the key of the entry is committed. */
  ghost predicate Unused(entries: seq<Entry>, e: Entry) {
    forall i :: 0 <= i < |entries| ==> entries[i].id != e.id && EntryKey(entries[i]) != EntryKey(e)
  }

  /** An open claim: the drafted entry, under an id and a key that are not committed. */
  ghost predicate ClaimOk(s: System, t: Tx)
    requires t.WellFormed()
  {
    t.Holds() ==>
      && t.entry.value == t.Draft(t.entry.value.id) && t.entry.value.id < s.sequence
      && Unused(s.entries, t.entry.value)
      && (!t.stage.Inserted? ==> t.lines == t.Block(t.entry.value))
  }

  /** What a finished transaction may rely on. */
  ghost predicate OutcomeOk(s: System, t: Tx)
    requires t.WellFormed()
  {
    && ((t.stage.Returned? || t.stage.Committed?) && t.entry.Some? ==>
         HasRow(s.entries, t.entry.value) && EntryKey(t.entry.value) == t.Target())
    && (t.stage == Aborted(true) ==> HasKey(s.entries, t.Target()))
  }

  ghost predicate TxOk(s: System, t: Tx) {
    t.WellFormed() && OriginalOk(s, t) && ClaimOk(s, t) && OutcomeOk(s, t)
  }

  /** Two open transactions never claim the same id or the same key. */
  ghost predicate ClaimsDiffer(s: System) {
    forall a, b :: a in s.txs && b in s.txs && a != b && s.txs[a].Holds() && s.txs[b].Holds() ==>
      s.txs[a].entry.value.id != s.txs[b].entry.value.id
      && EntryKey(s.txs[a].entry.value) != EntryKey(s.txs[b].entry.value)
  }

  /**
   The i-th committed entry, with its lines, is what the i-th call of the history asks for: a post's entry with all
   its lines, or the mirror of an entry committed before it in the same branch.
   */
  ghost predicate CompleteAt(s: System, i: nat) {
    && i < |s.entries| == |s.history|
    && var e, lines := s.entries[i], LinesOf(s.lines, s.entries[i].id);
       match s.history[i]
       case PostOp(input) =>
         && Accepted(input) && SameRow(e, NewEntry(input, e.id))
         && lines == StoredLines(input.lines, NewEntry(input, e.id))
       case ReverseOp(opts) =>
         && 0 < opts.entryId <= i
         && var original := s.entries[opts.entryId - 1];
            && SameRow(e, ReversalOf(original, opts.(entryId := original.id), e.id))
            && lines == Swapped(LinesOf(s.lines, original.id), e.id, opts.occurredAt)
  }

  ghost predicate LineOwned(entries: seq<Entry>, line: Line) {
    exists i :: 0 <= i < |entries| && entries[i].id == line.entryId
  }

  ghost predicate IdsIssued(entries: seq<Entry>, sequence: nat) {
    forall i :: 0 <= i < |entries| ==> entries[i].id < sequence
  }

  ghost predicate LinesOwned(entries: seq<Entry>, lines: seq<Line>) {
    forall k :: 0 <= k < |lines| ==> LineOwned(entries, lines[k])
  }

  ghost predicate HistoryComplete(s: System) {
    |s.entries| == |s.history| && forall i :: 0 <= i < |s.entries| ==> CompleteAt(s, i)
  }

  ghost predicate TablesOk(s: System) {
    && DistinctEntries(s.entries)
    && IdsIssued(s.entries, s.sequence)
    && LinesOwned(s.entries, s.lines)
    && HistoryComplete(s)
  }

  ghost predicate TxsOk(s: System) {
    (forall tx :: tx in s.txs ==> TxOk(s, s.txs[tx])) && ClaimsDiffer(s)
  }

  ghost predicate Consistent(s: System) {
    TablesOk(s) && TxsOk(s)
  }

  // ----- Rows and positions -----

  lemma RowByKey(entries: seq<Entry>, branch: int, key: string)
    ensures var found := FindByKey(entries, branch, key);
            if found.Some? then HasRow(entries, found.value) && EntryKey(found.value) == (branch, key)
            else forall i :: 0 <= i < |entries| ==> EntryKey(entries[i]) != (branch, key)
  {
    FindByKeySound(entries, branch, key);
    if FindByKey(entries, branch, key).Some? {
      var i :| 0 <= i < |entries| && entries[i] == FindByKey(entries, branch, key).value;
      assert SameRow(entries[i], entries[i]);
    }
  }

  lemma RowById(entries: seq<Entry>, id: nat)
    requires FindById(entries, id).Some?
    ensures HasRow(entries, FindById(entries, id).value) && FindById(entries, id).value.id == id
  {
    var i := FoundAt(entries, id);
    assert SameRow(entries[i], entries[i]);
  }

  lemma {:induction false} PositionAt(entries: seq<Entry>, i: nat)
    requires DistinctEntries(entries) && i < |entries|
    ensures Position(entries, entries[i].id) == i + 1
  {
    var last := |entries| - 1;
    if i < last {
      PositionAt(entries[..last], i);
    } else {
      PositionNone(entries[..last], entries[i].id);
    }
  }

  lemma {:induction false} PositionNone(entries: seq<Entry>, id: nat)
    requires forall i :: 0 <= i < |entries| ==> entries[i].id != id
    ensures Position(entries, id) == 0
  {
    if entries != [] {
      PositionNone(entries[..|entries| - 1], id);
    }
  }

  // ----- A step that moves one transaction on -----

  /** No other transaction that holds a row claims the id or the key that `t` claims. */
  ghost predicate ClaimsNothingClaimed(s: System, tx: nat, t: Tx) {
    t.Holds() ==> forall other :: other in s.txs && other != tx && s.txs[other].Holds() ==>
      s.txs[other].entry.value.id != t.entry.value.id
      && EntryKey(s.txs[other].entry.value) != EntryKey(t.entry.value)
  }

  lemma MoveKeepsClaims(s: System, next: System, tx: nat, t: Tx)
    requires ClaimsDiffer(s) && ClaimsNothingClaimed(s, tx, t) && next.txs == s.txs[tx := t]
    ensures ClaimsDiffer(next)
  {
  }

  /** The tables stay as they are, the moved transaction is in order, and it claims nothing that is claimed. */
  lemma MoveKeepsConsistent(s: System, next: System, tx: nat, t: Tx)
    requires Consistent(s) && s.sequence <= next.sequence
    requires next == Move(s, tx, t).(sequence := next.sequence)
    requires TxOk(next, t) && ClaimsNothingClaimed(s, tx, t)
    ensures Consistent(next)
  {
    TablesSurviveMove(s, next);
    MoveKeepsClaims(s, next, tx, t);
    forall other | other in next.txs
      ensures TxOk(next, next.txs[other])
    {
      if other != tx {
        TxSurvivesMove(s, next, s.txs[other]);
      }
    }
  }

  lemma TablesSurviveMove(s: System, next: System)
    requires TablesOk(s) && s.sequence <= next.sequence
    requires next.entries == s.entries && next.lines == s.lines && next.history == s.history
    ensures TablesOk(next)
  {
    forall i | 0 <= i < |next.entries|
      ensures CompleteAt(next, i)
    {
      assert CompleteAt(s, i);
    }
  }

  lemma TxSurvivesMove(s: System, next: System, t: Tx)
    requires TxOk(s, t) && next.entries == s.entries && next.lines == s.lines && s.sequence <= next.sequence
    ensures TxOk(next, t)
  {
  }

  /** A transaction that holds nothing after the step. */
  lemma QuietMove(s: System, tx: nat, t: Tx)
    requires Consistent(s) && !t.Holds() && TxOk(s, t)
    ensures Consistent(Move(s, tx, t))
  {
    TxSurvivesMove(s, Move(s, tx, t), t);
    MoveKeepsConsistent(s, Move(s, tx, t), tx, t);
  }

  /** A transaction that goes on holding what it held. */
  lemma HoldingMove(s: System, tx: nat, t: Tx)
    requires Consistent(s) && tx in s.txs && s.txs[tx].Holds() && t.entry == s.txs[tx].entry && TxOk(s, t)
    ensures Consistent(Move(s, tx, t))
  {
    TxSurvivesMove(s, Move(s, tx, t), t);
    assert ClaimsNothingClaimed(s, tx, t);
    MoveKeepsConsistent(s, Move(s, tx, t), tx, t);
  }

  lemma BeginStep(s: System, tx: nat, op: Op)
    requires Consistent(s) && tx !in s.txs && (op.PostOp? ==> Accepted(op.input))
    ensures Consistent(Next(s, Begin(tx, op)))
  {
    QuietMove(s, tx, Tx(op, Begun, None, [], None, []));
  }

  lemma FindOriginalStep(s: System, tx: nat)
    requires Consistent(s) && tx in s.txs && s.txs[tx].stage.Begun? && s.txs[tx].op.ReverseOp?
    ensures Consistent(NextOf(s, tx, s.txs[tx], FindOriginal(tx)))
  {
    var t := s.txs[tx];
    assert TxOk(s, t);
    var original := FindById(s.entries, t.op.opts.entryId);
    if original.Some? {
      RowById(s.entries, t.op.opts.entryId);
    }
    QuietMove(s, tx, t.(stage := if original.Some? then Located else Returned, original := original));
  }

  lemma FindKeyStep(s: System, tx: nat)
    requires Consistent(s) && tx in s.txs && !s.txs[tx].Finished()
    ensures Consistent(NextOf(s, tx, s.txs[tx], FindKey(tx)))
  {
    var t := s.txs[tx];
    assert TxOk(s, t);
    if if t.op.PostOp? then t.stage.Begun? else t.stage.Located? {
      RowByKey(s.entries, t.Target().0, t.Target().1);
      var existing := FindByKey(s.entries, t.Target().0, t.Target().1);
      QuietMove(s, tx, t.(stage := if existing.Some? then Returned else Searched, entry := existing));
    }
  }

  lemma ReadLinesStep(s: System, tx: nat)
    requires Consistent(s) && tx in s.txs && s.txs[tx].stage.Searched? && s.txs[tx].op.ReverseOp?
    ensures Consistent(NextOf(s, tx, s.txs[tx], ReadLines(tx)))
  {
    var t := s.txs[tx];
    assert TxOk(s, t);
    QuietMove(s, tx, t.(stage := Read, source := LinesOf(s.lines, t.op.opts.entryId)));
  }

  /** A fresh draft claims nothing that is committed or claimed. */
  lemma DraftClaims(s: System, tx: nat, next: System, t: Tx)
    requires TxsOk(s) && IdsIssued(s.entries, s.sequence) && TxOk(s, t)
    requires t.ReadyToInsert() && !t.Finished() && !Claimed(s, tx, t.Target())
    requires FindByKey(s.entries, t.Target().0, t.Target().1) == None
    requires next.entries == s.entries && next.lines == s.lines && next.sequence == s.sequence + 1
    ensures var claim := t.(stage := Inserted, entry := Some(t.Draft(s.sequence)));
            TxOk(next, claim) && ClaimsNothingClaimed(s, tx, claim)
  {
    RowByKey(s.entries, t.Target().0, t.Target().1);
    var claim := t.(stage := Inserted, entry := Some(t.Draft(s.sequence)));
    assert EntryKey(claim.entry.value) == t.Target();
    forall other | other in s.txs && other != tx && s.txs[other].Holds()
      ensures s.txs[other].entry.value.id < s.sequence
    {
      assert TxOk(s, s.txs[other]);
    }
  }

  lemma InsertEntryStep(s: System, tx: nat)
    requires Consistent(s) && tx in s.txs && s.txs[tx].ReadyToInsert()
    requires !s.txs[tx].Finished() && !Claimed(s, tx, s.txs[tx].Target())
    ensures Consistent(NextOf(s, tx, s.txs[tx], InsertEntry(tx)))
  {
    var t := s.txs[tx];
    assert TxOk(s, t);
    var next := NextOf(s, tx, t, InsertEntry(tx));
    if FindByKey(s.entries, t.Target().0, t.Target().1).Some? {
      RowByKey(s.entries, t.Target().0, t.Target().1);
      TxSurvivesMove(s, next, t);
      RowHasKey(s.entries, FindByKey(s.entries, t.Target().0, t.Target().1).value);
    } else {
      DraftClaims(s, tx, next, t);
    }
    MoveKeepsConsistent(s, next, tx, next.txs[tx]);
  }

  lemma RowHasKey(entries: seq<Entry>, e: Entry)
    requires HasRow(entries, e)
    ensures HasKey(entries, EntryKey(e))
  {
    var i :| 0 <= i < |entries| && SameRow(entries[i], e);
    assert EntryKey(entries[i]) == EntryKey(e);
  }

  lemma InsertLinesStep(s: System, tx: nat)
    requires Consistent(s) && tx in s.txs && s.txs[tx].stage.Inserted?
    ensures Consistent(NextOf(s, tx, s.txs[tx], InsertLines(tx)))
  {
    var t := s.txs[tx];
    assert TxOk(s, t);
    HoldingMove(s, tx, t.(stage := Written, lines := t.Block(t.entry.value)));
  }

  lemma UpdateOriginalStep(s: System, tx: nat)
    requires Consistent(s) && tx in s.txs && s.txs[tx].stage.Written? && s.txs[tx].op.ReverseOp?
    ensures Consistent(Move(s, tx, s.txs[tx].(stage := Updated)))
  {
    assert TxOk(s, s.txs[tx]);
    HoldingMove(s, tx, s.txs[tx].(stage := Updated));
  }

  lemma AbortStep(s: System, tx: nat)
    requires Consistent(s) && tx in s.txs
    ensures Consistent(Move(s, tx, s.txs[tx].(stage := Aborted(false))))
  {
    assert TxOk(s, s.txs[tx]);
    QuietMove(s, tx, s.txs[tx].(stage := Aborted(false)));
  }

  // ----- A commit -----

  /** `after` is `before` with one more entry, whatever was written to `reversedByEntryId`. */
  ghost predicate Extends(after: seq<Entry>, before: seq<Entry>, e: Entry) {
    && |after| == |before| + 1
    && (forall i :: 0 <= i < |before| ==> SameRow(after[i], before[i]))
    && SameRow(after[|before|], e)
  }

  lemma CommitExtends(s: System, tx: nat)
    requires tx in s.txs && s.txs[tx].ReadyToCommit()
    ensures Extends(CommitTx(s, tx).entries, s.entries, s.txs[tx].entry.value)
  {
  }

  lemma ExtendsKeepsRow(after: seq<Entry>, before: seq<Entry>, e: Entry, row: Entry)
    requires Extends(after, before, e) && HasRow(before, row)
    ensures HasRow(after, row)
  {
    var i :| 0 <= i < |before| && SameRow(before[i], row);
    assert SameRow(after[i], row);
  }

  lemma ExtendsKeepsKey(after: seq<Entry>, before: seq<Entry>, e: Entry, key: Key)
    requires Extends(after, before, e) && HasKey(before, key)
    ensures HasKey(after, key)
  {
    var i :| 0 <= i < |before| && EntryKey(before[i]) == key;
    assert SameRow(after[i], before[i]);
  }

  lemma ExtendsKeepsUnused(after: seq<Entry>, before: seq<Entry>, e: Entry, other: Entry)
    requires Extends(after, before, e) && Unused(before, other)
    requires e.id != other.id && EntryKey(e) != EntryKey(other)
    ensures Unused(after, other)
  {
    forall i | 0 <= i < |after|
      ensures after[i].id != other.id && EntryKey(after[i]) != EntryKey(other)
    {
      assert i < |before| ==> SameRow(after[i], before[i]);
    }
  }

  lemma ExtendsKeepsDistinct(after: seq<Entry>, before: seq<Entry>, e: Entry)
    requires Extends(after, before, e) && DistinctEntries(before) && Unused(before, e)
    ensures DistinctEntries(after)
  {
    forall i, j | 0 <= i < j < |after|
      ensures after[i].id != after[j].id && EntryKey(after[i]) != EntryKey(after[j])
    {
      assert SameRow(after[i], before[i]);
      assert j < |before| ==> SameRow(after[j], before[j]);
    }
  }

  lemma {:induction false} BlockIsOwn(lines: seq<LineInput>, entry: Entry)
    ensures forall k :: 0 <= k < |StoredLines(lines, entry)| ==> StoredLines(lines, entry)[k].entryId == entry.id
  {
    if lines != [] {
      BlockIsOwn(lines[1..], entry);
    }
  }

  /** The lines a transaction commits are all the new entry's. */
  lemma OwnLines(s: System, t: Tx)
    requires TxOk(s, t) && t.ReadyToCommit()
    ensures forall k :: 0 <= k < |t.lines| ==> t.lines[k].entryId == t.entry.value.id
  {
    match t.op
    case PostOp(input) => BlockIsOwn(input.lines, t.entry.value);
    case ReverseOp(_) =>
  }

  /** A commit gives the new entry its block, and leaves the lines of every other entry as they are. */
  lemma CommitLines(s: System, tx: nat, id: nat)
    requires TablesOk(s) && tx in s.txs && s.txs[tx].ReadyToCommit() && TxOk(s, s.txs[tx])
    ensures LinesOf(CommitTx(s, tx).lines, id)
            == if id == s.txs[tx].entry.value.id then s.txs[tx].lines else LinesOf(s.lines, id)
  {
    var t := s.txs[tx];
    assert TxOk(s, t);
    OwnLines(s, t);
    SelectAppend(s.lines, t.lines, ByEntry(id));
    if id == t.entry.value.id {
      SelectAll(t.lines, ByEntry(id));
      forall k | 0 <= k < |s.lines|
        ensures !ByEntry(id).Matches(s.lines[k])
      {
        assert LineOwned(s.entries, s.lines[k]);
      }
      SelectNone(s.lines, ByEntry(id));
    } else {
      SelectNone(t.lines, ByEntry(id));
    }
  }

  lemma CommitKeepsOwners(s: System, tx: nat)
    requires TablesOk(s) && tx in s.txs && s.txs[tx].ReadyToCommit() && TxOk(s, s.txs[tx])
    ensures LinesOwned(CommitTx(s, tx).entries, CommitTx(s, tx).lines)
  {
    var t, next := s.txs[tx], CommitTx(s, tx);
    assert TxOk(s, t);
    CommitExtends(s, tx);
    OwnLines(s, t);
    forall k | 0 <= k < |next.lines|
      ensures LineOwned(next.entries, next.lines[k])
    {
      if k < |s.lines| {
        assert LineOwned(s.entries, s.lines[k]);
        var i :| 0 <= i < |s.entries| && s.entries[i].id == s.lines[k].entryId;
        assert SameRow(next.entries[i], s.entries[i]);
      } else {
        assert next.lines[k] == t.lines[k - |s.lines|];
        assert next.entries[|s.entries|].id == t.entry.value.id;
      }
    }
  }

  /** The i-th entry and its lines are the same row and the same lines after the commit. */
  lemma CommitKeepsEntry(s: System, tx: nat, i: nat)
    requires TablesOk(s) && tx in s.txs && s.txs[tx].ReadyToCommit() && TxOk(s, s.txs[tx]) && i < |s.entries|
    ensures SameRow(CommitTx(s, tx).entries[i], s.entries[i])
    ensures LinesOf(CommitTx(s, tx).lines, s.entries[i].id) == LinesOf(s.lines, s.entries[i].id)
  {
    CommitExtends(s, tx);
    CommitLines(s, tx, s.entries[i].id);
  }

  lemma CommitKeepsComplete(s: System, tx: nat, i: nat)
    requires TablesOk(s) && tx in s.txs && s.txs[tx].ReadyToCommit() && TxOk(s, s.txs[tx]) && i < |s.entries|
    ensures CompleteAt(CommitTx(s, tx), i)
  {
    assert CompleteAt(s, i) && CommitTx(s, tx).history[i] == s.history[i];
    CommitKeepsEntry(s, tx, i);
    if s.history[i].ReverseOp? {
      CommitKeepsEntry(s, tx, s.history[i].opts.entryId - 1);
    }
  }

  lemma CommitCompletes(s: System, tx: nat)
    requires TablesOk(s) && tx in s.txs && s.txs[tx].ReadyToCommit() && TxOk(s, s.txs[tx])
    ensures CompleteAt(CommitTx(s, tx), |s.entries|)
  {
    var t, next := s.txs[tx], CommitTx(s, tx);
    assert TxOk(s, t);
    CommitExtends(s, tx);
    CommitLines(s, tx, t.entry.value.id);
    if t.op.ReverseOp? {
      var j :| 0 <= j < |s.entries| && SameRow(s.entries[j], t.original.value);
      PositionAt(s.entries, j);
      assert SameRow(next.entries[j], s.entries[j]);
      CommitLines(s, tx, s.entries[j].id);
    }
  }

  lemma CommitKeepsHistory(s: System, tx: nat)
    requires TablesOk(s) && tx in s.txs && s.txs[tx].ReadyToCommit() && TxOk(s, s.txs[tx])
    ensures HistoryComplete(CommitTx(s, tx))
  {
    forall i | 0 <= i < |s.entries|
      ensures CompleteAt(CommitTx(s, tx), i)
    {
      CommitKeepsComplete(s, tx, i);
    }
    CommitCompletes(s, tx);
    CommitExtends(s, tx);
  }

  lemma ExtendsKeepsIssued(after: seq<Entry>, before: seq<Entry>, e: Entry, sequence: nat)
    requires Extends(after, before, e) && IdsIssued(before, sequence) && e.id < sequence
    ensures IdsIssued(after, sequence)
  {
    forall i | 0 <= i < |before|
      ensures after[i].id < sequence
    {
      assert SameRow(after[i], before[i]);
    }
  }

  lemma CommitKeepsTables(s: System, tx: nat)
    requires TablesOk(s) && tx in s.txs && s.txs[tx].ReadyToCommit() && TxOk(s, s.txs[tx])
    ensures TablesOk(CommitTx(s, tx))
  {
    CommitExtends(s, tx);
    ExtendsKeepsDistinct(CommitTx(s, tx).entries, s.entries, s.txs[tx].entry.value);
    ExtendsKeepsIssued(CommitTx(s, tx).entries, s.entries, s.txs[tx].entry.value, s.sequence);
    CommitKeepsOwners(s, tx);
    CommitKeepsHistory(s, tx);
  }

  lemma CommitKeepsOriginal(s: System, tx: nat, u: Tx)
    requires TablesOk(s) && tx in s.txs && s.txs[tx].ReadyToCommit() && TxOk(s, s.txs[tx])
    requires OriginalOk(s, u)
    ensures OriginalOk(CommitTx(s, tx), u)
  {
    CommitExtends(s, tx);
    if u.op.ReverseOp? && u.original.Some? {
      ExtendsKeepsRow(CommitTx(s, tx).entries, s.entries, s.txs[tx].entry.value, u.original.value);
      CommitLines(s, tx, u.op.opts.entryId);
    }
  }

  lemma CommitKeepsOutcome(s: System, tx: nat, u: Tx)
    requires tx in s.txs && s.txs[tx].ReadyToCommit() && u.WellFormed() && OutcomeOk(s, u)
    ensures OutcomeOk(CommitTx(s, tx), u)
  {
    var after, e := CommitTx(s, tx).entries, s.txs[tx].entry.value;
    CommitExtends(s, tx);
    if (u.stage.Returned? || u.stage.Committed?) && u.entry.Some? {
      ExtendsKeepsRow(after, s.entries, e, u.entry.value);
    }
    if u.stage == Aborted(true) {
      ExtendsKeepsKey(after, s.entries, e, u.Target());
    }
  }

  lemma CommitKeepsTx(s: System, tx: nat, other: nat)
    requires Consistent(s) && tx in s.txs && s.txs[tx].ReadyToCommit() && other in s.txs
    ensures TxOk(CommitTx(s, tx), CommitTx(s, tx).txs[other])
  {
    var t, u, next := s.txs[tx], s.txs[other], CommitTx(s, tx);
    assert TxOk(s, t) && TxOk(s, u);
    CommitExtends(s, tx);
    CommitKeepsOriginal(s, tx, u);
    if other == tx {
      assert SameRow(next.entries[|s.entries|], t.entry.value);
    } else {
      CommitKeepsOutcome(s, tx, u);
      if u.Holds() {
        ExtendsKeepsUnused(next.entries, s.entries, t.entry.value, u.entry.value);
      }
    }
  }

  lemma CommitStep(s: System, tx: nat)
    requires Consistent(s) && tx in s.txs && s.txs[tx].ReadyToCommit()
    ensures Consistent(CommitTx(s, tx))
  {
    var next := CommitTx(s, tx);
    CommitKeepsTables(s, tx);
    assert TxsOk(next) by {
      forall other | other in next.txs
        ensures TxOk(next, next.txs[other])
      {
        CommitKeepsTx(s, tx, other);
      }
    }
  }

  // ----- Every schedule -----

  lemma NextKeepsConsistent(s: System, event: Event)
    requires Consistent(s)
    ensures Consistent(Next(s, event))
  {
    if Next(s, event) != s {
      match event
      case Begin(tx, op) => BeginStep(s, tx, op);
      case FindOriginal(tx) => FindOriginalStep(s, tx);
      case FindKey(tx) => FindKeyStep(s, tx);
      case ReadLines(tx) => ReadLinesStep(s, tx);
      case InsertEntry(tx) => InsertEntryStep(s, tx);
      case InsertLines(tx) => InsertLinesStep(s, tx);
      case UpdateOriginal(tx) => UpdateOriginalStep(s, tx);
      case Commit(tx) => CommitStep(s, tx);
      case Abort(tx) => AbortStep(s, tx);
    }
  }

  lemma {:induction false} ScheduleKeepsConsistent(s: System, events: seq<Event>)
    requires Consistent(s)
    ensures Consistent(Schedule(s, events))
    decreases |events|
  {
    if events != [] {
      NextKeepsConsistent(s, events[0]);
      ScheduleKeepsConsistent(Next(s, events[0]), events[1..]);
    }
  }

  // ----- The theorems -----

  /**
   Whatever the interleaving: one entry a key, each with the full line set of one accepted post or the exact mirror
   of an entry committed before it, and no line without its entry.
   */
  lemma InterleavingsAreSafe(events: seq<Event>)
    ensures var s := Schedule(START, events);
            && DistinctEntries(s.entries)
            && |s.entries| == |s.history|
            && (forall i :: 0 <= i < |s.entries| ==> CompleteAt(s, i))
            && (forall k :: 0 <= k < |s.lines| ==> LineOwned(s.entries, s.lines[k]))
  {
    ScheduleKeepsConsistent(START, events);
  }
}
