/**
 What concurrent calls come to one by one. No call is lost: however it is interleaved, a call that is not aborted and
 finishes leaves its key committed. No call waits forever: from every reachable state all calls can finish. And a call
 that runs alone does what the sequential operation does.
 */
module Progress {
  import opened Outcomes
  import opened Journal
  import opened Ledger
  import opened LedgerInvariant
  import opened Retry
  import opened Concurrency

  // ----- No call is lost -----

  lemma {:induction false} ScheduleAppend(s: System, events: seq<Event>, more: seq<Event>)
    ensures Schedule(s, events + more) == Schedule(Schedule(s, events), more)
    decreases |events|
  {
    if events == [] {
      assert events + more == more;
    } else {
      assert (events + more)[1..] == events[1..] + more;
      ScheduleAppend(Next(s, events[0]), events[1..], more);
    }
  }

  lemma ScheduleCons(s: System, event: Event, rest: seq<Event>)
    ensures Schedule(s, [event] + rest) == Schedule(Next(s, event), rest)
  {
    assert ([event] + rest)[1..] == rest;
  }

  predicate NoAbort(events: seq<Event>, tx: nat) {
    forall k :: 0 <= k < |events| ==> events[k] != Abort(tx)
  }

  /** The call is under way, or has ended otherwise than by an abort. */
  predicate Lives(s: System, tx: nat, op: Op) {
    tx in s.txs && s.txs[tx].op == op && s.txs[tx].stage != Aborted(false)
  }

  lemma NextKeepsLives(s: System, event: Event, tx: nat, op: Op)
    requires Lives(s, tx, op) && event != Abort(tx)
    ensures Lives(Next(s, event), tx, op)
  {
  }

  lemma {:induction false} ScheduleKeepsLives(s: System, events: seq<Event>, tx: nat, op: Op)
    requires Lives(s, tx, op) && NoAbort(events, tx)
    ensures Lives(Schedule(s, events), tx, op)
    decreases |events|
  {
    if events != [] {
      NextKeepsLives(s, events[0], tx, op);
      ScheduleKeepsLives(Next(s, events[0]), events[1..], tx, op);
    }
  }

  /** A post that has ended otherwise than by an abort has its key committed. */
  lemma PostLeavesKey(s: System, tx: nat, input: PostInput)
    requires Consistent(s) && Lives(s, tx, PostOp(input)) && s.txs[tx].Finished()
    ensures HasKey(s.entries, (input.branchId, input.idempotencyKey))
  {
    assert TxOk(s, s.txs[tx]);
    if !s.txs[tx].stage.Aborted? {
      RowHasKey(s.entries, s.txs[tx].entry.value);
    }
  }

  /** An accepted post that is begun and not aborted: once it ends, its key is committed in its branch. */
  lemma PostIsNeverLost(before: seq<Event>, tx: nat, input: PostInput, after: seq<Event>)
    requires tx !in Schedule(START, before).txs && Accepted(input) && NoAbort(after, tx)
    ensures var s := Schedule(START, before + ([Begin(tx, PostOp(input))] + after));
            tx in s.txs && (s.txs[tx].Finished() ==> HasKey(s.entries, (input.branchId, input.idempotencyKey)))
  {
    var now, events := Schedule(START, before), [Begin(tx, PostOp(input))] + after;
    var s := Schedule(START, before + events);
    ScheduleAppend(START, before, events);
    ScheduleCons(now, Begin(tx, PostOp(input)), after);
    ScheduleKeepsLives(Next(now, Begin(tx, PostOp(input))), after, tx, PostOp(input));
    ScheduleKeepsConsistent(START, before + events);
    if s.txs[tx].Finished() {
      PostLeavesKey(s, tx, input);
    }
  }

  ghost predicate HasEntry(entries: seq<Entry>, id: nat, branch: int) {
    exists i :: 0 <= i < |entries| && entries[i].id == id && entries[i].branchId == branch
  }

  /** A reversal that lives, of an entry committed in the branch, finds it there. */
  ghost predicate Finds(s: System, tx: nat, opts: ReverseInput, branch: int) {
    && Lives(s, tx, ReverseOp(opts)) && HasEntry(s.entries, opts.entryId, branch)
    && (if s.txs[tx].original.None? then s.txs[tx].stage.Begun? else s.txs[tx].original.value.branchId == branch)
  }

  lemma FoundInBranch(entries: seq<Entry>, id: nat, branch: int)
    requires DistinctEntries(entries) && HasEntry(entries, id, branch)
    ensures FindById(entries, id).Some? && FindById(entries, id).value.branchId == branch
  {
    FindByIdSound(entries, id);
    var i :| 0 <= i < |entries| && entries[i].id == id && entries[i].branchId == branch;
    assert entries[i] in entries;
    var j := FoundAt(entries, id);
  }

  lemma CommitKeepsEntryId(s: System, tx: nat, id: nat, branch: int)
    requires tx in s.txs && s.txs[tx].ReadyToCommit() && HasEntry(s.entries, id, branch)
    ensures HasEntry(CommitTx(s, tx).entries, id, branch)
  {
    CommitExtends(s, tx);
    var i :| 0 <= i < |s.entries| && s.entries[i].id == id && s.entries[i].branchId == branch;
    assert SameRow(CommitTx(s, tx).entries[i], s.entries[i]);
  }

  lemma NextKeepsEntryId(s: System, event: Event, id: nat, branch: int)
    requires HasEntry(s.entries, id, branch)
    ensures HasEntry(Next(s, event).entries, id, branch)
  {
    if event.Commit? && Next(s, event) != s {
      CommitKeepsEntryId(s, event.tx, id, branch);
    }
  }

  lemma NextKeepsFinds(s: System, event: Event, tx: nat, opts: ReverseInput, branch: int)
    requires DistinctEntries(s.entries) && Finds(s, tx, opts, branch) && event != Abort(tx)
    ensures Finds(Next(s, event), tx, opts, branch)
  {
    NextKeepsEntryId(s, event, opts.entryId, branch);
    NextKeepsLives(s, event, tx, ReverseOp(opts));
    FoundInBranch(s.entries, opts.entryId, branch);
  }

  lemma {:induction false} ScheduleKeepsFinds(
    s: System, events: seq<Event>, tx: nat, opts: ReverseInput, branch: int)
    requires Consistent(s) && Finds(s, tx, opts, branch) && NoAbort(events, tx)
    ensures Finds(Schedule(s, events), tx, opts, branch)
    decreases |events|
  {
    if events != [] {
      NextKeepsFinds(s, events[0], tx, opts, branch);
      NextKeepsConsistent(s, events[0]);
      ScheduleKeepsFinds(Next(s, events[0]), events[1..], tx, opts, branch);
    }
  }

  lemma ReversalLeavesKey(s: System, tx: nat, opts: ReverseInput, branch: int)
    requires Consistent(s) && Finds(s, tx, opts, branch) && s.txs[tx].Finished()
    ensures HasKey(s.entries, (branch, opts.idempotencyKey))
  {
    assert TxOk(s, s.txs[tx]);
    if !s.txs[tx].stage.Aborted? {
      RowHasKey(s.entries, s.txs[tx].entry.value);
    }
  }

  /**
   A reversal of the i-th committed entry that is begun and not aborted: once it ends, its own key is committed in that
   entry's branch.
   */
  lemma ReversalIsNeverLost(before: seq<Event>, i: nat, tx: nat, opts: ReverseInput, after: seq<Event>)
    requires tx !in Schedule(START, before).txs && NoAbort(after, tx)
    requires i < |Schedule(START, before).entries| && Schedule(START, before).entries[i].id == opts.entryId
    ensures var s := Schedule(START, before + ([Begin(tx, ReverseOp(opts))] + after));
            && tx in s.txs
            && (s.txs[tx].Finished() ==>
                 HasKey(s.entries, (Schedule(START, before).entries[i].branchId, opts.idempotencyKey)))
  {
    var now, events := Schedule(START, before), [Begin(tx, ReverseOp(opts))] + after;
    var s, branch := Schedule(START, before + events), now.entries[i].branchId;
    ScheduleAppend(START, before, events);
    ScheduleCons(now, Begin(tx, ReverseOp(opts)), after);
    ScheduleKeepsConsistent(START, before);
    NextKeepsConsistent(now, Begin(tx, ReverseOp(opts)));
    assert HasEntry(now.entries, opts.entryId, branch);
    ScheduleKeepsFinds(Next(now, Begin(tx, ReverseOp(opts))), after, tx, opts, branch);
    ScheduleKeepsConsistent(START, before + events);
    if s.txs[tx].Finished() {
      ReversalLeavesKey(s, tx, opts, branch);
    }
  }

  // ----- No deadlock -----

  function StepOf(s: System, tx: nat): Event
    requires tx in s.txs
  {
    var t := s.txs[tx];
    match t.stage
    case Begun => if t.op.PostOp? then FindKey(tx) else FindOriginal(tx)
    case Located => FindKey(tx)
    case Searched => if t.op.PostOp? then InsertEntry(tx) else ReadLines(tx)
    case Read => InsertEntry(tx)
    case Inserted => InsertLines(tx)
    case Written => if t.op.PostOp? then Commit(tx) else UpdateOriginal(tx)
    case _ => Commit(tx)
  }

  /** The transaction's step has to wait for another one: for a claimed key, or for a locked row. */
  predicate Blocked(s: System, tx: nat)
    requires tx in s.txs && s.txs[tx].WellFormed()
  {
    var t := s.txs[tx];
    || (t.ReadyToInsert() && Claimed(s, tx, t.Target()))
    || (t.stage.Written? && t.op.ReverseOp? && Locked(s, tx, t.op.opts.entryId))
  }

  lemma UnblockedSteps(s: System, tx: nat)
    requires tx in s.txs && s.txs[tx].WellFormed() && !s.txs[tx].Finished() && !Blocked(s, tx)
    ensures Next(s, StepOf(s, tx)) != s
  {
    assert Next(s, StepOf(s, tx)).txs[tx].stage != s.txs[tx].stage;
  }

  /** What a transaction waits for: the owner of a claim, or the owner of a row lock, who waits for nobody. */
  lemma BlockedBy(s: System, tx: nat) returns (other: nat)
    requires TxsOk(s) && tx in s.txs && !s.txs[tx].Finished() && s.txs[tx].WellFormed() && Blocked(s, tx)
    ensures other in s.txs && s.txs[other].WellFormed() && !s.txs[other].Finished()
    ensures s.txs[other].Holds() && (s.txs[tx].Holds() ==> !Blocked(s, other))
  {
    var t := s.txs[tx];
    if t.ReadyToInsert() {
      other :| other in s.txs && other != tx && s.txs[other].Holds()
               && EntryKey(s.txs[other].entry.value) == t.Target();
      HolderIsOpen(s, other);
    } else {
      other :| other in s.txs && other != tx && s.txs[other].stage.Updated?
               && s.txs[other].op.ReverseOp? && s.txs[other].op.opts.entryId == t.op.opts.entryId;
      HolderIsOpen(s, other);
    }
  }

  lemma HolderIsOpen(s: System, tx: nat)
    requires TxsOk(s) && tx in s.txs && (s.txs[tx].Holds() || s.txs[tx].stage.Updated?)
    ensures s.txs[tx].WellFormed() && s.txs[tx].Holds() && !s.txs[tx].Finished()
    ensures s.txs[tx].stage.Updated? ==> !Blocked(s, tx)
  {
    assert TxOk(s, s.txs[tx]);
  }

  /** A step that is neither a new call nor an abort. */
  predicate Carries(event: Event) {
    !event.Begin? && !event.Abort?
  }

  lemma StepFrom(s: System, tx: nat) returns (event: Event)
    requires Consistent(s) && tx in s.txs && !s.txs[tx].Finished()
    ensures Carries(event) && Next(s, event) != s
  {
    assert TxOk(s, s.txs[tx]);
    var last := tx;
    if Blocked(s, last) {
      last := BlockedBy(s, last);
      if Blocked(s, last) {
        last := BlockedBy(s, last);
      }
    }
    UnblockedSteps(s, last);
    event := StepOf(s, last);
  }

  /** Waiting cannot go round in circles: while a call is unfinished, some step other than an abort is possible. */
  lemma SomeStepIsPossible(events: seq<Event>, tx: nat) returns (event: Event)
    requires tx in Schedule(START, events).txs && !Schedule(START, events).txs[tx].Finished()
    ensures Carries(event) && Next(Schedule(START, events), event) != Schedule(START, events)
  {
    ScheduleKeepsConsistent(START, events);
    event := StepFrom(Schedule(START, events), tx);
  }

  // ----- Every call can finish -----

  /** How many steps a call at the stage can still take, at most. */
  function StepsLeft(stage: Stage): nat {
    match stage
    case Begun => 7
    case Located => 6
    case Searched => 5
    case Read => 4
    case Inserted => 3
    case Written => 2
    case Updated => 1
    case _ => 0
  }

  ghost function Pick(ids: set<nat>): (tx: nat)
    requires ids != {}
    ensures tx in ids
  {
    var tx :| tx in ids;
    tx
  }

  /** The steps that the calls of `ids` can still take together, at most. */
  ghost function Work(txs: map<nat, Tx>, ids: set<nat>): nat
    requires ids <= txs.Keys
  {
    if ids == {} then 0 else StepsLeft(txs[Pick(ids)].stage) + Work(txs, ids - {Pick(ids)})
  }

  lemma {:induction false} WorkSplits(txs: map<nat, Tx>, ids: set<nat>, tx: nat)
    requires ids <= txs.Keys && tx in ids
    ensures Work(txs, ids) == StepsLeft(txs[tx].stage) + Work(txs, ids - {tx})
  {
    var first := Pick(ids);
    if first != tx {
      WorkSplits(txs, ids - {first}, tx);
      WorkSplits(txs, ids - {tx}, first);
      assert ids - {first} - {tx} == ids - {tx} - {first};
    }
  }

  lemma {:induction false} WorkFrame(txs: map<nat, Tx>, after: map<nat, Tx>, ids: set<nat>)
    requires ids <= txs.Keys && ids <= after.Keys && forall tx :: tx in ids ==> txs[tx] == after[tx]
    ensures Work(txs, ids) == Work(after, ids)
  {
    if ids != {} {
      WorkFrame(txs, after, ids - {Pick(ids)});
    }
  }

  lemma {:induction false} WorkBound(txs: map<nat, Tx>, ids: set<nat>)
    requires ids <= txs.Keys
    ensures Work(txs, ids) <= 7 * |ids|
  {
    if ids != {} {
      WorkBound(txs, ids - {Pick(ids)});
    }
  }

  /** A step that happens moves its own transaction on, and no other. */
  lemma StepMovesOn(s: System, event: Event)
    requires !event.Begin? && Next(s, event) != s
    ensures event.tx in s.txs && event.tx in Next(s, event).txs
    ensures Next(s, event).txs == s.txs[event.tx := Next(s, event).txs[event.tx]]
    ensures StepsLeft(Next(s, event).txs[event.tx].stage) < StepsLeft(s.txs[event.tx].stage)
  {
  }

  lemma StepLowersWork(s: System, event: Event)
    requires !event.Begin? && Next(s, event) != s
    ensures Next(s, event).txs.Keys == s.txs.Keys
    ensures Work(Next(s, event).txs, s.txs.Keys) < Work(s.txs, s.txs.Keys)
  {
    StepMovesOn(s, event);
    var after := Next(s, event).txs;
    WorkSplits(s.txs, s.txs.Keys, event.tx);
    WorkSplits(after, s.txs.Keys, event.tx);
    WorkFrame(s.txs, after, s.txs.Keys - {event.tx});
  }

  /** How many of the events happen. */
  function Happening(s: System, events: seq<Event>): nat
    decreases |events|
  {
    if events == [] then 0
    else (if Next(s, events[0]) != s then 1 else 0) + Happening(Next(s, events[0]), events[1..])
  }

  lemma {:induction false} HappeningIsBounded(s: System, events: seq<Event>)
    requires forall k :: 0 <= k < |events| ==> !events[k].Begin?
    ensures Happening(s, events) <= Work(s.txs, s.txs.Keys)
    decreases |events|
  {
    if events != [] {
      if Next(s, events[0]) != s {
        StepLowersWork(s, events[0]);
      }
      HappeningIsBounded(Next(s, events[0]), events[1..]);
    }
  }

  /** However it is scheduled, a set of calls takes at most seven steps a call; after that nothing happens. */
  lemma StepsAreBounded(s: System, events: seq<Event>)
    requires forall k :: 0 <= k < |events| ==> !events[k].Begin?
    ensures Happening(s, events) <= 7 * |s.txs|
  {
    HappeningIsBounded(s, events);
    WorkBound(s.txs, s.txs.Keys);
  }

  ghost predicate AllFinished(s: System) {
    forall tx :: tx in s.txs ==> s.txs[tx].Finished()
  }

  lemma {:induction false} ScheduleSnoc(s: System, events: seq<Event>, last: Event)
    ensures Schedule(s, events + [last]) == Next(Schedule(s, events), last)
    decreases |events|
  {
    if events == [] {
      assert events + [last] == [last] && [last][1..] == [];
    } else {
      assert (events + [last])[1..] == events[1..] + [last];
      ScheduleSnoc(Next(s, events[0]), events[1..], last);
    }
  }

  lemma StepTowardsEnd(events: seq<Event>, tx: nat) returns (event: Event)
    requires tx in Schedule(START, events).txs && !Schedule(START, events).txs[tx].Finished()
    ensures var (txs, after) := (Schedule(START, events).txs, Schedule(START, events + [event]).txs);
            Carries(event) && after.Keys == txs.Keys && Work(after, after.Keys) < Work(txs, txs.Keys)
  {
    event := SomeStepIsPossible(events, tx);
    StepLowersWork(Schedule(START, events), event);
    ScheduleSnoc(START, events, event);
  }

  /** From every reachable state, and without aborting any, all calls can still finish. */
  lemma {:induction false} AllCanFinish(events: seq<Event>) returns (more: seq<Event>)
    ensures forall k :: 0 <= k < |more| ==> Carries(more[k])
    ensures AllFinished(Schedule(START, events + more))
    ensures Schedule(START, events + more).txs.Keys == Schedule(START, events).txs.Keys
    decreases Work(Schedule(START, events).txs, Schedule(START, events).txs.Keys)
  {
    if tx :| tx in Schedule(START, events).txs && !Schedule(START, events).txs[tx].Finished() {
      var event := StepTowardsEnd(events, tx);
      var rest := AllCanFinish(events + [event]);
      more := [event] + rest;
      assert events + more == events + [event] + rest;
    } else {
      more := [];
      assert events + more == events;
    }
  }

  /**
   From every reachable state all calls can still finish, and none that is open has to be given up for it: each open
   post ends with its key committed, each open reversal of a committed entry with its own.
   */
  lemma EveryCallCanFinish(events: seq<Event>) returns (more: seq<Event>)
    ensures forall k :: 0 <= k < |more| ==> Carries(more[k])
    ensures var now, end := Schedule(START, events), Schedule(START, events + more);
            && end.txs.Keys == now.txs.Keys && AllFinished(end)
            && (forall tx :: tx in now.txs && !now.txs[tx].Finished() ==>
                 end.txs[tx].op == now.txs[tx].op && end.txs[tx].stage != Aborted(false))
            && (forall tx :: tx in now.txs && !now.txs[tx].Finished() && now.txs[tx].op.PostOp? ==>
                 HasKey(end.entries, KeyOf(now.txs[tx].op.input)))
            && (forall tx :: tx in now.txs && !now.txs[tx].Finished() && now.txs[tx].op.ReverseOp? ==>
                 forall i :: 0 <= i < |now.entries| && now.entries[i].id == now.txs[tx].op.opts.entryId ==>
                   HasKey(end.entries, (now.entries[i].branchId, now.txs[tx].op.opts.idempotencyKey)))
  {
    more := AllCanFinish(events);
    var now, end := Schedule(START, events), Schedule(START, events + more);
    ScheduleAppend(START, events, more);
    ScheduleKeepsConsistent(START, events);
    ScheduleKeepsConsistent(START, events + more);
    forall tx | tx in now.txs && !now.txs[tx].Finished()
      ensures Lives(end, tx, now.txs[tx].op)
    {
      ScheduleKeepsLives(now, more, tx, now.txs[tx].op);
    }
    forall tx | tx in now.txs && !now.txs[tx].Finished() && now.txs[tx].op.PostOp?
      ensures HasKey(end.entries, KeyOf(now.txs[tx].op.input))
    {
      PostLeavesKey(end, tx, now.txs[tx].op.input);
    }
    forall tx, i | tx in now.txs && !now.txs[tx].Finished() && now.txs[tx].op.ReverseOp?
                   && 0 <= i < |now.entries| && now.entries[i].id == now.txs[tx].op.opts.entryId
      ensures HasKey(end.entries, (now.entries[i].branchId, now.txs[tx].op.opts.idempotencyKey))
    {
      OpenReversalLeavesKey(now, more, tx, i);
    }
  }

  lemma OpenReversalLeavesKey(now: System, more: seq<Event>, tx: nat, i: nat)
    requires Consistent(now) && NoAbort(more, tx) && tx in now.txs && now.txs[tx].op.ReverseOp?
    requires !now.txs[tx].Finished() && i < |now.entries| && now.entries[i].id == now.txs[tx].op.opts.entryId
    requires tx in Schedule(now, more).txs && Schedule(now, more).txs[tx].Finished()
    ensures HasKey(Schedule(now, more).entries, (now.entries[i].branchId, now.txs[tx].op.opts.idempotencyKey))
  {
    var opts, branch := now.txs[tx].op.opts, now.entries[i].branchId;
    OpenFinds(now, tx, i);
    ScheduleKeepsFinds(now, more, tx, opts, branch);
    ScheduleKeepsConsistent(now, more);
    ReversalLeavesKey(Schedule(now, more), tx, opts, branch);
  }

  lemma OpenFinds(now: System, tx: nat, i: nat)
    requires Consistent(now) && tx in now.txs && now.txs[tx].op.ReverseOp?
    requires !now.txs[tx].Finished() && i < |now.entries| && now.entries[i].id == now.txs[tx].op.opts.entryId
    ensures Finds(now, tx, now.txs[tx].op.opts, now.entries[i].branchId)
  {
    assert TxOk(now, now.txs[tx]);
    assert HasEntry(now.entries, now.entries[i].id, now.entries[i].branchId);
    if now.txs[tx].original.Some? {
      var j :| 0 <= j < |now.entries| && SameRow(now.entries[j], now.txs[tx].original.value);
      assert i == j;
    }
  }

  /** Under any scheduler, where no step but a new call or an abort can happen any more, every call has finished. */
  lemma StuckMeansFinished(events: seq<Event>)
    requires forall event :: Carries(event) ==> Next(Schedule(START, events), event) == Schedule(START, events)
    ensures AllFinished(Schedule(START, events))
  {
    forall tx | tx in Schedule(START, events).txs
      ensures Schedule(START, events).txs[tx].Finished()
    {
      if !Schedule(START, events).txs[tx].Finished() {
        var event := SomeStepIsPossible(events, tx);
      }
    }
  }

  // ----- A call on its own -----

  function PostSteps(tx: nat): seq<Event> {
    [FindKey(tx), InsertEntry(tx), InsertLines(tx), Commit(tx)]
  }

  function ReverseSteps(tx: nat): seq<Event> {
    [FindOriginal(tx), FindKey(tx), ReadLines(tx), InsertEntry(tx), InsertLines(tx), UpdateOriginal(tx), Commit(tx)]
  }

  function Tables(s: System): Books {
    Books(s.entries, s.lines, s.sequence)
  }

  lemma RunsAsListed(s: System, a: Event, b: Event, c: Event, d: Event)
    ensures Schedule(s, [a, b, c, d]) == Next(Next(Next(Next(s, a), b), c), d)
  {
    assert [a, b, c, d] == [a] + ([b] + ([c] + ([d] + [])));
    ScheduleCons(s, a, [b] + ([c] + ([d] + [])));
    ScheduleCons(Next(s, a), b, [c] + ([d] + []));
    ScheduleCons(Next(Next(s, a), b), c, [d] + []);
    ScheduleCons(Next(Next(Next(s, a), b), c), d, []);
  }

  lemma {:induction false} FinishedStays(s: System, tx: nat, events: seq<Event>)
    requires tx in s.txs && s.txs[tx].Finished()
    requires forall k :: 0 <= k < |events| ==> !events[k].Begin? && events[k].tx == tx
    ensures Schedule(s, events) == s
    decreases |events|
  {
    if events != [] {
      FinishedStays(s, tx, events[1..]);
    }
  }

  /** The state in which nothing but transaction `tx` has moved. */
  function With(s: System, tx: nat, t: Tx, sequence: nat): System {
    System(s.entries, s.lines, sequence, s.txs[tx := t], s.history)
  }

  lemma Overwritten(txs: map<nat, Tx>, tx: nat, t: Tx, u: Tx)
    ensures txs[tx := t][tx := u] == txs[tx := u]
  {
  }

  lemma LoneBegin(s: System, tx: nat, op: Op)
    requires tx !in s.txs && (op.PostOp? ==> Accepted(op.input))
    ensures Next(s, Begin(tx, op)) == With(s, tx, Tx(op, Begun, None, [], None, []), s.sequence)
  {
  }

  lemma LoneFindOriginal(s: System, tx: nat, t: Tx, n: nat)
    requires t.stage.Begun? && t.op.ReverseOp?
    ensures var original := FindById(s.entries, t.op.opts.entryId);
            Next(With(s, tx, t, n), FindOriginal(tx))
            == With(s, tx, t.(stage := if original.Some? then Located else Returned, original := original), n)
  {
    var original := FindById(s.entries, t.op.opts.entryId);
    Overwritten(s.txs, tx, t, t.(stage := if original.Some? then Located else Returned, original := original));
  }

  lemma LoneFindKey(s: System, tx: nat, t: Tx, n: nat)
    requires if t.op.PostOp? then t.stage.Begun? else t.stage.Located? && t.original.Some?
    ensures var existing := FindByKey(s.entries, t.Target().0, t.Target().1);
            Next(With(s, tx, t, n), FindKey(tx))
            == With(s, tx, t.(stage := if existing.Some? then Returned else Searched, entry := existing), n)
  {
    var existing := FindByKey(s.entries, t.Target().0, t.Target().1);
    Overwritten(s.txs, tx, t, t.(stage := if existing.Some? then Returned else Searched, entry := existing));
  }

  lemma LoneReadLines(s: System, tx: nat, t: Tx, n: nat)
    requires t.stage.Searched? && t.op.ReverseOp?
    ensures Next(With(s, tx, t, n), ReadLines(tx))
            == With(s, tx, t.(stage := Read, source := LinesOf(s.lines, t.op.opts.entryId)), n)
  {
    Overwritten(s.txs, tx, t, t.(stage := Read, source := LinesOf(s.lines, t.op.opts.entryId)));
  }

  lemma LoneInsertEntry(s: System, tx: nat, t: Tx, n: nat)
    requires AllFinished(s) && t.ReadyToInsert() && !t.Finished()
    requires FindByKey(s.entries, t.Target().0, t.Target().1).None?
    ensures Next(With(s, tx, t, n), InsertEntry(tx))
            == With(s, tx, t.(stage := Inserted, entry := Some(t.Draft(n))), n + 1)
  {
    assert !Claimed(With(s, tx, t, n), tx, t.Target());
    Overwritten(s.txs, tx, t, t.(stage := Inserted, entry := Some(t.Draft(n))));
  }

  lemma LoneInsertLines(s: System, tx: nat, t: Tx, n: nat)
    requires t.stage.Inserted? && t.entry.Some?
    ensures Next(With(s, tx, t, n), InsertLines(tx))
            == With(s, tx, t.(stage := Written, lines := t.Block(t.entry.value)), n)
  {
    Overwritten(s.txs, tx, t, t.(stage := Written, lines := t.Block(t.entry.value)));
  }

  lemma LoneUpdateOriginal(s: System, tx: nat, t: Tx, n: nat)
    requires AllFinished(s) && t.stage.Written? && t.op.ReverseOp?
    ensures Next(With(s, tx, t, n), UpdateOriginal(tx)) == With(s, tx, t.(stage := Updated), n)
  {
    assert !Locked(With(s, tx, t, n), tx, t.op.opts.entryId);
    Overwritten(s.txs, tx, t, t.(stage := Updated));
  }

  lemma LoneCommit(s: System, tx: nat, t: Tx, n: nat)
    requires t.ReadyToCommit()
    ensures var end := Next(With(s, tx, t, n), Commit(tx));
            var inserted := s.entries + [t.entry.value];
            && Tables(end) == Books(if t.op.PostOp? then inserted
                                    else MarkReversed(inserted, t.op.opts.entryId, t.entry.value.id),
                                    s.lines + t.lines, n)
            && tx in end.txs && end.txs[tx] == t.(stage := Committed)
  {
  }

  /** From the lookup of the key on, with the key free. */
  lemma LoneWrite(s: System, tx: nat, t: Tx, n: nat)
    requires AllFinished(s) && t.ReadyToInsert() && !t.Finished()
    requires FindByKey(s.entries, t.Target().0, t.Target().1).None?
    ensures var e := t.Draft(n);
            Next(Next(With(s, tx, t, n), InsertEntry(tx)), InsertLines(tx))
            == With(s, tx, t.(stage := Written, entry := Some(e), lines := t.Block(e)), n + 1)
  {
    LoneInsertEntry(s, tx, t, n);
    LoneInsertLines(s, tx, t.(stage := Inserted, entry := Some(t.Draft(n))), n + 1);
  }

  /** A post begun while every other call has finished: its steps leave exactly the tables of the sequential post. */
  lemma LonePostIsSequential(s: System, tx: nat, input: PostInput)
    requires Accepted(input) && tx !in s.txs && AllFinished(s)
    ensures var end := Schedule(s, [Begin(tx, PostOp(input))] + PostSteps(tx));
            && Tables(end) == Post(Tables(s), input).0
            && tx in end.txs && end.txs[tx].Finished() && end.txs[tx].entry == Some(Post(Tables(s), input).1.value)
  {
    var t := Tx(PostOp(input), Begun, None, [], None, []);
    var begun := With(s, tx, t, s.sequence);
    LoneBegin(s, tx, PostOp(input));
    ScheduleCons(s, Begin(tx, PostOp(input)), PostSteps(tx));
    LoneFindKey(s, tx, t, s.sequence);
    var existing := FindByKey(s.entries, input.branchId, input.idempotencyKey);
    var found := Next(begun, FindKey(tx));
    if existing.Some? {
      ScheduleCons(begun, FindKey(tx), [InsertEntry(tx), InsertLines(tx), Commit(tx)]);
      FinishedStays(found, tx, [InsertEntry(tx), InsertLines(tx), Commit(tx)]);
    } else {
      RunsAsListed(begun, FindKey(tx), InsertEntry(tx), InsertLines(tx), Commit(tx));
      var searched, e := t.(stage := Searched), NewEntry(input, s.sequence);
      LoneWrite(s, tx, searched, s.sequence);
      var written := searched.(stage := Written, entry := Some(e), lines := StoredLines(input.lines, e));
      LoneCommit(s, tx, written, s.sequence + 1);
    }
  }

  lemma ReversalSteps(s: System, tx: nat)
    ensures Schedule(s, ReverseSteps(tx))
            == Schedule(Next(Next(Next(s, FindOriginal(tx)), FindKey(tx)), ReadLines(tx)),
                        [InsertEntry(tx), InsertLines(tx), UpdateOriginal(tx), Commit(tx)])
  {
    var rest := [InsertEntry(tx), InsertLines(tx), UpdateOriginal(tx), Commit(tx)];
    assert ReverseSteps(tx) == [FindOriginal(tx)] + ([FindKey(tx)] + ([ReadLines(tx)] + rest));
    ScheduleCons(s, FindOriginal(tx), [FindKey(tx)] + ([ReadLines(tx)] + rest));
    ScheduleCons(Next(s, FindOriginal(tx)), FindKey(tx), [ReadLines(tx)] + rest);
    ScheduleCons(Next(Next(s, FindOriginal(tx)), FindKey(tx)), ReadLines(tx), rest);
  }

  /** The transaction of a reversal that has read everything it needs. */
  function ReadyReversal(s: System, opts: ReverseInput, original: Entry): Tx {
    Tx(ReverseOp(opts), Read, Some(original), LinesOf(s.lines, opts.entryId), None, [])
  }

  lemma LoneLookups(s: System, tx: nat, opts: ReverseInput, original: Entry)
    requires FindById(s.entries, opts.entryId) == Some(original)
    requires FindByKey(s.entries, original.branchId, opts.idempotencyKey) == None
    ensures var begun := With(s, tx, Tx(ReverseOp(opts), Begun, None, [], None, []), s.sequence);
            Next(Next(Next(begun, FindOriginal(tx)), FindKey(tx)), ReadLines(tx))
            == With(s, tx, ReadyReversal(s, opts, original), s.sequence)
  {
    var t := Tx(ReverseOp(opts), Begun, None, [], None, []);
    var located := t.(stage := Located, original := Some(original));
    LoneFindOriginal(s, tx, t, s.sequence);
    LoneFindKey(s, tx, located, s.sequence);
    LoneReadLines(s, tx, located.(stage := Searched), s.sequence);
  }

  lemma LoneWrites(s: System, tx: nat, opts: ReverseInput, original: Entry)
    requires AllFinished(s) && FindByKey(s.entries, original.branchId, opts.idempotencyKey) == None
    ensures var e := ReversalOf(original, opts, s.sequence);
            var ready := With(s, tx, ReadyReversal(s, opts, original), s.sequence);
            var end := Next(Next(Next(Next(ready, InsertEntry(tx)), InsertLines(tx)), UpdateOriginal(tx)), Commit(tx));
            && Tables(end) == Books(MarkReversed(s.entries + [e], opts.entryId, e.id),
                                    s.lines + Swapped(LinesOf(s.lines, opts.entryId), e.id, opts.occurredAt),
                                    s.sequence + 1)
            && tx in end.txs && end.txs[tx].Finished() && end.txs[tx].entry == Some(e)
  {
    var t, e := ReadyReversal(s, opts, original), ReversalOf(original, opts, s.sequence);
    var written := t.(stage := Written, entry := Some(e), lines := t.Block(e));
    LoneWrite(s, tx, t, s.sequence);
    LoneUpdateOriginal(s, tx, written, s.sequence + 1);
    LoneCommit(s, tx, written.(stage := Updated), s.sequence + 1);
  }

  /** A reversal whose original is there and whose key is free. */
  lemma LoneFreshReversal(s: System, tx: nat, opts: ReverseInput, original: Entry)
    requires AllFinished(s) && FindById(s.entries, opts.entryId) == Some(original)
    requires FindByKey(s.entries, original.branchId, opts.idempotencyKey) == None
    ensures var begun := With(s, tx, Tx(ReverseOp(opts), Begun, None, [], None, []), s.sequence);
            var end := Schedule(begun, ReverseSteps(tx));
            && Tables(end) == Reverse(Tables(s), opts).0
            && tx in end.txs && end.txs[tx].Finished() && end.txs[tx].entry == Reverse(Tables(s), opts).1
  {
    ReversalSteps(With(s, tx, Tx(ReverseOp(opts), Begun, None, [], None, []), s.sequence), tx);
    LoneLookups(s, tx, opts, original);
    RunsAsListed(With(s, tx, ReadyReversal(s, opts, original), s.sequence),
                 InsertEntry(tx), InsertLines(tx), UpdateOriginal(tx), Commit(tx));
    LoneWrites(s, tx, opts, original);
    FreshReverse(Tables(s), opts, original);
  }

  /** A reversal with nothing to do: no such entry, or the key is taken. */
  lemma LoneIdleReversal(s: System, tx: nat, opts: ReverseInput)
    requires var original := FindById(s.entries, opts.entryId);
             original.None? || FindByKey(s.entries, original.value.branchId, opts.idempotencyKey).Some?
    ensures var begun := With(s, tx, Tx(ReverseOp(opts), Begun, None, [], None, []), s.sequence);
            var end := Schedule(begun, ReverseSteps(tx));
            && Tables(end) == Reverse(Tables(s), opts).0
            && tx in end.txs && end.txs[tx].Finished() && end.txs[tx].entry == Reverse(Tables(s), opts).1
  {
    var t, original := Tx(ReverseOp(opts), Begun, None, [], None, []), FindById(s.entries, opts.entryId);
    var begun := With(s, tx, t, s.sequence);
    var rest := ReverseSteps(tx)[1..];
    ScheduleCons(begun, FindOriginal(tx), rest);
    assert [FindOriginal(tx)] + rest == ReverseSteps(tx);
    LoneFindOriginal(s, tx, t, s.sequence);
    if original.None? {
      FinishedStays(Next(begun, FindOriginal(tx)), tx, rest);
    } else {
      var located := t.(stage := Located, original := original);
      LoneFindKey(s, tx, located, s.sequence);
      ScheduleCons(With(s, tx, located, s.sequence), FindKey(tx), rest[1..]);
      assert [FindKey(tx)] + rest[1..] == rest;
      FinishedStays(Next(With(s, tx, located, s.sequence), FindKey(tx)), tx, rest[1..]);
    }
  }

  /** A reversal begun while every other call has finished leaves exactly the tables of the sequential reversal. */
  lemma LoneReversalIsSequential(s: System, tx: nat, opts: ReverseInput)
    requires tx !in s.txs && AllFinished(s)
    ensures var end := Schedule(s, [Begin(tx, ReverseOp(opts))] + ReverseSteps(tx));
            && Tables(end) == Reverse(Tables(s), opts).0
            && tx in end.txs && end.txs[tx].Finished() && end.txs[tx].entry == Reverse(Tables(s), opts).1
  {
    LoneBegin(s, tx, ReverseOp(opts));
    ScheduleCons(s, Begin(tx, ReverseOp(opts)), ReverseSteps(tx));
    var original := FindById(s.entries, opts.entryId);
    if original.Some? && FindByKey(s.entries, original.value.branchId, opts.idempotencyKey) == None {
      LoneFreshReversal(s, tx, opts, original.value);
    } else {
      LoneIdleReversal(s, tx, opts);
    }
  }

  // ----- Row locks -----

  /** No two transactions hold an update of the same entry's row. */
  ghost predicate LocksDiffer(s: System) {
    forall a, b :: a in s.txs && b in s.txs && a != b && s.txs[a].stage.Updated? && s.txs[b].stage.Updated?
                   && s.txs[a].op.ReverseOp? && s.txs[b].op.ReverseOp? ==>
      s.txs[a].op.opts.entryId != s.txs[b].op.opts.entryId
  }

  lemma NextKeepsLocks(s: System, event: Event)
    requires LocksDiffer(s)
    ensures LocksDiffer(Next(s, event))
  {
  }

  lemma {:induction false} ScheduleKeepsLocks(s: System, events: seq<Event>)
    requires LocksDiffer(s)
    ensures LocksDiffer(Schedule(s, events))
    decreases |events|
  {
    if events != [] {
      NextKeepsLocks(s, events[0]);
      ScheduleKeepsLocks(Next(s, events[0]), events[1..]);
    }
  }

  /** Whatever the interleaving, two open reversals never both hold the row of one entry. */
  lemma RowLocksAreExclusive(events: seq<Event>)
    ensures LocksDiffer(Schedule(START, events))
  {
    ScheduleKeepsLocks(START, events);
  }

  /** An insert waits only for another open transaction's claim on its own key, an update only for its own row. */
  lemma NoNeedlessWaiting(s: System, tx: nat)
    requires tx in s.txs && s.txs[tx].WellFormed() && !s.txs[tx].Finished()
    ensures s.txs[tx].ReadyToInsert()
            && (forall other :: other in s.txs && other != tx && s.txs[other].Holds() ==>
                 EntryKey(s.txs[other].entry.value) != s.txs[tx].Target()) ==>
              Next(s, InsertEntry(tx)).txs[tx].stage in {Inserted, Aborted(true)}
    ensures s.txs[tx].stage.Written? && s.txs[tx].op.ReverseOp?
            && (forall other :: other in s.txs && other != tx
                                && s.txs[other].stage.Updated? && s.txs[other].op.ReverseOp? ==>
                  s.txs[other].op.opts.entryId != s.txs[tx].op.opts.entryId) ==>
              Next(s, UpdateOriginal(tx)).txs[tx].stage == Updated
  {
  }
}
