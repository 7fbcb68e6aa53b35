/**
 Idempotency. A log of post requests, with its rejections, retries and key clashes, leaves the
 ledger that one plain pass over its first accepted requests would write; and a call that was
 once answered gets the same answer, and changes nothing, at any later time.
 */
module Retry {
  import opened Outcomes
  import opened Journal
  import opened Ledger
  import opened LedgerInvariant

  type Key = (int, string)

  function KeyOf(input: PostInput): Key {
    (input.branchId, input.idempotencyKey)
  }

  function EntryKey(e: Entry): Key {
    (e.branchId, e.idempotencyKey)
  }

  function KeysIn(entries: seq<Entry>): set<Key> {
    set e | e in entries :: EntryKey(e)
  }

  function RunPosts(ledger: Books, requests: seq<PostInput>): Books
    decreases |requests|
  {
    if requests == [] then ledger else RunPosts(Post(ledger, requests[0]).0, requests[1..])
  }

  // ----- The one-pass specification -----

  /** The accepted requests whose key is not in `seen` and did not come earlier. */
  function FirstAccepted(requests: seq<PostInput>, seen: set<Key>): seq<PostInput> {
    if requests == [] then []
    else if Accepted(requests[0]) && KeyOf(requests[0]) !in seen
    then [requests[0]] + FirstAccepted(requests[1..], seen + {KeyOf(requests[0])})
    else FirstAccepted(requests[1..], seen)
  }

  /** Write each request as one entry, no questions asked. */
  function WriteAll(ledger: Books, requests: seq<PostInput>): Books
    decreases |requests|
  {
    if requests == [] then ledger
    else
      var entry := NewEntry(requests[0], ledger.nextEntryId);
      WriteAll(Insert(ledger, entry, StoredLines(requests[0].lines, entry)), requests[1..])
  }

  lemma KeyLookup(entries: seq<Entry>, key: Key)
    ensures key in KeysIn(entries) <==> FindByKey(entries, key.0, key.1).Some?
  {
    FindByKeySound(entries, key.0, key.1);
  }

  lemma KeysInAppend(entries: seq<Entry>, e: Entry)
    ensures KeysIn(entries + [e]) == KeysIn(entries) + {EntryKey(e)}
  {
  }

  /** Posting a log writes its first accepted requests, in order, and nothing else. */
  lemma {:induction false} PostingRefinesOnePass(ledger: Books, requests: seq<PostInput>)
    ensures RunPosts(ledger, requests) == WriteAll(ledger, FirstAccepted(requests, KeysIn(ledger.entries)))
    decreases |requests|
  {
    if requests != [] {
      var next := Post(ledger, requests[0]).0;
      PostingRefinesOnePass(next, requests[1..]);
      KeyLookup(ledger.entries, KeyOf(requests[0]));
      if Accepted(requests[0]) && KeyOf(requests[0]) !in KeysIn(ledger.entries) {
        var entry := NewEntry(requests[0], ledger.nextEntryId);
        KeysInAppend(ledger.entries, entry);
        var later := FirstAccepted(requests[1..], KeysIn(next.entries));
        assert FirstAccepted(requests, KeysIn(ledger.entries)) == [requests[0]] + later;
        assert ([requests[0]] + later)[1..] == later;
      }
    }
  }

  lemma {:induction false} FirstAcceptedIsStable(requests: seq<PostInput>, seen: set<Key>)
    ensures FirstAccepted(FirstAccepted(requests, seen), seen) == FirstAccepted(requests, seen)
  {
    if requests != [] {
      if Accepted(requests[0]) && KeyOf(requests[0]) !in seen {
        FirstAcceptedIsStable(requests[1..], seen + {KeyOf(requests[0])});
        var later := FirstAccepted(requests[1..], seen + {KeyOf(requests[0])});
        assert ([requests[0]] + later)[1..] == later;
      } else {
        FirstAcceptedIsStable(requests[1..], seen);
      }
    }
  }

  /** Dropping the rejected requests and the later duplicates of a key changes nothing. */
  lemma RetriesDoNotMatter(ledger: Books, requests: seq<PostInput>)
    ensures RunPosts(ledger, FirstAccepted(requests, KeysIn(ledger.entries))) == RunPosts(ledger, requests)
  {
    PostingRefinesOnePass(ledger, requests);
    PostingRefinesOnePass(ledger, FirstAccepted(requests, KeysIn(ledger.entries)));
    FirstAcceptedIsStable(requests, KeysIn(ledger.entries));
  }

  // ----- Replaying a whole log -----

  ghost predicate Recorded(ledger: Books, requests: seq<PostInput>) {
    forall k :: 0 <= k < |requests| && Accepted(requests[k]) ==> KeyOf(requests[k]) in KeysIn(ledger.entries)
  }

  lemma {:induction false} RunRecords(ledger: Books, requests: seq<PostInput>)
    ensures KeysIn(ledger.entries) <= KeysIn(RunPosts(ledger, requests).entries)
    ensures Recorded(RunPosts(ledger, requests), requests)
    decreases |requests|
  {
    if requests != [] {
      var next := Post(ledger, requests[0]).0;
      RunRecords(next, requests[1..]);
      KeyLookup(ledger.entries, KeyOf(requests[0]));
      assert forall e :: e in ledger.entries ==> e in next.entries;
      if Accepted(requests[0]) && KeyOf(requests[0]) !in KeysIn(ledger.entries) {
        var entry := NewEntry(requests[0], ledger.nextEntryId);
        assert entry in next.entries && EntryKey(entry) == KeyOf(requests[0]);
      }
      assert forall k :: 1 <= k < |requests| ==> requests[k] == requests[1..][k - 1];
    }
  }

  lemma {:induction false} RecordedIsNoop(ledger: Books, requests: seq<PostInput>)
    requires Recorded(ledger, requests)
    ensures RunPosts(ledger, requests) == ledger
    decreases |requests|
  {
    if requests != [] {
      KeyLookup(ledger.entries, KeyOf(requests[0]));
      RecordedIsNoop(ledger, requests[1..]);
    }
  }

  /** Posting the same log again is a no-op. */
  lemma ReplayingALogIsNoop(ledger: Books, requests: seq<PostInput>)
    ensures RunPosts(RunPosts(ledger, requests), requests) == RunPosts(ledger, requests)
  {
    RunRecords(ledger, requests);
    RecordedIsNoop(RunPosts(ledger, requests), requests);
  }

  // ----- A single retry, posts and reversals mixed, at any later time -----

  /** The id of the entry a call returns, if it returns one. */
  function Answer(ledger: Books, op: Op): Option<nat> {
    match op
    case PostOp(input) =>
      var result := Post(ledger, input).1;
      if result.Success? then Some(result.value.id) else None
    case ReverseOp(opts) =>
      var result := Reverse(ledger, opts).1;
      if result.Some? then Some(result.value.id) else None
  }

  function IdOf(found: Option<Entry>): Option<nat> {
    if found.None? then None else Some(found.value.id)
  }

  function BranchOf(found: Option<Entry>): Option<int> {
    if found.None? then None else Some(found.value.branchId)
  }

  /** What is found by key or by id stays found. */
  lemma StepKeepsFound(ledger: Books, op: Op, branch: int, key: string, id: nat)
    requires Valid(ledger)
    ensures FindByKey(ledger.entries, branch, key).Some?
            ==> IdOf(FindByKey(Step(ledger, op).entries, branch, key)) == IdOf(FindByKey(ledger.entries, branch, key))
    ensures FindById(ledger.entries, id).Some?
            ==> BranchOf(FindById(Step(ledger, op).entries, id)) == BranchOf(FindById(ledger.entries, id))
  {
    match op {
      case PostOp(input) =>
        FindAppend(ledger.entries, NewEntry(input, ledger.nextEntryId), branch, key, id);
      case ReverseOp(opts) =>
        var reversal := Reverse(ledger, opts).1;
        if reversal.Some? {
          FindAppend(ledger.entries, reversal.value, branch, key, id);
          FindMarked(ledger.entries + [reversal.value], opts.entryId, reversal.value.id, branch, key, id);
        }
    }
  }

  lemma {:induction false} RunKeepsFound(ledger: Books, ops: seq<Op>, branch: int, key: string, id: nat)
    requires Valid(ledger)
    ensures FindByKey(ledger.entries, branch, key).Some?
            ==> IdOf(FindByKey(Run(ledger, ops).entries, branch, key)) == IdOf(FindByKey(ledger.entries, branch, key))
    ensures FindById(ledger.entries, id).Some?
            ==> BranchOf(FindById(Run(ledger, ops).entries, id)) == BranchOf(FindById(ledger.entries, id))
    decreases |ops|
  {
    if ops != [] {
      StepKeepsFound(ledger, ops[0], branch, key, id);
      StepKeepsValid(ledger, ops[0]);
      RunKeepsFound(Step(ledger, ops[0]), ops[1..], branch, key, id);
    }
  }

  /** Right after a call was answered, its key finds the answer. */
  lemma AnswerIsRecorded(ledger: Books, op: Op)
    requires Valid(ledger) && Answer(ledger, op).Some?
    ensures op.PostOp? ==>
              IdOf(FindByKey(Step(ledger, op).entries, op.input.branchId, op.input.idempotencyKey))
              == Answer(ledger, op)
    ensures op.ReverseOp? ==>
              var original := FindById(Step(ledger, op).entries, op.opts.entryId);
              && original.Some?
              && IdOf(FindByKey(Step(ledger, op).entries, original.value.branchId, op.opts.idempotencyKey))
                 == Answer(ledger, op)
  {
    match op {
      case PostOp(input) =>
        FindAppend(ledger.entries, NewEntry(input, ledger.nextEntryId), input.branchId, input.idempotencyKey, 0);
      case ReverseOp(opts) =>
        var original := FindById(ledger.entries, opts.entryId).value;
        var reversal := Reverse(ledger, opts).1.value;
        FindAppend(ledger.entries, reversal, original.branchId, opts.idempotencyKey, opts.entryId);
        FindMarked(ledger.entries + [reversal], opts.entryId, reversal.id, original.branchId,
                   opts.idempotencyKey, opts.entryId);
    }
  }

  /**
   A call that returned an entry, sent again after any further calls, returns the same entry
   and changes no entry and no line. A retried post may even carry other lines, as long as they are accepted.
   */
  lemma RetryIsNoop(ledger: Books, op: Op, between: seq<Op>, retry: Op)
    requires Valid(ledger) && Answer(ledger, op).Some?
    requires retry == op
             || (op.PostOp? && retry.PostOp? && KeyOf(retry.input) == KeyOf(op.input) && Accepted(retry.input))
    ensures var later := Run(Step(ledger, op), between);
            Step(later, retry) == later && Answer(later, retry) == Answer(ledger, op)
  {
    AnswerIsRecorded(ledger, op);
    StepKeepsValid(ledger, op);
    var after := Step(ledger, op);
    match op {
      case PostOp(input) =>
        RunKeepsFound(after, between, input.branchId, input.idempotencyKey, 0);
      case ReverseOp(opts) =>
        var original := FindById(after.entries, opts.entryId).value;
        RunKeepsFound(after, between, original.branchId, opts.idempotencyKey, opts.entryId);
    }
  }
}
