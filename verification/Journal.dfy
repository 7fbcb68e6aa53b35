/** Journal entries and lines, the queries over the line table, and their sums. */
module Journal {
  import opened Outcomes
  import opened ChartOfAccounts

  /** A requested line. An amount left out, or zero, is zero. */
  datatype LineInput = LineInput(accountCode: GlAccountCode, debit: Option<real>, credit: Option<real>)

  datatype PostInput = PostInput(
    branchId: int, occurredAt: int, idempotencyKey: string, currency: Option<string>, lines: seq<LineInput>)

  /** A row of gl_journal_entries. Instants are integers. */
  datatype Entry = Entry(
    id: nat, branchId: int, occurredAt: int, idempotencyKey: string, currency: string,
    reversesEntryId: Option<nat>, reversedByEntryId: Option<nat>)

  /** A row of gl_journal_lines; the amounts are numeric(14,2), so whole cents. */
  datatype Line = Line(
    entryId: nat, branchId: int, accountCode: GlAccountCode, debit: int, credit: int,
    occurredAt: int, currency: string)

  datatype BalanceRange = BalanceRange(from: Option<int>, to: Option<int>) {
    predicate Contains(t: int) {
      (from.Some? ==> from.value <= t) && (to.Some? ==> t <= to.value)
    }
  }

  const ALWAYS := BalanceRange(None, None)

  function AsOf(t: int): BalanceRange {
    BalanceRange(None, Some(t))
  }

  function Amount(amount: Option<real>): real {
    if amount.Some? then amount.value else 0.0
  }

  // ----- Queries over the line table -----

  datatype Query =
    | ByAccount(branchId: int, accountCode: GlAccountCode, range: BalanceRange)
    | ByBranch(branchId: int, range: BalanceRange)
    | ByEntry(entryId: nat)
  {
    predicate Matches(line: Line) {
      match this
      case ByAccount(branch, code, range) =>
        line.branchId == branch && line.accountCode == code && range.Contains(line.occurredAt)
      case ByBranch(branch, range) => line.branchId == branch && range.Contains(line.occurredAt)
      case ByEntry(id) => line.entryId == id
    }
  }

  function Select(lines: seq<Line>, q: Query): seq<Line> {
    if lines == [] then []
    else if q.Matches(lines[0]) then [lines[0]] + Select(lines[1..], q)
    else Select(lines[1..], q)
  }

  function Debits(lines: seq<Line>): int {
    if lines == [] then 0 else lines[0].debit + Debits(lines[1..])
  }

  function Credits(lines: seq<Line>): int {
    if lines == [] then 0 else lines[0].credit + Credits(lines[1..])
  }

  function Net(lines: seq<Line>): int {
    Debits(lines) - Credits(lines)
  }

  /** The net (debit minus credit) that `lines` put on one account. */
  function NetOn(lines: seq<Line>, code: GlAccountCode): int {
    if lines == [] then 0
    else (if lines[0].accountCode == code then lines[0].debit - lines[0].credit else 0) + NetOn(lines[1..], code)
  }

  lemma SumsCons(head: Line, tail: seq<Line>, code: GlAccountCode)
    ensures Debits([head] + tail) == head.debit + Debits(tail)
    ensures Credits([head] + tail) == head.credit + Credits(tail)
    ensures NetOn([head] + tail, code)
            == (if head.accountCode == code then head.debit - head.credit else 0) + NetOn(tail, code)
  {
  }

  lemma {:induction false} SumsAppend(a: seq<Line>, b: seq<Line>)
    ensures Debits(a + b) == Debits(a) + Debits(b)
    ensures Credits(a + b) == Credits(a) + Credits(b)
  {
    if a == [] {
      assert a + b == b;
    } else {
      assert (a + b)[1..] == a[1..] + b;
      SumsAppend(a[1..], b);
    }
  }

  lemma {:induction false} SelectAppend(a: seq<Line>, b: seq<Line>, q: Query)
    ensures Select(a + b, q) == Select(a, q) + Select(b, q)
  {
    if a == [] {
      assert a + b == b;
    } else {
      assert (a + b)[1..] == a[1..] + b;
      SelectAppend(a[1..], b, q);
    }
  }

  lemma NetSelectCons(head: Line, tail: seq<Line>, q: Query)
    ensures Net(Select([head] + tail, q))
            == (if q.Matches(head) then head.debit - head.credit else 0) + Net(Select(tail, q))
  {
  }

  lemma {:induction false} SelectAll(lines: seq<Line>, q: Query)
    requires forall k :: 0 <= k < |lines| ==> q.Matches(lines[k])
    ensures Select(lines, q) == lines
  {
    if lines != [] {
      SelectAll(lines[1..], q);
    }
  }

  lemma {:induction false} SelectNone(lines: seq<Line>, q: Query)
    requires forall k :: 0 <= k < |lines| ==> !q.Matches(lines[k])
    ensures Select(lines, q) == []
  {
    if lines != [] {
      SelectNone(lines[1..], q);
    }
  }

  /** A query returns lines of the table that match it, and only those. */
  lemma {:induction false} SelectSound(lines: seq<Line>, q: Query, line: Line)
    ensures line in Select(lines, q) <==> line in lines && q.Matches(line)
  {
    if lines != [] {
      SelectSound(lines[1..], q, line);
    }
  }

  // ----- Blocks: the lines one entry writes together -----

  /** All lines of `block` carry the entry's id, branch and date. */
  ghost predicate Uniform(block: seq<Line>, id: nat, branch: int, date: int) {
    forall k :: 0 <= k < |block| ==>
      block[k].entryId == id && block[k].branchId == branch && block[k].occurredAt == date
  }

  lemma SelectBlockByBranch(block: seq<Line>, id: nat, branch: int, date: int, b: int, r: BalanceRange)
    requires Uniform(block, id, branch, date)
    ensures Select(block, ByBranch(b, r)) == if b == branch && r.Contains(date) then block else []
  {
    if b == branch && r.Contains(date) {
      SelectAll(block, ByBranch(b, r));
    } else {
      SelectNone(block, ByBranch(b, r));
    }
  }

  lemma {:induction false} NetBlockByAccount(
    block: seq<Line>, id: nat, branch: int, date: int, b: int, code: GlAccountCode, r: BalanceRange)
    requires Uniform(block, id, branch, date)
    ensures Net(Select(block, ByAccount(b, code, r)))
            == if b == branch && r.Contains(date) then NetOn(block, code) else 0
  {
    if block != [] {
      NetBlockByAccount(block[1..], id, branch, date, b, code, r);
    }
  }

  lemma SelectBlockByEntry(block: seq<Line>, id: nat, branch: int, date: int, e: nat)
    requires Uniform(block, id, branch, date)
    ensures Select(block, ByEntry(e)) == if e == id then block else []
  {
  }
}
