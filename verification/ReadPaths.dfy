/** The two ways to read the ledger agree, and as-of balances add up over consecutive windows. */
module ReadPaths {
  import opened Outcomes
  import opened Money
  import opened ChartOfAccounts
  import opened Arithmetic
  import opened Journal
  import opened Ledger
  import opened LedgerInvariant

  lemma {:induction false} SelectTwice(lines: seq<Line>, branch: int, code: GlAccountCode, range: BalanceRange)
    ensures Select(Select(lines, ByBranch(branch, range)), ByAccount(branch, code, ALWAYS))
            == Select(lines, ByAccount(branch, code, range))
  {
    if lines != [] {
      SelectTwice(lines[1..], branch, code, range);
      if ByBranch(branch, range).Matches(lines[0]) {
        var rest := Select(lines[1..], ByBranch(branch, range));
        assert ([lines[0]] + rest)[1..] == rest;
      }
    }
  }

  /** The map lists exactly the accounts with a line in the window. */
  lemma TotalsListWindowAccounts(ledger: Books, branch: int, range: BalanceRange, code: GlAccountCode)
    ensures code in AccountTotals(ledger, branch, range)
            <==> exists line :: line in ledger.lines && ByAccount(branch, code, range).Matches(line)
  {
    var window := Select(ledger.lines, ByBranch(branch, range));
    if code in AccountTotals(ledger, branch, range) {
      var line :| line in window && line.accountCode == code;
      SelectSound(ledger.lines, ByBranch(branch, range), line);
      assert ByAccount(branch, code, range).Matches(line);
    }
    if line :| line in ledger.lines && ByAccount(branch, code, range).Matches(line) {
      SelectSound(ledger.lines, ByBranch(branch, range), line);
      assert line in window;
    }
  }

  /** `balance` is the signed difference of the account's totals; an absent account has balance zero. */
  lemma ReadPathsAgree(ledger: Books, branch: int, range: BalanceRange, code: GlAccountCode)
    ensures var totals := AccountTotals(ledger, branch, range);
            Balance(ledger, branch, code, range)
            == if code in totals then (totals[code].debit - totals[code].credit) * NormalBalanceSign(code) else 0
  {
    SelectTwice(ledger.lines, branch, code, range);
    TotalsListWindowAccounts(ledger, branch, range, code);
    if code !in AccountTotals(ledger, branch, range) {
      SelectNone(ledger.lines, ByAccount(branch, code, range));
    }
  }

  lemma {:induction false} WindowNetsAdd(lines: seq<Line>, branch: int, code: GlAccountCode, t1: int, t2: int)
    requires t1 <= t2
    ensures Net(Select(lines, ByAccount(branch, code, AsOf(t2))))
            == Net(Select(lines, ByAccount(branch, code, AsOf(t1))))
               + Net(Select(lines, ByAccount(branch, code, BalanceRange(Some(t1 + 1), Some(t2)))))
  {
    if lines != [] {
      WindowNetsAdd(lines[1..], branch, code, t1, t2);
      SumsCons(lines[0], Select(lines[1..], ByAccount(branch, code, AsOf(t2))), code);
      SumsCons(lines[0], Select(lines[1..], ByAccount(branch, code, AsOf(t1))), code);
      SumsCons(lines[0], Select(lines[1..], ByAccount(branch, code, BalanceRange(Some(t1 + 1), Some(t2)))), code);
    }
  }

  /** Balance as of t2 = balance as of t1 + balance of the window strictly after t1 up to t2. */
  lemma WindowsAddUp(ledger: Books, branch: int, code: GlAccountCode, t1: int, t2: int)
    requires t1 <= t2
    ensures Balance(ledger, branch, code, AsOf(t2))
            == Balance(ledger, branch, code, AsOf(t1))
               + Balance(ledger, branch, code, BalanceRange(Some(t1 + 1), Some(t2)))
  {
    WindowNetsAdd(ledger.lines, branch, code, t1, t2);
    Distribute(Net(Select(ledger.lines, ByAccount(branch, code, AsOf(t1)))),
               Net(Select(ledger.lines, ByAccount(branch, code, BalanceRange(Some(t1 + 1), Some(t2))))),
               NormalBalanceSign(code));
  }

  // ----- What a post does to the totals -----

  /** An account's totals; zero when it is not listed. */
  function TotalsOf(totals: map<GlAccountCode, Totals>, code: GlAccountCode): Totals {
    if code in totals then totals[code] else Totals(0, 0)
  }

  lemma TotalsAreSums(ledger: Books, branch: int, range: BalanceRange, code: GlAccountCode)
    ensures var rows := Select(ledger.lines, ByAccount(branch, code, range));
            TotalsOf(AccountTotals(ledger, branch, range), code) == Totals(Debits(rows), Credits(rows))
  {
    SelectTwice(ledger.lines, branch, code, range);
    TotalsListWindowAccounts(ledger, branch, range, code);
    if code !in AccountTotals(ledger, branch, range) {
      SelectNone(ledger.lines, ByAccount(branch, code, range));
    }
  }

  /** The rounded debits and the rounded credits that the requested lines put on one account. */
  function DebitsOn(lines: seq<LineInput>, code: GlAccountCode): int {
    if lines == [] then 0
    else (if lines[0].accountCode == code then Round2(Amount(lines[0].debit)) else 0) + DebitsOn(lines[1..], code)
  }

  function CreditsOn(lines: seq<LineInput>, code: GlAccountCode): int {
    if lines == [] then 0
    else (if lines[0].accountCode == code then Round2(Amount(lines[0].credit)) else 0) + CreditsOn(lines[1..], code)
  }

  lemma {:induction false} StoredOnAccount(
    lines: seq<LineInput>, entry: Entry, branch: int, code: GlAccountCode, range: BalanceRange)
    requires FirstLineError(lines) == None
    ensures var rows := Select(StoredLines(lines, entry), ByAccount(branch, code, range));
            var counted := branch == entry.branchId && range.Contains(entry.occurredAt);
            && Debits(rows) == (if counted then DebitsOn(lines, code) else 0)
            && Credits(rows) == (if counted then CreditsOn(lines, code) else 0)
  {
    if lines != [] {
      StoredOnAccount(lines[1..], entry, branch, code, range);
      assert LineError(lines[0]) == None;
      RoundCents(0);
      StoredHead(lines, entry, branch, code, range);
    }
  }

  /** The rows of the first line are in front of those of the rest. */
  lemma {:induction false} StoredHead(
    lines: seq<LineInput>, entry: Entry, branch: int, code: GlAccountCode, range: BalanceRange)
    requires lines != [] && LineError(lines[0]) == None
    ensures var q := ByAccount(branch, code, range);
            var debit, credit := Round2(Amount(lines[0].debit)), Round2(Amount(lines[0].credit));
            var counted := branch == entry.branchId && range.Contains(entry.occurredAt)
                           && lines[0].accountCode == code;
            var rows, rest := Select(StoredLines(lines, entry), q), Select(StoredLines(lines[1..], entry), q);
            && Debits(rows) == Debits(rest) + (if counted then debit else 0)
            && Credits(rows) == Credits(rest) + (if counted then credit else 0)
  {
    var q, rest := ByAccount(branch, code, range), StoredLines(lines[1..], entry);
    RoundCents(0);
    if Amount(lines[0].debit) > 0.0 || Amount(lines[0].credit) > 0.0 {
      var head := StoredLines(lines, entry)[0];
      assert StoredLines(lines, entry) == [head] + rest && ([head] + rest)[1..] == rest;
      SumsCons(head, Select(rest, q), code);
    } else {
      assert StoredLines(lines, entry) == rest;
    }
  }

  /** A fresh accepted post raises an account's debit and credit totals by the rounded amounts of its own legs. */
  lemma PostMovesTotals(ledger: Books, input: PostInput, branch: int, code: GlAccountCode, range: BalanceRange)
    requires Valid(ledger) && Accepted(input)
    requires FindByKey(ledger.entries, input.branchId, input.idempotencyKey) == None
    ensures var before := TotalsOf(AccountTotals(ledger, branch, range), code);
            var after := TotalsOf(AccountTotals(Post(ledger, input).0, branch, range), code);
            var counted := branch == input.branchId && range.Contains(input.occurredAt);
            && after.debit == before.debit + (if counted then DebitsOn(input.lines, code) else 0)
            && after.credit == before.credit + (if counted then CreditsOn(input.lines, code) else 0)
  {
    var entry, q := NewEntry(input, ledger.nextEntryId), ByAccount(branch, code, range);
    TotalsAreSums(ledger, branch, range, code);
    TotalsAreSums(Post(ledger, input).0, branch, range, code);
    SelectAppend(ledger.lines, StoredLines(input.lines, entry), q);
    SumsAppend(Select(ledger.lines, q), Select(StoredLines(input.lines, entry), q));
    StoredOnAccount(input.lines, entry, branch, code, range);
  }
}
