/**
 The settlement of a property booking as it is called: the submitted rows are normalised, their total is what is paid
 now, and the rent paid before and not yet recognised is what was deferred.
 */
module PropertySettlement {
  import opened Outcomes
  import opened Money
  import opened ChartOfAccounts
  import opened Journal
  import opened Ledger
  import opened LedgerInvariant
  import opened TenderSplit
  import opened SplitPosting

  // ----- The settlement as it is called -----

  predicate IsSpace(c: char) {
    || c == ' ' || '\t' <= c <= '\r' || c == '\U{00A0}' || c == '\U{1680}' || '\U{2000}' <= c <= '\U{200A}'
    || c == '\U{2028}' || c == '\U{2029}' || c == '\U{202F}' || c == '\U{205F}' || c == '\U{3000}' || c == '\U{FEFF}'
  }

  function Trim(text: string): string {
    if text == "" then ""
    else if IsSpace(text[0]) then Trim(text[1..])
    else if IsSpace(text[|text| - 1]) then Trim(text[..|text| - 1])
    else text
  }

  /** The record kept of a payment row: cash unless another tender is named, the amount rounded to the cent. */
  function PaymentRecord(row: TenderRow): TenderRow {
    var tender := if row.tender.None? || row.tender.value == "" then "CASH" else row.tender.value;
    TenderRow(Some(ToUpperCase(Trim(tender))), Some(Round2(RowAmount(row)) as real))
  }

  /** Rows that pay nothing are left out. */
  function NormalizePaymentRows(rows: seq<TenderRow>): seq<TenderRow> {
    if rows == [] then []
    else (if RowAmount(rows[0]) > 0.0 then [PaymentRecord(rows[0])] else []) + NormalizePaymentRows(rows[1..])
  }

  function RowTotal(rows: seq<TenderRow>): real {
    if rows == [] then 0.0 else RowAmount(rows[0]) + RowTotal(rows[1..])
  }

  /** A settlement request: payment rows, or a flat amount when there are none. */
  datatype SettleRequest = SettleRequest(
    payments: Option<seq<TenderRow>>, paidAmount: Option<real>, paymentMethod: Option<string>)
  {
    function Rows(): seq<TenderRow> {
      if payments.Some? && payments.value != [] then payments.value
      else if paidAmount.Some? then [TenderRow(paymentMethod, paidAmount)]
      else []
    }

    function Records(): seq<TenderRow> {
      NormalizePaymentRows(Rows())
    }

    function FinalPaid(): int {
      Round2(RowTotal(Records()))
    }
  }

  /** Rent collected before that is not recognised yet. */
  function PriorDeferred(paid: Option<int>, recognised: int): nat {
    Positive((if paid.Some? then paid.value else 0) - recognised)
  }

  lemma {:induction false} RecordsAreClean(rows: seq<TenderRow>)
    ensures var records := NormalizePaymentRows(rows);
            && WholeRows(records) && NonNegativeRows(records)
            && RowTotal(records) == CashSum(records) + ClearingSum(records)
  {
    if rows != [] {
      RecordsAreClean(rows[1..]);
      var rest := NormalizePaymentRows(rows[1..]);
      if RowAmount(rows[0]) > 0.0 {
        RoundCents(Round2(RowAmount(rows[0])));
        assert NormalizePaymentRows(rows) == [PaymentRecord(rows[0])] + rest;
        assert ([PaymentRecord(rows[0])] + rest)[1..] == rest;
      } else {
        assert NormalizePaymentRows(rows) == rest;
      }
    }
  }

  /** Against the total of its own records, a split rescales nothing: its parts are the sums of the records. */
  lemma RecordsSplitAsTheyAre(request: SettleRequest)
    ensures var split := Split(request.Records(), request.FinalPaid() as real);
            && split.cash as real == CashSum(request.Records())
            && split.clearing as real == ClearingSum(request.Records())
            && split.cash >= 0 && split.clearing >= 0 && split.cash + split.clearing == request.FinalPaid()
  {
    RecordsAreClean(request.Rows());
    var cash, clearing := WholeSums(request.Records());
    RoundCents(cash);
    RoundCents(clearing);
    RoundCents(cash + clearing);
    assert (cash + clearing) as real == RowTotal(request.Records());
  }

  /** Whatever rows are submitted, a settlement with anything to recognise is accepted. */
  lemma SettlementAsCalledIsAccepted(
    request: SettleRequest, paid: Option<int>, recognised: int, branch: int, date: int, key: string)
    requires key != "" && Recognised(request.FinalPaid() as real, PriorDeferred(paid, recognised)) > 0
    ensures Accepted(Settlement(request.Records(), request.FinalPaid() as real, PriorDeferred(paid, recognised),
                                branch, date, key))
  {
    RecordsAreClean(request.Rows());
    RecordsSplitAsTheyAre(request);
    RoundCents(request.FinalPaid());
    SettlementIsAccepted(request.Records(), request.FinalPaid() as real, PriorDeferred(paid, recognised),
                         branch, date, key);
  }

  /**
   It books each tender at the sum of its own records, and recognises as rent what is paid now and what was still
   deferred.
   */
  lemma SettlementAsCalledBooksTheRecords(
    ledger: Books, request: SettleRequest, paid: Option<int>, recognised: int, branch: int, date: int, key: string,
    range: BalanceRange)
    requires Valid(ledger) && FindByKey(ledger.entries, branch, key) == None && range.Contains(date)
    requires key != "" && Recognised(request.FinalPaid() as real, PriorDeferred(paid, recognised)) > 0
    ensures var deferred := PriorDeferred(paid, recognised);
            var next := Post(ledger, Settlement(request.Records(), request.FinalPaid() as real, deferred,
                                                branch, date, key)).0;
            var gain := (code: GlAccountCode) =>
              Balance(next, branch, code, range) - Balance(ledger, branch, code, range);
            && gain(Cash) as real == CashSum(request.Records())
            && gain(TenderClearing) as real == ClearingSum(request.Records())
            && gain(DeferredRevenue) == 0 - deferred
            && gain(RentalRevenue) == request.FinalPaid() + deferred
            && forall code :: code !in {Cash, TenderClearing, DeferredRevenue, RentalRevenue} ==> gain(code) == 0
  {
    RecordsAreClean(request.Rows());
    RecordsSplitAsTheyAre(request);
    RoundCents(request.FinalPaid());
    SettlementMovesBalances(ledger, request.Records(), request.FinalPaid() as real, PriorDeferred(paid, recognised),
                            branch, date, key, range);
  }

  // ----- The settlement, on what is submitted -----

  predicate AllSpaces(text: string) {
    forall k :: 0 <= k < |text| ==> IsSpace(text[k])
  }

  /** No space at either end. */
  predicate Tight(text: string) {
    text != "" ==> !IsSpace(text[0]) && !IsSpace(text[|text| - 1])
  }

  lemma AddFront(c: char, before: string, name: string, after: string)
    requires IsSpace(c) && AllSpaces(before)
    ensures AllSpaces([c] + before) && [c] + (before + name + after) == ([c] + before) + name + after
  {
  }

  lemma AddBack(before: string, name: string, after: string, c: char)
    requires IsSpace(c) && AllSpaces(after)
    ensures AllSpaces(after + [c]) && (before + name + after) + [c] == before + name + (after + [c])
  {
  }

  lemma {:induction false} TrimTakesTheEnds(text: string) returns (before: string, after: string)
    ensures text == before + Trim(text) + after && AllSpaces(before) && AllSpaces(after) && Tight(Trim(text))
    decreases |text|
  {
    before, after := "", "";
    if text != "" {
      var first, last := text[0], text[|text| - 1];
      if IsSpace(first) {
        var inner, rest := TrimTakesTheEnds(text[1..]);
        AddFront(first, inner, Trim(text[1..]), rest);
        before, after := [first] + inner, rest;
      } else if IsSpace(last) {
        var rest, inner := TrimTakesTheEnds(text[..|text| - 1]);
        AddBack(rest, Trim(text[..|text| - 1]), inner, last);
        before, after := rest, inner + [last];
      }
    }
  }

  lemma {:induction false} TrimOf(before: string, name: string, after: string)
    requires AllSpaces(before) && AllSpaces(after) && Tight(name) && name != ""
    ensures Trim(before + name + after) == name
    decreases |before| + |after|
  {
    var text := before + name + after;
    if before != "" {
      assert text[0] == before[0] && text[1..] == before[1..] + name + after;
      TrimOf(before[1..], name, after);
    } else if after != "" {
      var shorter := after[..|after| - 1];
      assert after == shorter + [after[|after| - 1]];
      assert text == (before + name + shorter) + [after[|after| - 1]];
      assert text[0] == name[0] && text[|text| - 1] == after[|after| - 1];
      assert text[..|text| - 1] == before + name + shorter;
      TrimOf(before, name, shorter);
    } else {
      assert text == name;
    }
  }

  /** The row names cash, in any case and with any space around it, or names no tender. */
  ghost predicate PaysInCash(row: TenderRow) {
    || row.tender.None? || row.tender.value == ""
    || exists before, name, after ::
         row.tender.value == before + name + after && AllSpaces(before) && AllSpaces(after)
         && ToUpperCase(name) == "CASH"
  }

  lemma {:induction false} UpperTwice(text: string)
    ensures ToUpperCase(ToUpperCase(text)) == ToUpperCase(text)
  {
  }

  lemma CashNameIsTight(name: string)
    requires ToUpperCase(name) == "CASH"
    ensures Tight(name) && name != ""
  {
    var upper := ToUpperCase(name);
    assert |upper| == 4 && upper[0] == 'C' && upper[3] == 'H';
  }

  /** The record of a row is a cash row exactly when the row pays in cash. */
  lemma RecordIsCashIff(row: TenderRow)
    ensures IsCash(PaymentRecord(row)) <==> PaysInCash(row)
  {
    IsCashIff(PaymentRecord(row));
    if row.tender.None? || row.tender.value == "" {
      TrimOf("", "CASH", "");
      assert "" + "CASH" + "" == "CASH";
      assert ToUpperCase("CASH") == "CASH";
    } else {
      var text := row.tender.value;
      UpperTwice(Trim(text));
      var before, after := TrimTakesTheEnds(text);
      if before', name, after' :| text == before' + name + after' && AllSpaces(before') && AllSpaces(after')
                                  && ToUpperCase(name) == "CASH" {
        CashNameIsTight(name);
        TrimOf(before', name, after');
      }
    }
  }

  /** What the rows that pay something pay in cash, and what they pay otherwise, each rounded to the cent. */
  ghost function PaidInCash(rows: seq<TenderRow>): int {
    if rows == [] then 0
    else (if PaysInCash(rows[0]) then Positive(Round2(Amount(rows[0].amount))) else 0) + PaidInCash(rows[1..])
  }

  ghost function PaidOtherwise(rows: seq<TenderRow>): int {
    if rows == [] then 0
    else (if PaysInCash(rows[0]) then 0 else Positive(Round2(Amount(rows[0].amount)))) + PaidOtherwise(rows[1..])
  }

  lemma {:induction false} RecordsAreWhatIsPaid(rows: seq<TenderRow>)
    ensures CashSum(NormalizePaymentRows(rows)) == PaidInCash(rows) as real
    ensures ClearingSum(NormalizePaymentRows(rows)) == PaidOtherwise(rows) as real
  {
    if rows != [] {
      RecordsAreWhatIsPaid(rows[1..]);
      RecordIsCashIff(rows[0]);
      var rest, record := NormalizePaymentRows(rows[1..]), PaymentRecord(rows[0]);
      if RowAmount(rows[0]) > 0.0 {
        assert NormalizePaymentRows(rows) == [record] + rest && ([record] + rest)[1..] == rest;
      } else {
        assert NormalizePaymentRows(rows) == rest;
      }
    }
  }

  /** The rows a request submits: its payment rows, or its flat amount as one row. */
  ghost predicate Submits(request: SettleRequest, rows: seq<TenderRow>) {
    || (request.payments == Some(rows) && rows != [])
    || ((request.payments == None || request.payments == Some([])) && request.paidAmount.Some?
        && rows == [TenderRow(request.paymentMethod, request.paidAmount)])
  }

  lemma RequestFigures(request: SettleRequest, rows: seq<TenderRow>)
    requires Submits(request, rows)
    ensures CashSum(request.Records()) == PaidInCash(rows) as real
    ensures ClearingSum(request.Records()) == PaidOtherwise(rows) as real
    ensures request.FinalPaid() == PaidInCash(rows) + PaidOtherwise(rows)
  {
    assert request.Rows() == rows;
    RecordsAreWhatIsPaid(rows);
    RecordsAreClean(rows);
    assert (PaidInCash(rows) + PaidOtherwise(rows)) as real == RowTotal(request.Records());
    RoundCents(PaidInCash(rows) + PaidOtherwise(rows));
  }

  lemma RecognisedIs(finalPaid: int, deferred: nat)
    ensures Recognised(finalPaid as real, deferred) == finalPaid + deferred
  {
    RoundShift(finalPaid as real, deferred);
    RoundCents(finalPaid);
  }

  /**
   A settlement books what is submitted: cash and clearing rise by what the rows pay in cash and otherwise, deferred
   revenue falls by the rent paid before and not recognised, rental revenue rises by all of it, nothing else moves.
   */
  lemma SettlementBooksWhatIsSubmitted(
    ledger: Books, request: SettleRequest, rows: seq<TenderRow>, paid: Option<int>, recognised: int, branch: int,
    date: int, key: string, range: BalanceRange)
    requires Valid(ledger) && FindByKey(ledger.entries, branch, key) == None && range.Contains(date)
    requires key != "" && Submits(request, rows)
    requires var held := if paid.Some? && paid.value > recognised then paid.value - recognised
                         else if paid.None? && recognised < 0 then -recognised else 0;
             PaidInCash(rows) + PaidOtherwise(rows) + held > 0
    ensures var held := if paid.Some? && paid.value > recognised then paid.value - recognised
                        else if paid.None? && recognised < 0 then -recognised else 0;
            var next := Post(ledger, Settlement(request.Records(), request.FinalPaid() as real,
                                                PriorDeferred(paid, recognised), branch, date, key)).0;
            var gain := (code: GlAccountCode) =>
              Balance(next, branch, code, range) - Balance(ledger, branch, code, range);
            && gain(Cash) == PaidInCash(rows) && gain(TenderClearing) == PaidOtherwise(rows)
            && gain(DeferredRevenue) == 0 - held
            && gain(RentalRevenue) == PaidInCash(rows) + PaidOtherwise(rows) + held
            && forall code :: code !in {Cash, TenderClearing, DeferredRevenue, RentalRevenue} ==> gain(code) == 0
  {
    RequestFigures(request, rows);
    RecognisedIs(request.FinalPaid(), PriorDeferred(paid, recognised));
    SettlementAsCalledBooksTheRecords(ledger, request, paid, recognised, branch, date, key, range);
  }
}
