/**
 Splitting tender rows into cash and clearing so that the two sum to the settled total.
 `Split` says what the loop and the rescaling compute; the method is the source's own loop.
 */
module TenderSplit {
  import opened Outcomes
  import opened Money
  import opened Arithmetic

  datatype TenderRow = TenderRow(tender: Option<string>, amount: Option<real>)

  datatype TenderSplit = TenderSplit(cash: int, clearing: int)

  function RowAmount(row: TenderRow): real {
    if row.amount.Some? then row.amount.value else 0.0
  }

  /** `toUpperCase` on the letters that matter: the long s also becomes an S. */
  function UpperCase(c: char): char {
    if 'a' <= c <= 'z' then c - 'a' + 'A'
    else if c == '\U{017F}' then 'S'
    else c
  }

  function ToUpperCase(text: string): string {
    seq(|text|, i requires 0 <= i < |text| => UpperCase(text[i]))
  }

  predicate IsCash(row: TenderRow) {
    row.tender.Some? && |row.tender.value| == 4
    && UpperCase(row.tender.value[0]) == 'C' && UpperCase(row.tender.value[1]) == 'A'
    && UpperCase(row.tender.value[2]) == 'S' && UpperCase(row.tender.value[3]) == 'H'
  }

  function CashSum(rows: seq<TenderRow>): real {
    if rows == [] then 0.0 else (if IsCash(rows[0]) then RowAmount(rows[0]) else 0.0) + CashSum(rows[1..])
  }

  function ClearingSum(rows: seq<TenderRow>): real {
    if rows == [] then 0.0 else (if IsCash(rows[0]) then 0.0 else RowAmount(rows[0])) + ClearingSum(rows[1..])
  }

  /** An amount of the tendered sum, scaled to the settled one. */
  function InProportion(amount: real, settled: int, tendered: int): real
    requires tendered > 0
  {
    amount * (settled as real / tendered as real)
  }

  lemma InProportionIsNonNegative(amount: real, settled: int, tendered: int)
    requires amount >= 0.0 && settled >= 0 && tendered > 0
    ensures InProportion(amount, settled, tendered) >= 0.0
  {
    MulOrder(0.0, amount, settled as real / tendered as real);
  }

  /** The split of given cash and clearing sums against a total. */
  function SplitSums(cash: real, clearing: real, total: real): TenderSplit {
    var settled, sum := Round2(total), Round2(cash + clearing);
    if sum <= 0 then TenderSplit(settled, 0)
    else if sum == settled then TenderSplit(Round2(cash), Round2(clearing))
    else
      var scaled := Round2(InProportion(cash, settled, sum));
      TenderSplit(scaled, settled - scaled)
  }

  function Split(rows: seq<TenderRow>, total: real): TenderSplit {
    SplitSums(CashSum(rows), ClearingSum(rows), total)
  }

  /** The loop over the tender rows. */
  method AddTenders(rows: seq<TenderRow>) returns (cash: real, clearing: real)
    ensures cash == CashSum(rows) && clearing == ClearingSum(rows)
  {
    cash, clearing := 0.0, 0.0;
    for i := 0 to |rows|
      invariant cash + CashSum(rows[i..]) == CashSum(rows)
      invariant clearing + ClearingSum(rows[i..]) == ClearingSum(rows)
    {
      assert rows[i..][1..] == rows[i + 1..];
      var amount := RowAmount(rows[i]);
      if IsCash(rows[i]) {
        cash := cash + amount;
      } else {
        clearing := clearing + amount;
      }
    }
  }

  method SplitTenders(rows: Option<seq<TenderRow>>, total: real) returns (split: TenderSplit)
    ensures split == Split(if rows.Some? then rows.value else [], total)
  {
    var settled := Round2(total);
    var cash, clearing := AddTenders(if rows.Some? then rows.value else []);
    if Round2(cash + clearing) <= 0 {
      return TenderSplit(settled, 0);
    }
    var sum := Round2(cash + clearing);
    if sum != settled {
      var scale := settled as real / sum as real;
      ghost var scaled := Round2(cash * scale);
      cash := Round2(cash * scale) as real;
      RoundCents(settled - scaled);
      assert settled as real - cash == (settled - scaled) as real;
      clearing := Round2(settled as real - cash) as real;
      RoundCents(scaled);
    }
    return TenderSplit(Round2(cash), Round2(clearing));
  }

  // ----- The parts sum to the settled total -----

  /**
   The two parts sum to the settled total exactly when there is no tender detail, or a rescaling takes
   place, or the rounding remainders of the two sums add up to no more than a cent's half.
   */
  lemma SumsToTotalIff(cash: real, clearing: real, total: real)
    ensures var split := SplitSums(cash, clearing, total);
            split.cash + split.clearing == Round2(total) <==>
            || Round2(cash + clearing) <= 0
            || Round2(cash + clearing) != Round2(total)
            || -0.5 <= Remainder(cash) + Remainder(clearing) < 0.5
  {
  }

  /** For any rows at all, the parts are off by at most a cent, and only where nothing is rescaled. */
  lemma OffByAtMostACent(rows: seq<TenderRow>, total: real)
    ensures var split := Split(rows, total);
            Abs(split.cash + split.clearing - Round2(total)) <= 1
            && (split.cash + split.clearing != Round2(total) ==>
                 0 < Round2(CashSum(rows) + ClearingSum(rows)) == Round2(total))
  {
  }

  predicate WholeRows(rows: seq<TenderRow>) {
    forall k :: 0 <= k < |rows| ==> WholeCents(RowAmount(rows[k]))
  }

  predicate NonNegativeRows(rows: seq<TenderRow>) {
    forall k :: 0 <= k < |rows| ==> RowAmount(rows[k]) >= 0.0
  }

  lemma {:induction false} SumsAreNonNegative(rows: seq<TenderRow>)
    requires NonNegativeRows(rows)
    ensures CashSum(rows) >= 0.0 && ClearingSum(rows) >= 0.0
  {
    if rows != [] {
      SumsAreNonNegative(rows[1..]);
    }
  }

  /** The sums of whole-cent rows, as integers. */
  lemma {:induction false} WholeSums(rows: seq<TenderRow>) returns (cash: int, clearing: int)
    requires WholeRows(rows)
    ensures CashSum(rows) == cash as real && ClearingSum(rows) == clearing as real
    ensures NonNegativeRows(rows) ==> 0 <= cash && 0 <= clearing
  {
    if rows == [] {
      return 0, 0;
    }
    cash, clearing := WholeSums(rows[1..]);
    if IsCash(rows[0]) {
      cash := cash + RowAmount(rows[0]).Floor;
    } else {
      clearing := clearing + RowAmount(rows[0]).Floor;
    }
  }

  /** Whole-cent rows of any sign and number, any total: cash + clearing is the settled total exactly. */
  lemma ConservesTotal(rows: seq<TenderRow>, total: real)
    requires WholeRows(rows)
    ensures Split(rows, total).cash + Split(rows, total).clearing == Round2(total)
  {
    var cash, clearing := WholeSums(rows);
    RoundCents(cash);
    RoundCents(clearing);
    SumsToTotalIff(CashSum(rows), ClearingSum(rows), total);
  }

  /** Below a cent the promise can fail: half a cent in cash and half in clearing, against one cent. */
  lemma HalfCentsSumToTwo()
    ensures var rows := [TenderRow(Some("cash"), Some(0.5)), TenderRow(None, Some(0.5))];
            Split(rows, 1.0) == TenderSplit(1, 1) && Round2(1.0) == 1
  {
    TwoRowSums(TenderRow(Some("cash"), Some(0.5)), TenderRow(None, Some(0.5)));
  }

  // ----- Whole cents: the split as integer division -----

  /** Proportional share, rounded half up: the exact rational share is cash * settled / sum. */
  function Share(cash: int, settled: int, sum: int): int
    requires sum > 0
  {
    (2 * cash * settled + sum) / (2 * sum)
  }

  /** The share is the integer nearest to cash * settled / sum, a tie going up. */
  lemma ShareIsNearest(cash: int, settled: int, sum: int, share: int)
    requires sum > 0
    ensures Share(cash, settled, sum) == share <==>
            2 * sum * share <= 2 * cash * settled + sum < 2 * sum * share + 2 * sum
  {
    var n, d := 2 * cash * settled + sum, 2 * sum;
    assert d * share == 2 * sum * share;
    DivisionIs(n, d, share);
  }

  /** Rounding the scaled cash is the integer share. */
  lemma ScaledIsShare(cash: int, settled: int, sum: int)
    requires sum > 0
    ensures Round2(cash as real * (settled as real / sum as real)) == Share(cash, settled, sum)
  {
    var x := cash as real * (settled as real / sum as real);
    var r := Round2(x);
    DividedBack(cash as real, settled as real, sum as real);
    CastMul(cash, settled);
    ClearFraction(x, r, sum, cash * settled);
    Reassociate(2, sum, r);
    Reassociate(2, cash, settled);
    Commute(sum, r);
    ShareIsNearest(cash, settled, sum, r);
  }

  /** Multiplying an interval around `x` through by a positive integer. */
  lemma ClearFraction(x: real, r: int, s: int, product: int)
    requires s > 0 && x * s as real == product as real && r as real - 0.5 <= x < r as real + 0.5
    ensures 2 * (r * s) - s <= 2 * product < 2 * (r * s) + s
  {
    CastMul(r, s);
    LowerEnd(r as real, x, s as real, product as real, (r * s) as real);
    UpperEnd(r as real, x, s as real, product as real, (r * s) as real);
    Halves(r * s, product, s);
  }

  lemma LowerEnd(r: real, x: real, t: real, p: real, m: real)
    requires t > 0.0 && r - 0.5 <= x && x * t == p && r * t == m
    ensures m - 0.5 * t <= p
  {
    MulOrder(r - 0.5, x, t);
  }

  lemma UpperEnd(r: real, x: real, t: real, p: real, m: real)
    requires t > 0.0 && x < r + 0.5 && x * t == p && r * t == m
    ensures p < m + 0.5 * t
  {
    MulOrderStrict(x, r + 0.5, t);
  }

  lemma Halves(m: int, p: int, s: int)
    requires m as real - 0.5 * s as real <= p as real < m as real + 0.5 * s as real
    ensures 2 * m - s <= 2 * p < 2 * m + s
  {
  }

  /** On whole cents with a positive sum, all branches agree: the cash part is the proportional share. */
  lemma SplitIsShare(cash: int, clearing: int, total: real)
    ensures var split := SplitSums(cash as real, clearing as real, total);
            split == if cash + clearing <= 0 then TenderSplit(Round2(total), 0)
                     else var share := Share(cash, Round2(total), cash + clearing);
                          TenderSplit(share, Round2(total) - share)
  {
    RoundCents(cash);
    RoundCents(clearing);
    RoundCents(cash + clearing);
    assert (cash + clearing) as real == cash as real + clearing as real;
    var settled := Round2(total);
    if cash + clearing > 0 {
      if cash + clearing == settled {
        assert 2 * settled * cash == 2 * cash * settled;
        ShareIsNearest(cash, settled, cash + clearing, cash);
      } else {
        ScaledIsShare(cash, settled, cash + clearing);
      }
    }
  }

  // ----- Fair and bounded -----

  lemma ShareMonotone(less: int, more: int, settled: nat, sum: int)
    requires less <= more && sum > 0
    ensures Share(less, settled, sum) <= Share(more, settled, sum)
  {
    Commute(2 * less, settled);
    Commute(2 * more, settled);
    MulMonotone(settled, 2 * less, 2 * more);
    DivMonotone(2 * less * settled + sum, 2 * more * settled + sum, 2 * sum);
  }

  lemma ShareEnds(settled: int, sum: int)
    requires sum > 0
    ensures Share(0, settled, sum) == 0 && Share(sum, settled, sum) == settled
  {
    assert 2 * 0 * settled == 0;
    ShareIsNearest(0, settled, sum, 0);
    ShareIsNearest(sum, settled, sum, settled);
  }

  lemma ShareBounds(cash: nat, clearing: nat, settled: nat)
    requires cash + clearing > 0
    ensures 0 <= Share(cash, settled, cash + clearing) <= settled
    ensures cash == 0 ==> Share(cash, settled, cash + clearing) == 0
    ensures clearing == 0 ==> Share(cash, settled, cash + clearing) == settled
  {
    ShareEnds(settled, cash + clearing);
    ShareMonotone(0, cash, settled, cash + clearing);
    ShareMonotone(cash, cash + clearing, settled, cash + clearing);
  }

  /** The exact share, before rounding. */
  function ExactShare(cash: real, clearing: real, settled: int): real
    requires cash + clearing > 0.0
  {
    cash * (settled as real / (cash + clearing))
  }

  predicate WithinHalfACent(cents: int, x: real) {
    x - 0.5 <= cents as real <= x + 0.5
  }

  lemma ProportionalSums(cash: real, clearing: real, total: real)
    requires WholeCents(cash) && WholeCents(cash + clearing) && cash + clearing > 0.0
    ensures WithinHalfACent(SplitSums(cash, clearing, total).cash, ExactShare(cash, clearing, Round2(total)))
  {
    RoundWhole(cash);
    RoundWhole(cash + clearing);
    if Round2(cash + clearing) == Round2(total) {
      SelfQuotient(Round2(total) as real, cash + clearing);
    }
  }

  lemma WholeSumsAreWhole(rows: seq<TenderRow>)
    requires WholeRows(rows)
    ensures WholeCents(CashSum(rows)) && WholeCents(CashSum(rows) + ClearingSum(rows))
  {
    var cash, clearing := WholeSums(rows);
    RoundCents(cash);
    RoundCents(cash + clearing);
    assert (cash + clearing) as real == CashSum(rows) + ClearingSum(rows);
  }

  /** Whole-cent rows with a positive sum: the cash part is within half a cent of its proportional share. */
  lemma CashIsProportional(rows: seq<TenderRow>, total: real)
    requires WholeRows(rows) && CashSum(rows) + ClearingSum(rows) > 0.0
    ensures WithinHalfACent(Split(rows, total).cash, ExactShare(CashSum(rows), ClearingSum(rows), Round2(total)))
  {
    WholeSumsAreWhole(rows);
    ProportionalSums(CashSum(rows), ClearingSum(rows), total);
  }

  /** Non-negative rows: both parts lie between zero and the settled total, and a one-sided tender stays so. */
  lemma SplitIsBounded(rows: seq<TenderRow>, total: real)
    requires WholeRows(rows) && NonNegativeRows(rows) && CashSum(rows) + ClearingSum(rows) > 0.0 && Round2(total) >= 0
    ensures var split, settled := Split(rows, total), Round2(total);
            && 0 <= split.cash <= settled && 0 <= split.clearing <= settled
            && (CashSum(rows) == 0.0 ==> split.cash == 0)
            && (ClearingSum(rows) == 0.0 ==> split.clearing == 0)
  {
    var cash, clearing := WholeSums(rows);
    SplitIsShare(cash, clearing, total);
    ShareBounds(cash, clearing, Round2(total));
  }

  // ----- Order-blind, monotone, stable -----

  lemma {:induction false} SumsAppendRows(a: seq<TenderRow>, b: seq<TenderRow>)
    ensures CashSum(a + b) == CashSum(a) + CashSum(b)
    ensures ClearingSum(a + b) == ClearingSum(a) + ClearingSum(b)
  {
    if a == [] {
      assert a + b == b;
    } else {
      assert (a + b)[1..] == a[1..] + b;
      SumsAppendRows(a[1..], b);
    }
  }

  /** The sums of rows with one of them taken out. */
  lemma SumsWithout(rows: seq<TenderRow>, k: nat)
    requires k < |rows|
    ensures CashSum(rows) == CashSum(rows[..k] + rows[k + 1..]) + CashSum([rows[k]])
    ensures ClearingSum(rows) == ClearingSum(rows[..k] + rows[k + 1..]) + ClearingSum([rows[k]])
  {
    var before, row, after := rows[..k], [rows[k]], rows[k + 1..];
    assert rows == before + (row + after);
    SumsAppendRows(before, row + after);
    SumsAppendRows(row, after);
    SumsAppendRows(before, after);
  }

  lemma TakeOut(rows: seq<TenderRow>, k: nat)
    requires k < |rows|
    ensures multiset(rows) == multiset(rows[..k] + rows[k + 1..]) + multiset{rows[k]}
  {
    assert rows == rows[..k] + [rows[k]] + rows[k + 1..];
  }

  lemma {:induction false} SumsOfPermutation(a: seq<TenderRow>, b: seq<TenderRow>)
    requires multiset(a) == multiset(b)
    ensures CashSum(a) == CashSum(b) && ClearingSum(a) == ClearingSum(b)
    decreases |a|
  {
    if a == [] {
      assert |multiset(b)| == 0;
    } else {
      assert a[0] in multiset(b);
      var k :| 0 <= k < |b| && b[k] == a[0];
      var rest := b[..k] + b[k + 1..];
      SumsWithout(b, k);
      TakeOut(b, k);
      assert a == [a[0]] + a[1..];
      SumsAppendRows([a[0]], a[1..]);
      assert multiset(a[1..]) == multiset(a) - multiset{a[0]};
      SumsOfPermutation(a[1..], rest);
    }
  }

  /** The order of the rows does not matter, whatever their amounts. */
  lemma SplitIgnoresOrder(a: seq<TenderRow>, b: seq<TenderRow>, total: real)
    requires multiset(a) == multiset(b)
    ensures Split(a, total) == Split(b, total)
  {
    SumsOfPermutation(a, b);
  }

  /** Re-tagging any row as cash never lowers the cash part. */
  lemma RetaggingAsCashIsMonotone(rows: seq<TenderRow>, k: nat, total: real)
    requires WholeRows(rows) && NonNegativeRows(rows) && k < |rows| && Round2(total) >= 0
    ensures Split(rows, total).cash <= Split(rows[k := rows[k].(tender := Some("CASH"))], total).cash
  {
    var retagged := rows[k := rows[k].(tender := Some("CASH"))];
    SumsWithout(rows, k);
    SumsWithout(retagged, k);
    assert retagged[..k] + retagged[k + 1..] == rows[..k] + rows[k + 1..];
    var row, cashRow := rows[k], retagged[k];
    assert IsCash(cashRow);
    assert CashSum([row]) <= CashSum([cashRow]);
    assert CashSum([row]) + ClearingSum([row]) == CashSum([cashRow]) + ClearingSum([cashRow]);
    var cash, clearing := WholeSums(rows);
    var cash', clearing' := WholeSums(retagged);
    SplitIsShare(cash, clearing, total);
    SplitIsShare(cash', clearing', total);
    if cash + clearing > 0 {
      ShareMonotone(cash, cash', Round2(total), cash + clearing);
    }
  }

  function SplitRows(split: TenderSplit): seq<TenderRow> {
    [TenderRow(Some("CASH"), Some(split.cash as real)), TenderRow(None, Some(split.clearing as real))]
  }

  lemma SplitRowSums(split: TenderSplit)
    ensures CashSum(SplitRows(split)) == split.cash as real && ClearingSum(SplitRows(split)) == split.clearing as real
  {
    var a, b := SplitRows(split)[0], SplitRows(split)[1];
    assert IsCash(a) && !IsCash(b);
    TwoRowSums(a, b);
  }

  /** The sums of a cash row and another row. */
  lemma TwoRowSums(a: TenderRow, b: TenderRow)
    requires IsCash(a) && !IsCash(b)
    ensures CashSum([a, b]) == RowAmount(a) && ClearingSum([a, b]) == RowAmount(b)
  {
    assert [a, b][1..] == [b] && [b][1..] == [];
    assert CashSum([]) == 0.0 && ClearingSum([]) == 0.0;
    assert CashSum([b]) == 0.0 + CashSum([b][1..]) && ClearingSum([b]) == RowAmount(b) + ClearingSum([b][1..]);
    assert CashSum([a, b]) == RowAmount(a) + CashSum([a, b][1..]);
    assert ClearingSum([a, b]) == 0.0 + ClearingSum([a, b][1..]);
  }

  lemma StableSums(split: TenderSplit, total: real)
    requires split.cash + split.clearing == Round2(total) >= 0
    requires Round2(total) == 0 ==> split == TenderSplit(0, 0)
    ensures SplitSums(split.cash as real, split.clearing as real, total) == split
  {
  }

  /** Splitting a split again, against the same total, gives it back. */
  lemma SplittingAgainIsStable(rows: seq<TenderRow>, total: real)
    requires WholeRows(rows) && NonNegativeRows(rows) && Round2(total) >= 0
    ensures Split(SplitRows(Split(rows, total)), total) == Split(rows, total)
  {
    var split, settled := Split(rows, total), Round2(total);
    var cash, clearing := WholeSums(rows);
    SplitIsShare(cash, clearing, total);
    ConservesTotal(rows, total);
    SplitRowSums(split);
    if settled == 0 && cash + clearing > 0 {
      ShareBounds(cash, clearing, 0);
    }
    StableSums(split, total);
  }

  // ----- Which tenders are cash -----

  /** A row counts as cash exactly when its tender, upper-cased, is CASH; a row without a tender does not. */
  lemma IsCashIff(row: TenderRow)
    ensures IsCash(row) <==> row.tender.Some? && ToUpperCase(row.tender.value) == "CASH"
  {
    if row.tender.Some? {
      var upper := ToUpperCase(row.tender.value);
      assert upper == "CASH" <==>
        |upper| == 4 && upper[0] == 'C' && upper[1] == 'A' && upper[2] == 'S' && upper[3] == 'H';
    }
  }

  /** The spellings of CASH: either case of each letter, and the long s. */
  lemma CashSpellings(row: TenderRow)
    ensures IsCash(row) <==>
            && row.tender.Some? && |row.tender.value| == 4
            && row.tender.value[0] in {'c', 'C'} && row.tender.value[1] in {'a', 'A'}
            && row.tender.value[2] in {'s', 'S', '\U{017F}'} && row.tender.value[3] in {'h', 'H'}
  {
  }

  ghost predicate NamedCash(row: TenderRow) {
    row.tender.Some? && ToUpperCase(row.tender.value) == "CASH"
  }

  /** The amounts of whole-cent rows, as submitted, added up. */
  function Submitted(rows: seq<TenderRow>): int {
    if rows == [] then 0
    else (if rows[0].amount.Some? then rows[0].amount.value.Floor else 0) + Submitted(rows[1..])
  }

  lemma {:induction false} SumsOfNamed(rows: seq<TenderRow>)
    requires WholeRows(rows)
    ensures CashSum(rows) + ClearingSum(rows) == Submitted(rows) as real
    ensures (forall k :: 0 <= k < |rows| ==> NamedCash(rows[k])) ==> ClearingSum(rows) == 0.0
    ensures (forall k :: 0 <= k < |rows| ==> !NamedCash(rows[k])) ==> CashSum(rows) == 0.0
  {
    if rows != [] {
      SumsOfNamed(rows[1..]);
      IsCashIff(rows[0]);
      assert WholeCents(RowAmount(rows[0]));
      assert forall k :: 0 <= k < |rows| - 1 ==> rows[1..][k] == rows[k + 1];
    }
  }

  /** Tenders none of which is named cash, with something tendered: all of it goes to clearing. */
  lemma OtherTendersAreClearing(rows: seq<TenderRow>, total: real)
    requires WholeRows(rows) && Submitted(rows) > 0 && forall k :: 0 <= k < |rows| ==> !NamedCash(rows[k])
    ensures Split(rows, total) == TenderSplit(0, Round2(total))
  {
    SumsOfNamed(rows);
    var cash, clearing := WholeSums(rows);
    SplitIsShare(cash, clearing, total);
    ShareEnds(Round2(total), clearing);
  }

  /** Tenders all named cash, or none tendered: all of it is cash. */
  lemma CashTendersAreCash(rows: seq<TenderRow>, total: real)
    requires WholeRows(rows)
    requires Submitted(rows) <= 0 || forall k :: 0 <= k < |rows| ==> NamedCash(rows[k])
    ensures Split(rows, total) == TenderSplit(Round2(total), 0)
  {
    SumsOfNamed(rows);
    var cash, clearing := WholeSums(rows);
    SplitIsShare(cash, clearing, total);
    if cash + clearing > 0 {
      ShareEnds(Round2(total), cash);
    }
  }

  lemma {:induction false} SplitOfExact(rows: seq<TenderRow>)
    requires WholeRows(rows) && NonNegativeRows(rows)
    ensures var split := Split(rows, Submitted(rows) as real);
            split.cash as real == CashSum(rows) && split.clearing as real == ClearingSum(rows)
  {
    SumsOfNamed(rows);
    SumsAreNonNegative(rows);
    var cash, clearing := WholeSums(rows);
    RoundCents(cash);
    RoundCents(clearing);
    RoundCents(cash + clearing);
  }

  lemma SumsWithRow(rows: seq<TenderRow>, tender: Option<string>, cents: nat)
    requires WholeRows(rows) && NonNegativeRows(rows)
    ensures var row := TenderRow(tender, Some(cents as real));
            && WholeRows(rows + [row]) && NonNegativeRows(rows + [row])
            && Submitted(rows + [row]) == Submitted(rows) + cents
            && CashSum(rows + [row]) == CashSum(rows) + (if NamedCash(row) then cents as real else 0.0)
            && ClearingSum(rows + [row]) == ClearingSum(rows) + (if NamedCash(row) then 0.0 else cents as real)
  {
    var row := TenderRow(tender, Some(cents as real));
    RoundCents(cents);
    IsCashIff(row);
    assert [row][1..] == [];
    SumsAppendRows(rows, [row]);
    SumsOfNamed(rows);
    SumsOfNamed(rows + [row]);
  }

  /** Where the tenders are the total, a further row raises its own part, by its own amount, and no other. */
  lemma RowRaisesItsPart(rows: seq<TenderRow>, tender: Option<string>, cents: nat)
    requires WholeRows(rows) && NonNegativeRows(rows)
    ensures var row := TenderRow(tender, Some(cents as real));
            var before := Split(rows, Submitted(rows) as real);
            var after := Split(rows + [row], (Submitted(rows) + cents) as real);
            after == if NamedCash(row) then TenderSplit(before.cash + cents, before.clearing)
                     else TenderSplit(before.cash, before.clearing + cents)
  {
    SumsWithRow(rows, tender, cents);
    SplitOfExact(rows);
    SplitOfExact(rows + [TenderRow(tender, Some(cents as real))]);
  }
}
