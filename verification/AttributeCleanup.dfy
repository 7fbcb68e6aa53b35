/**
 Removing vehicle attributes from non-vehicle products: a keyset-paginated scan that updates the product
 table as it goes. `Cleaned` and the counts are the one-pass specification it refines.
 The category test is a parameter, `likeVehicle`: nothing here depends on its pattern.
 */
module AttributeCleanup {
  import opened Outcomes

  datatype CategoryText = CategoryText(slug: string, name: string, parentSlug: string, parentName: string)

  /** `live` says that deletedAt is null. Attribute values are kept as text. */
  datatype Product = Product(id: nat, live: bool, attributes: Option<map<string, string>>, category: CategoryText)

  const VEHICLE_KEYS: seq<string> := [
    "make", "model", "year", "mileage", "transmission", "fuelType", "fuel_type",
    "vehicleType", "vehicle_type", "engineCapacity", "engine_capacity"]

  /** What a run is told: the keys to remove, and which category texts look like vehicles. */
  datatype Rules = Rules(keys: seq<string>, likeVehicle: string -> bool) {
    predicate VehicleCategory(category: CategoryText) {
      likeVehicle(category.slug) || likeVehicle(category.name)
      || likeVehicle(category.parentSlug) || likeVehicle(category.parentName)
    }

    predicate HasKeys(attributes: map<string, string>) {
      exists key :: key in keys && key in attributes
    }

    /** A product the cleanup changes. */
    predicate Candidate(p: Product) {
      p.live && p.attributes.Some? && HasKeys(p.attributes.value) && !VehicleCategory(p.category)
    }

    function WithoutKeys(attributes: map<string, string>): map<string, string> {
      map key | key in attributes && key !in keys :: attributes[key]
    }

    function Stripped(p: Product, attributes: map<string, string>): Product {
      p.(attributes := Some(WithoutKeys(attributes)))
    }

    function Clean(p: Product): Product {
      if Candidate(p) then Stripped(p, p.attributes.value) else p
    }
  }

  // ----- The one-pass specification -----

  function LiveCount(rows: seq<Product>): nat {
    if rows == [] then 0 else (if rows[0].live then 1 else 0) + LiveCount(rows[1..])
  }

  function CandidateCount(rules: Rules, rows: seq<Product>): nat {
    if rows == [] then 0 else (if rules.Candidate(rows[0]) then 1 else 0) + CandidateCount(rules, rows[1..])
  }

  /** The candidates that lose `key`. */
  function KeyCount(rules: Rules, rows: seq<Product>, key: string): nat {
    if rows == [] then 0
    else (if rules.Candidate(rows[0]) && key in rules.keys && key in rows[0].attributes.value then 1 else 0)
         + KeyCount(rules, rows[1..], key)
  }

  /** The table with its first `n` rows cleaned. */
  function Cleaned(rules: Rules, rows: seq<Product>, n: nat): (cleaned: seq<Product>)
    ensures |cleaned| == |rows|
  {
    seq(|rows|, k requires 0 <= k < |rows| => if k < n then rules.Clean(rows[k]) else rows[k])
  }

  /** The shortest prefix that holds `n` live rows, or the whole table. */
  function Reach(rows: seq<Product>, n: nat): (reach: nat)
    ensures reach <= |rows|
  {
    if rows == [] || n == 0 then 0
    else 1 + Reach(rows[1..], if rows[0].live then n - 1 else n)
  }

  predicate Limited(limit: Option<nat>) {
    limit.Some? && limit.value != 0
  }

  /** How many rows of the table, in id order, a run gets to. */
  function ScopeEnd(rows: seq<Product>, limit: Option<nat>): (end: nat)
    ensures end <= |rows|
  {
    if Limited(limit) then Reach(rows, limit.value) else |rows|
  }

  /** The rows a run counts as scanned: with a limit, the row that stops it is counted too. */
  function ScannedCount(rows: seq<Product>, limit: Option<nat>): (scanned: nat)
    ensures scanned <= LiveCount(rows) && (Limited(limit) ==> scanned <= limit.value + 1)
    ensures scanned == LiveCount(rows) || (Limited(limit) && scanned == limit.value + 1)
  {
    if Limited(limit) && limit.value < LiveCount(rows) then limit.value + 1 else LiveCount(rows)
  }

  datatype Report = Report(scanned: nat, candidateCount: nat, updatedCount: nat, keyRemovalCount: map<string, nat>)

  function Times(counts: map<string, nat>, key: string): nat {
    if key in counts then counts[key] else 0
  }

  // ----- The product table -----

  ghost predicate SortedById(rows: seq<Product>) {
    && (forall k :: 0 <= k < |rows| ==> rows[k].id >= 1)
    && (forall j, k :: 0 <= j < k < |rows| ==> rows[j].id < rows[k].id)
  }

  /** The live rows beyond the cursor, in id order. */
  function LiveAfter(rows: seq<Product>, cursor: nat): seq<Product> {
    if rows == [] then []
    else if rows[0].live && rows[0].id > cursor then [rows[0]] + LiveAfter(rows[1..], cursor)
    else LiveAfter(rows[1..], cursor)
  }

  function Live(rows: seq<Product>): (live: seq<Product>)
    ensures |live| == LiveCount(rows)
  {
    if rows == [] then []
    else if rows[0].live then [rows[0]] + Live(rows[1..])
    else Live(rows[1..])
  }

  /** The table, in primary-key order. */
  class ProductTable {
    var rows: seq<Product>

    constructor (rows: seq<Product>)
      ensures this.rows == rows
    {
      this.rows := rows;
    }

    /** `where id > cursor and deletedAt is null order by id take batchSize`. */
    method Page(cursor: nat, batchSize: nat) returns (page: seq<Product>)
      ensures var after := LiveAfter(rows, cursor);
              page == if |after| <= batchSize then after else after[..batchSize]
    {
      var after := LiveAfter(rows, cursor);
      page := if |after| <= batchSize then after else after[..batchSize];
    }

    method Update(id: nat, attributes: map<string, string>, ghost at: nat)
      requires SortedById(rows) && at < |rows| && rows[at].id == id
      modifies this
      ensures rows == old(rows)[at := old(rows)[at].(attributes := Some(attributes))]
    {
      var k := 0;
      while rows[k].id != id
        invariant 0 <= k <= at && rows == old(rows)
        decreases at - k
      {
        k := k + 1;
      }
      rows := rows[k := rows[k].(attributes := Some(attributes))];
    }
  }

  // ----- removeVehicleKeys -----

  /** The keys found, in the order of the list; a key is deleted when found, so none is found twice. */
  function Found(keys: seq<string>, attributes: map<string, string>): seq<string> {
    if keys == [] then []
    else if keys[0] in attributes then [keys[0]] + Found(keys[1..], attributes - {keys[0]})
    else Found(keys[1..], attributes)
  }

  lemma {:induction false} FoundIsExact(keys: seq<string>, attributes: map<string, string>)
    ensures forall key :: key in Found(keys, attributes) <==> key in keys && key in attributes
    ensures forall i, j :: 0 <= i < j < |Found(keys, attributes)| ==>
              Found(keys, attributes)[i] != Found(keys, attributes)[j]
  {
    if keys != [] {
      var rest := if keys[0] in attributes then attributes - {keys[0]} else attributes;
      FoundIsExact(keys[1..], rest);
      assert forall key :: key in keys <==> key == keys[0] || key in keys[1..];
      assert forall key :: key in rest <==> key in attributes && (keys[0] in attributes ==> key != keys[0]);
      if keys[0] in attributes {
        var later := Found(keys[1..], rest);
        assert Found(keys, attributes) == [keys[0]] + later;
        assert forall key :: key in later ==> key in rest;
        assert forall i :: 0 <= i < |later| ==> later[i] in later;
      }
    }
  }

  method RemoveVehicleKeys(rules: Rules, attributes: map<string, string>)
    returns (updated: map<string, string>, removed: seq<string>)
    ensures updated == rules.WithoutKeys(attributes)
    ensures removed == Found(rules.keys, attributes)
  {
    updated, removed := attributes, [];
    for i := 0 to |rules.keys|
      invariant updated == map key | key in attributes && key !in rules.keys[..i] :: attributes[key]
      invariant Found(rules.keys, attributes) == removed + Found(rules.keys[i..], updated)
    {
      var key := rules.keys[i];
      assert rules.keys[i..][1..] == rules.keys[i + 1..];
      assert forall other :: other in rules.keys[..i + 1] <==> other in rules.keys[..i] || other == key;
      if key in updated {
        assert removed + ([key] + Found(rules.keys[i + 1..], updated - {key}))
            == removed + [key] + Found(rules.keys[i + 1..], updated - {key});
        updated := updated - {key};
        removed := removed + [key];
      }
    }
    assert rules.keys[..|rules.keys|] == rules.keys;
  }

  /** `for key of removedKeys: count[key] = (count[key] || 0) + 1`. */
  method CountRemoved(counts: map<string, nat>, removed: seq<string>) returns (next: map<string, nat>)
    requires forall i, j :: 0 <= i < j < |removed| ==> removed[i] != removed[j]
    requires forall key :: key in counts ==> counts[key] > 0
    ensures forall key :: Times(next, key) == Times(counts, key) + if key in removed then 1 else 0
    ensures forall key :: key in next ==> next[key] > 0
  {
    next := counts;
    for i := 0 to |removed|
      invariant forall key :: Times(next, key) == Times(counts, key) + if key in removed[..i] then 1 else 0
      invariant forall key :: key in next ==> next[key] > 0
    {
      var key := removed[i];
      assert key !in removed[..i];
      assert forall other :: other in removed[..i + 1] <==> other in removed[..i] || other == key;
      next := next[key := Times(next, key) + 1];
    }
    assert removed[..|removed|] == removed;
  }

  // ----- Counting along the table -----

  lemma {:induction false} CountsAppend(rules: Rules, a: seq<Product>, b: seq<Product>, key: string)
    ensures LiveCount(a + b) == LiveCount(a) + LiveCount(b)
    ensures CandidateCount(rules, a + b) == CandidateCount(rules, a) + CandidateCount(rules, b)
    ensures KeyCount(rules, a + b, key) == KeyCount(rules, a, key) + KeyCount(rules, b, key)
  {
    if a == [] {
      assert a + b == b;
    } else {
      assert (a + b)[1..] == a[1..] + b;
      CountsAppend(rules, a[1..], b, key);
    }
  }

  lemma {:induction false} DeadRowsCountNothing(rules: Rules, rows: seq<Product>, key: string)
    ensures LiveCount(rows) == 0 <==> forall k :: 0 <= k < |rows| ==> !rows[k].live
    ensures LiveCount(rows) == 0 ==> CandidateCount(rules, rows) == 0 && KeyCount(rules, rows, key) == 0
  {
    if rows != [] {
      DeadRowsCountNothing(rules, rows[1..], key);
      assert forall k :: 1 <= k < |rows| ==> rows[k] == rows[1..][k - 1];
    }
  }

  /** Two prefixes with the same live rows are the same scope. */
  lemma SameScope(rules: Rules, rows: seq<Product>, a: nat, b: nat, key: string)
    requires a <= |rows| && b <= |rows| && LiveCount(rows[..a]) == LiveCount(rows[..b])
    ensures Cleaned(rules, rows, a) == Cleaned(rules, rows, b)
    ensures CandidateCount(rules, rows[..a]) == CandidateCount(rules, rows[..b])
    ensures KeyCount(rules, rows[..a], key) == KeyCount(rules, rows[..b], key)
  {
    var low, high := if a <= b then a else b, if a <= b then b else a;
    assert rows[..high] == rows[..low] + rows[low..high];
    CountsAppend(rules, rows[..low], rows[low..high], key);
    DeadRowsCountNothing(rules, rows[low..high], key);
    forall k | low <= k < high
      ensures !rows[k].live
    {
      assert rows[low..high][k - low] == rows[k];
    }
  }

  lemma {:induction false} ReachCounts(rows: seq<Product>, n: nat)
    ensures LiveCount(rows[..Reach(rows, n)]) == if n <= LiveCount(rows) then n else LiveCount(rows)
  {
    if rows != [] && n > 0 {
      var m := if rows[0].live then n - 1 else n;
      ReachCounts(rows[1..], m);
      assert rows[..Reach(rows, n)] == [rows[0]] + rows[1..][..Reach(rows[1..], m)];
      assert ([rows[0]] + rows[1..][..Reach(rows[1..], m)])[1..] == rows[1..][..Reach(rows[1..], m)];
    }
  }

  /** The next live row at or after `at`: the rows before it are dead. */
  lemma {:induction false} NextLive(rows: seq<Product>, at: nat) returns (q: nat)
    requires at <= |rows| && Live(rows[at..]) != []
    ensures at <= q < |rows| && rows[q].live && (forall k :: at <= k < q ==> !rows[k].live)
    ensures Live(rows[at..]) == [rows[q]] + Live(rows[q + 1..])
    decreases |rows| - at
  {
    assert rows[at..][1..] == rows[at + 1..];
    if rows[at].live {
      return at;
    }
    q := NextLive(rows, at + 1);
  }

  lemma {:induction false} LiveBeyond(rows: seq<Product>, cursor: nat, at: nat)
    requires at <= |rows|
    requires forall k :: 0 <= k < at ==> rows[k].id <= cursor
    requires forall k :: at <= k < |rows| ==> rows[k].id > cursor
    ensures LiveAfter(rows, cursor) == Live(rows[at..])
  {
    if rows != [] {
      if at > 0 {
        LiveBeyond(rows[1..], cursor, at - 1);
        assert rows[1..][at - 1..] == rows[at..];
      } else {
        LiveBeyond(rows[1..], cursor, 0);
        assert rows[0..][1..] == rows[1..] && rows[1..][0..] == rows[1..];
      }
    }
  }

  // ----- The scan -----

  /** The report counts exactly `rows`. */
  ghost predicate Counted(rules: Rules, rows: seq<Product>, execute: bool, report: Report) {
    && report.scanned == LiveCount(rows)
    && report.candidateCount == CandidateCount(rules, rows)
    && report.updatedCount == (if execute then report.candidateCount else 0)
    && (forall key :: Times(report.keyRemovalCount, key) == KeyCount(rules, rows, key))
    && (forall key :: key in report.keyRemovalCount ==> report.keyRemovalCount[key] > 0)
  }

  /** The first `at` rows are done and counted. */
  ghost predicate Done(
    rules: Rules, rows0: seq<Product>, execute: bool, at: nat, report: Report, rows: seq<Product>)
  {
    && at <= |rows0|
    && rows == (if execute then Cleaned(rules, rows0, at) else rows0)
    && Counted(rules, rows0[..at], execute, report)
  }

  /** Where a run stands: the first `at` rows are behind it. */
  ghost predicate Progress(
    rules: Rules, rows0: seq<Product>, execute: bool, at: nat, cursor: nat, report: Report, rows: seq<Product>)
  {
    && Done(rules, rows0, execute, at, report, rows)
    && (forall k :: 0 <= k < at ==> rows0[k].id <= cursor)
    && (forall k :: at <= k < |rows0| ==> rows0[k].id > cursor)
  }

  lemma PageIsNextLive(
    rules: Rules, rows0: seq<Product>, execute: bool, at: nat, cursor: nat, report: Report, rows: seq<Product>)
    requires Progress(rules, rows0, execute, at, cursor, report, rows)
    ensures LiveAfter(rows, cursor) == Live(rows0[at..])
  {
    LiveBeyond(rows, cursor, at);
    assert rows[at..] == rows0[at..];
  }

  lemma StepCounts(rules: Rules, rows: seq<Product>, at: nat, q: nat, key: string)
    requires at <= q < |rows| && rows[q].live && forall k :: at <= k < q ==> !rows[k].live
    ensures LiveCount(rows[..q + 1]) == LiveCount(rows[..at]) + 1
    ensures CandidateCount(rules, rows[..q + 1])
            == CandidateCount(rules, rows[..at]) + if rules.Candidate(rows[q]) then 1 else 0
    ensures KeyCount(rules, rows[..q + 1], key)
            == KeyCount(rules, rows[..at], key)
               + if rules.Candidate(rows[q]) && key in rules.keys && key in rows[q].attributes.value then 1 else 0
  {
    assert rows[..q + 1] == rows[..at] + (rows[at..q] + [rows[q]]);
    CountsAppend(rules, rows[..at], rows[at..q] + [rows[q]], key);
    CountsAppend(rules, rows[at..q], [rows[q]], key);
    DeadRowsCountNothing(rules, rows[at..q], key);
    assert [rows[q]][1..] == [];
  }

  /** `next` counts the live product `p` on top of what `report` counts. */
  ghost predicate CountsOneMore(rules: Rules, p: Product, execute: bool, report: Report, next: Report) {
    && next.scanned == report.scanned + 1
    && if rules.Candidate(p) then
         && next.candidateCount == report.candidateCount + 1
         && next.updatedCount == report.updatedCount + (if execute then 1 else 0)
         && (forall key :: Times(next.keyRemovalCount, key) == Times(report.keyRemovalCount, key)
                           + if key in Found(rules.keys, p.attributes.value) then 1 else 0)
         && (forall key :: key in next.keyRemovalCount ==> next.keyRemovalCount[key] > 0)
       else
         next == report.(scanned := next.scanned)
  }

  /** Visiting the next live row as the source does keeps the run in step with the specification. */
  lemma Advance(
    rules: Rules, rows0: seq<Product>, execute: bool, at: nat, cursor: nat, report: Report, rows: seq<Product>,
    q: nat, next: Report, nextRows: seq<Product>)
    requires SortedById(rows0) && Progress(rules, rows0, execute, at, cursor, report, rows)
    requires at <= q < |rows0| && rows0[q].live && forall k :: at <= k < q ==> !rows0[k].live
    requires CountsOneMore(rules, rows0[q], execute, report, next)
    requires nextRows == if execute && rules.Candidate(rows0[q])
                         then rows[q := rules.Stripped(rows[q], rows0[q].attributes.value)] else rows
    ensures Progress(rules, rows0, execute, q + 1, rows0[q].id, next, nextRows)
  {
    AdvanceCounts(rules, rows0, execute, at, report, q, next);
    if execute {
      CleanedStep(rules, rows0, at, q);
    }
  }

  lemma AdvanceCounts(
    rules: Rules, rows: seq<Product>, execute: bool, at: nat, report: Report, q: nat, next: Report)
    requires at <= q < |rows| && rows[q].live && forall k :: at <= k < q ==> !rows[k].live
    requires Counted(rules, rows[..at], execute, report) && CountsOneMore(rules, rows[q], execute, report, next)
    ensures Counted(rules, rows[..q + 1], execute, next)
  {
    StepCounts(rules, rows, at, q, "");
    forall key
      ensures Times(next.keyRemovalCount, key) == KeyCount(rules, rows[..q + 1], key)
    {
      StepCounts(rules, rows, at, q, key);
      if rules.Candidate(rows[q]) {
        FoundIsExact(rules.keys, rows[q].attributes.value);
      }
    }
  }

  /** Cleaning one live row more; the rows between are not live and stay as they are. */
  lemma CleanedStep(rules: Rules, rows: seq<Product>, at: nat, q: nat)
    requires at <= q < |rows| && forall k :: at <= k < q ==> !rows[k].live
    ensures Cleaned(rules, rows, q + 1) == Cleaned(rules, rows, at)[q := rules.Clean(rows[q])]
  {
  }

  lemma RowsStaySorted(
    rules: Rules, rows0: seq<Product>, execute: bool, at: nat, cursor: nat, report: Report, rows: seq<Product>)
    requires SortedById(rows0) && Progress(rules, rows0, execute, at, cursor, report, rows)
    ensures SortedById(rows) && |rows| == |rows0| && forall k :: at <= k < |rows| ==> rows[k] == rows0[k]
  {
  }

  /** Removes the keys of a candidate, counts them, and writes the row when the run is not a dry one. */
  method CleanUp(
    table: ProductTable, rules: Rules, execute: bool, product: Product, counted: Report, ghost q: nat)
    returns (report: Report)
    requires SortedById(table.rows) && q < |table.rows| && table.rows[q].id == product.id && product.attributes.Some?
    requires forall key :: key in counted.keyRemovalCount ==> counted.keyRemovalCount[key] > 0
    modifies table
    ensures report.scanned == counted.scanned && report.candidateCount == counted.candidateCount + 1
    ensures report.updatedCount == counted.updatedCount + if execute then 1 else 0
    ensures forall key :: Times(report.keyRemovalCount, key) == Times(counted.keyRemovalCount, key)
                          + if key in Found(rules.keys, product.attributes.value) then 1 else 0
    ensures forall key :: key in report.keyRemovalCount ==> report.keyRemovalCount[key] > 0
    ensures var rows := old(table.rows);
            table.rows == if execute then rows[q := rules.Stripped(rows[q], product.attributes.value)] else rows
  {
    FoundIsExact(rules.keys, product.attributes.value);
    var updated, removed := RemoveVehicleKeys(rules, product.attributes.value);
    var counts := CountRemoved(counted.keyRemovalCount, removed);
    report := counted.(candidateCount := counted.candidateCount + 1, keyRemovalCount := counts);
    if execute {
      table.Update(product.id, updated, q);
      report := report.(updatedCount := report.updatedCount + 1);
    }
  }

  /** The loop body for one product that is within the limit. */
  method Visit(
    table: ProductTable, rules: Rules, execute: bool, product: Product, counted: Report,
    ghost rows0: seq<Product>, ghost at: nat, ghost cursor: nat, ghost before: Report)
    returns (report: Report, ghost next: nat)
    requires SortedById(rows0) && Progress(rules, rows0, execute, at, cursor, before, table.rows)
    requires Live(rows0[at..]) != [] && Live(rows0[at..])[0] == product
    requires counted == before.(scanned := before.scanned + 1)
    modifies table
    ensures at < next <= |rows0| && Progress(rules, rows0, execute, next, product.id, report, table.rows)
    ensures report.scanned == counted.scanned && Live(rows0[at..])[1..] == Live(rows0[next..])
  {
    ghost var rowsBefore := table.rows;
    ghost var q := NextLive(rows0, at);
    next := q + 1;
    RowsStaySorted(rules, rows0, execute, at, cursor, before, table.rows);
    report := counted;
    if product.attributes.Some? {
      if rules.HasKeys(product.attributes.value) && !rules.VehicleCategory(product.category) {
        report := CleanUp(table, rules, execute, product, counted, q);
      }
    }
    Advance(rules, rows0, execute, at, cursor, before, rowsBefore, q, report, table.rows);
  }

  /** From its j-th product on, the page lists the live rows that are next. */
  ghost predicate Ahead(page: seq<Product>, j: nat, rows: seq<Product>, at: nat) {
    j <= |page| && at <= |rows| && page[j..] <= Live(rows[at..])
  }

  /** The loop over one page. When the limit stops it, one row more is counted than is behind it. */
  method ScanPage(
    table: ProductTable, rules: Rules, execute: bool, limit: Option<nat>, page: seq<Product>, from: nat,
    counted: Report, ghost rows0: seq<Product>, ghost start: nat)
    returns (report: Report, cursor: nat, stopped: bool, ghost at: nat)
    requires SortedById(rows0) && Progress(rules, rows0, execute, start, from, counted, table.rows)
    requires page != [] && Ahead(page, 0, rows0, start)
    requires Limited(limit) ==> counted.scanned <= limit.value
    modifies table
    ensures !stopped ==> start < at && Progress(rules, rows0, execute, at, cursor, report, table.rows)
    ensures !stopped && Limited(limit) ==> report.scanned <= limit.value
    ensures stopped ==>
              && Limited(limit) && report.scanned == limit.value + 1
              && Done(rules, rows0, execute, at, report.(scanned := limit.value), table.rows)
              && at < |rows0| && Live(rows0[at..]) != []
  {
    at, report, cursor := start, counted, from;
    for j := 0 to |page|
      invariant start + j <= at
      invariant Progress(rules, rows0, execute, at, cursor, report, table.rows)
      invariant Limited(limit) ==> report.scanned <= limit.value
      invariant Ahead(page, j, rows0, at)
    {
      var product := page[j];
      PageHead(page, j, rows0, at);
      ghost var behind, last, visited := report, cursor, at;
      report := report.(scanned := report.scanned + 1);
      cursor := product.id;
      if Limited(limit) && report.scanned > limit.value {
        assert report.(scanned := limit.value) == behind;
        return report, cursor, true, at;
      }
      report, at := Visit(table, rules, execute, product, report, rows0, at, last, behind);
      PageTail(page, j, rows0, visited, at);
    }
    stopped := false;
  }

  lemma PageHead(page: seq<Product>, j: nat, rows: seq<Product>, at: nat)
    requires j < |page| && Ahead(page, j, rows, at)
    ensures Live(rows[at..]) != [] && page[j] == Live(rows[at..])[0]
  {
  }

  lemma PageTail(page: seq<Product>, j: nat, rows: seq<Product>, at: nat, next: nat)
    requires j < |page| && Ahead(page, j, rows, at) && at <= next <= |rows|
    requires Live(rows[at..])[1..] == Live(rows[next..])
    ensures Ahead(page, j + 1, rows, next)
  {
  }

  method Run(table: ProductTable, rules: Rules, execute: bool, batchSize: nat, limit: Option<nat>)
    returns (report: Report)
    requires SortedById(table.rows) && batchSize >= 1
    modifies table
    ensures var rows, end := old(table.rows), ScopeEnd(old(table.rows), limit);
            && table.rows == (if execute then Cleaned(rules, rows, end) else rows)
            && report.scanned == ScannedCount(rows, limit)
            && report.candidateCount == CandidateCount(rules, rows[..end])
            && report.updatedCount == (if execute then report.candidateCount else 0)
            && (forall key :: Times(report.keyRemovalCount, key) == KeyCount(rules, rows[..end], key))
  {
    ghost var rows0, at := table.rows, 0;
    var cursor := 0;
    report := Report(0, 0, 0, map[]);
    while true
      invariant Progress(rules, rows0, execute, at, cursor, report, table.rows)
      invariant Limited(limit) ==> report.scanned <= limit.value
      decreases |rows0| - at
    {
      PageIsNextLive(rules, rows0, execute, at, cursor, report, table.rows);
      var page := table.Page(cursor, batchSize);
      if |page| == 0 {
        break;
      }
      var stopped;
      report, cursor, stopped, at := ScanPage(table, rules, execute, limit, page, cursor, report, rows0, at);
      if stopped {
        LimitReached(rules, rows0, at, limit.value);
        return;
      }
    }
    ScanComplete(rules, rows0, at, limit);
  }

  /** The script: the vehicle keys, an execute or dry run, a batch size of at least one, an optional limit. */
  method CleanupNonVehicleAttributes(
    table: ProductTable, likeVehicle: string -> bool, execute: bool, batchSize: nat, limit: Option<nat>)
    returns (report: Report)
    requires SortedById(table.rows) && batchSize >= 1
    modifies table
    ensures var rules, rows, end := Rules(VEHICLE_KEYS, likeVehicle), old(table.rows), ScopeEnd(old(table.rows), limit);
            && table.rows == (if execute then Cleaned(rules, rows, end) else rows)
            && report.scanned == ScannedCount(rows, limit)
            && report.candidateCount == CandidateCount(rules, rows[..end])
            && report.updatedCount == (if execute then report.candidateCount else 0)
            && (forall key :: Times(report.keyRemovalCount, key) == KeyCount(rules, rows[..end], key))
  {
    report := Run(table, Rules(VEHICLE_KEYS, likeVehicle), execute, batchSize, limit);
  }

  /** Two live products and a limit of one: two are reported as scanned. */
  method LimitOfOneScansTwo(likeVehicle: string -> bool, batchSize: nat) returns (report: Report)
    requires batchSize >= 1
    ensures report.scanned == 2
  {
    var nowhere := CategoryText("", "", "", "");
    var first, second := Product(1, true, None, nowhere), Product(2, true, None, nowhere);
    var table := new ProductTable([first, second]);
    report := CleanupNonVehicleAttributes(table, likeVehicle, false, batchSize, Some(1));
    assert [first, second][1..] == [second] && [second][1..] == [];
    assert LiveCount([second]) == 1;
  }

  /** Stopping one row beyond the limit: the rows behind are the scope. */
  lemma LimitReached(rules: Rules, rows: seq<Product>, at: nat, limit: nat)
    requires at <= |rows| && Live(rows[at..]) != [] && LiveCount(rows[..at]) == limit
    ensures limit < LiveCount(rows)
    ensures Cleaned(rules, rows, at) == Cleaned(rules, rows, Reach(rows, limit))
    ensures CandidateCount(rules, rows[..at]) == CandidateCount(rules, rows[..Reach(rows, limit)])
    ensures forall key :: KeyCount(rules, rows[..at], key) == KeyCount(rules, rows[..Reach(rows, limit)], key)
  {
    assert rows == rows[..at] + rows[at..];
    CountsAppend(rules, rows[..at], rows[at..], "");
    ReachCounts(rows, limit);
    SameScope(rules, rows, at, Reach(rows, limit), "");
    forall key
      ensures KeyCount(rules, rows[..at], key) == KeyCount(rules, rows[..Reach(rows, limit)], key)
    {
      SameScope(rules, rows, at, Reach(rows, limit), key);
    }
  }

  /** Running out of rows within the limit: the rows behind are the scope too. */
  lemma ScanComplete(rules: Rules, rows: seq<Product>, at: nat, limit: Option<nat>)
    requires at <= |rows| && Live(rows[at..]) == [] && (Limited(limit) ==> LiveCount(rows[..at]) <= limit.value)
    ensures LiveCount(rows[..at]) == LiveCount(rows)
    ensures Cleaned(rules, rows, at) == Cleaned(rules, rows, ScopeEnd(rows, limit))
    ensures CandidateCount(rules, rows[..at]) == CandidateCount(rules, rows[..ScopeEnd(rows, limit)])
    ensures forall key :: KeyCount(rules, rows[..at], key) == KeyCount(rules, rows[..ScopeEnd(rows, limit)], key)
  {
    var end := ScopeEnd(rows, limit);
    assert rows == rows[..at] + rows[at..] && rows[..|rows|] == rows;
    CountsAppend(rules, rows[..at], rows[at..], "");
    if Limited(limit) { ReachCounts(rows, limit.value); }
    SameScope(rules, rows, at, end, "");
    forall key
      ensures KeyCount(rules, rows[..at], key) == KeyCount(rules, rows[..end], key)
    {
      SameScope(rules, rows, at, end, key);
    }
  }

  // ----- What a run promises -----

  function AttributesOf(p: Product): map<string, string> {
    if p.attributes.Some? then p.attributes.value else map[]
  }

  /**
   Cleaning takes exactly the listed keys off exactly the live products none of whose category texts, its own slug and
   name and its parent's, looks like a vehicle; nothing else of a product changes.
   */
  lemma CleanIsExact(rules: Rules, p: Product, key: string)
    ensures var q := rules.Clean(p);
            var vehicle := rules.likeVehicle(p.category.slug) || rules.likeVehicle(p.category.name)
                           || rules.likeVehicle(p.category.parentSlug) || rules.likeVehicle(p.category.parentName);
            && q == p.(attributes := q.attributes) && (q.attributes.Some? <==> p.attributes.Some?)
            && (key in AttributesOf(q) <==> key in AttributesOf(p) && !(key in rules.keys && p.live && !vehicle))
            && (key in AttributesOf(q) ==> AttributesOf(q)[key] == AttributesOf(p)[key])
  {
  }

  lemma CleanIsNoCandidate(rules: Rules, p: Product)
    ensures !rules.Candidate(rules.Clean(p))
  {
  }

  /** Rows of `before` that have the key and whose counterpart in `after` does not. */
  function Removals(before: seq<Product>, after: seq<Product>, key: string): nat
    requires |before| == |after|
  {
    if before == [] then 0
    else (if key in AttributesOf(before[0]) && key !in AttributesOf(after[0]) then 1 else 0)
         + Removals(before[1..], after[1..], key)
  }

  /** The reported count of a key is the number of products that lose it. */
  lemma {:induction false} KeyCountsAreTrueRemovals(rules: Rules, rows: seq<Product>, n: nat, key: string)
    requires n <= |rows|
    ensures KeyCount(rules, rows[..n], key) == Removals(rows, Cleaned(rules, rows, n), key)
  {
    if rows != [] {
      var m := if n == 0 then 0 else n - 1;
      KeyCountsAreTrueRemovals(rules, rows[1..], m, key);
      assert Cleaned(rules, rows, n)[1..] == Cleaned(rules, rows[1..], m);
      if n > 0 {
        assert rows[..n][1..] == rows[1..][..m] && rows[..n][0] == rows[0];
        CleanIsExact(rules, rows[0], key);
      } else {
        assert rows[..n] == [] && rows[1..][..m] == [];
      }
    }
  }

  /** Rows of `before` that are not as they were in `after`. */
  function Changes(before: seq<Product>, after: seq<Product>): nat
    requires |before| == |after|
  {
    if before == [] then 0
    else (if before[0] != after[0] then 1 else 0) + Changes(before[1..], after[1..])
  }

  lemma CandidateIsChanged(rules: Rules, p: Product)
    ensures rules.Candidate(p) <==> rules.Clean(p) != p
  {
    if rules.Candidate(p) {
      var key :| key in rules.keys && key in p.attributes.value;
      assert key !in rules.WithoutKeys(p.attributes.value);
    }
  }

  /** The reported count of candidates is the number of products an execute run changes. */
  lemma {:induction false} CandidatesAreChanges(rules: Rules, rows: seq<Product>, n: nat)
    requires n <= |rows|
    ensures CandidateCount(rules, rows[..n]) == Changes(rows, Cleaned(rules, rows, n))
  {
    if rows != [] {
      var m := if n == 0 then 0 else n - 1;
      CandidatesAreChanges(rules, rows[1..], m);
      assert Cleaned(rules, rows, n)[1..] == Cleaned(rules, rows[1..], m);
      if n > 0 {
        assert rows[..n][1..] == rows[1..][..m] && rows[..n][0] == rows[0];
        CandidateIsChanged(rules, rows[0]);
      } else {
        assert rows[..n] == [] && rows[1..][..m] == [];
      }
    }
  }

  lemma {:induction false} NoCandidates(rules: Rules, rows: seq<Product>)
    requires forall k :: 0 <= k < |rows| ==> !rules.Candidate(rows[k])
    ensures CandidateCount(rules, rows) == 0
  {
    if rows != [] {
      NoCandidates(rules, rows[1..]);
    }
  }

  lemma {:induction false} ReachIgnoresAttributes(rows: seq<Product>, other: seq<Product>, n: nat)
    requires |rows| == |other| && forall k :: 0 <= k < |rows| ==> rows[k].live == other[k].live
    ensures Reach(rows, n) == Reach(other, n)
  {
    if rows != [] && n > 0 {
      ReachIgnoresAttributes(rows[1..], other[1..], if rows[0].live then n - 1 else n);
    }
  }

  /** A second run with the same options finds no candidate and leaves the table as it is. */
  lemma SecondRunFindsNothing(rules: Rules, rows: seq<Product>, limit: Option<nat>)
    ensures var cleaned := Cleaned(rules, rows, ScopeEnd(rows, limit));
            && CandidateCount(rules, cleaned[..ScopeEnd(cleaned, limit)]) == 0
            && Cleaned(rules, cleaned, ScopeEnd(cleaned, limit)) == cleaned
  {
    var end := ScopeEnd(rows, limit);
    var cleaned := Cleaned(rules, rows, end);
    if Limited(limit) {
      ReachIgnoresAttributes(rows, cleaned, limit.value);
    }
    forall k | 0 <= k < end
      ensures !rules.Candidate(cleaned[k])
    {
      CleanIsNoCandidate(rules, rows[k]);
    }
    NoCandidates(rules, cleaned[..end]);
  }

  lemma {:induction false} WithinReach(rows: seq<Product>, n: nat, k: nat)
    requires k < Reach(rows, n)
    ensures LiveCount(rows[..k + 1]) <= n
  {
    var m := if rows[0].live then n - 1 else n;
    assert rows[..k + 1] == [rows[0]] + rows[1..][..k];
    assert ([rows[0]] + rows[1..][..k])[1..] == rows[1..][..k];
    if k > 0 {
      WithinReach(rows[1..], m, k - 1);
    }
  }

  lemma {:induction false} ReachIffWithin(rows: seq<Product>, n: nat, k: nat)
    requires k < |rows| && rows[k].live
    ensures k < Reach(rows, n) <==> LiveCount(rows[..k + 1]) <= n
  {
    if n > 0 && k > 0 {
      ReachIffWithin(rows[1..], if rows[0].live then n - 1 else n, k - 1);
    }
    assert rows[..k + 1] == [rows[0]] + rows[1..][..k];
    assert ([rows[0]] + rows[1..][..k])[1..] == rows[1..][..k];
    LiveIsCounted(rows[..k + 1], k);
  }

  lemma {:induction false} LiveIsCounted(rows: seq<Product>, k: nat)
    requires k < |rows| && rows[k].live
    ensures LiveCount(rows) >= 1
  {
    if k > 0 {
      LiveIsCounted(rows[1..], k - 1);
    }
  }

  /** With a limit, exactly the products to clean among that many first live ones change; without, all of them. */
  lemma LimitBoundsChanges(rules: Rules, rows: seq<Product>, limit: Option<nat>, k: nat)
    requires k < |rows|
    ensures Cleaned(rules, rows, ScopeEnd(rows, limit))[k] != rows[k] <==>
            && rules.Clean(rows[k]) != rows[k]
            && (limit.Some? && limit.value > 0 ==> LiveCount(rows[..k + 1]) <= limit.value)
  {
    if Limited(limit) && rows[k].live {
      ReachIffWithin(rows, limit.value, k);
    }
  }
}
