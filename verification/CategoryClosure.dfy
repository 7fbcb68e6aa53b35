/**
 Rebuilding the category closure table: from every category the loop walks up the parent pointers and emits a
 pair for each category it meets. A parent that is not in the map ends the walk.
 */
module CategoryClosure {
  import opened Outcomes

  datatype Category = Category(id: int, parent: Option<int>)

  datatype ClosureRow = ClosureRow(ancestor: int, descendant: int)

  type CategoryMap = map<int, Category>

  /** Ids are the table's primary key. */
  ghost predicate DistinctIds(categories: seq<Category>) {
    forall i, j :: 0 <= i < j < |categories| ==> categories[i].id != categories[j].id
  }

  /** `new Map(allCategories.map(c => [c.id, c]))`. */
  function MapOf(categories: seq<Category>): (m: CategoryMap)
    ensures m.Keys == set c | c in categories :: c.id
    ensures forall id :: id in m ==> m[id] in categories && m[id].id == id
  {
    if categories == [] then map[]
    else
      var last := |categories| - 1;
      MapOf(categories[..last])[categories[last].id := categories[last]]
  }

  // ----- The parent relation -----

  /** The id of the parent of `id`, if it has one in the map. */
  function Parent(m: CategoryMap, id: int): Option<int>
    requires id in m
  {
    if m[id].parent.Some? && m[id].parent.value in m then Some(m[id].parent.value) else None
  }

  /** `k` steps up from `id`; nothing once the chain has ended. */
  function Up(m: CategoryMap, id: int, k: nat): (r: Option<int>)
    requires id in m
    ensures r.Some? ==> r.value in m
  {
    if k == 0 then Some(id)
    else
      var below := Up(m, id, k - 1);
      if below.None? then None else Parent(m, below.value)
  }

  ghost predicate IsAncestor(m: CategoryMap, a: int, d: int)
    requires d in m
  {
    exists k: nat :: Up(m, d, k) == Some(a)
  }

  /** No category is its own proper ancestor. */
  ghost predicate Acyclic(m: CategoryMap) {
    forall id, k: nat :: id in m && k > 0 ==> Up(m, id, k) != Some(id)
  }

  lemma {:induction false} UpAdds(m: CategoryMap, id: int, j: nat, k: nat)
    requires id in m && Up(m, id, j).Some?
    ensures Up(m, id, j + k) == Up(m, Up(m, id, j).value, k)
  {
    if k > 0 {
      UpAdds(m, id, j, k - 1);
    }
  }

  /** A chain that has reached step k was there at every earlier step. */
  lemma {:induction false} UpWasThere(m: CategoryMap, id: int, j: nat, k: nat)
    requires id in m && j <= k && Up(m, id, k).Some?
    ensures Up(m, id, j).Some?
    decreases k - j
  {
    if j < k {
      UpWasThere(m, id, j, k - 1);
    }
  }

  // ----- Termination: a chain without cycles ends within the number of categories -----

  function Visited(m: CategoryMap, id: int, k: nat): set<int>
    requires id in m
  {
    set j | 0 <= j < k && Up(m, id, j).Some? :: Up(m, id, j).value
  }

  lemma VisitedIsNew(m: CategoryMap, id: int, k: nat)
    requires Acyclic(m) && id in m && Up(m, id, k).Some?
    ensures Up(m, id, k).value !in Visited(m, id, k)
  {
    if Up(m, id, k).value in Visited(m, id, k) {
      var j :| 0 <= j < k && Up(m, id, j).Some? && Up(m, id, j).value == Up(m, id, k).value;
      UpAdds(m, id, j, k - j);
      assert false;
    }
  }

  lemma {:induction false} VisitedGrows(m: CategoryMap, id: int, k: nat)
    requires Acyclic(m) && id in m && (k > 0 ==> Up(m, id, k - 1).Some?)
    ensures |Visited(m, id, k)| == k && Visited(m, id, k) <= m.Keys
  {
    if k > 0 {
      UpWasThere(m, id, if k > 1 then k - 2 else 0, k - 1);
      VisitedGrows(m, id, k - 1);
      VisitedIsNew(m, id, k - 1);
      assert Visited(m, id, k) == Visited(m, id, k - 1) + {Up(m, id, k - 1).value};
    }
  }

  lemma SubsetSize(a: set<int>, b: set<int>)
    requires a <= b
    ensures |a| <= |b|
  {
    assert b == a + (b - a);
  }

  /** A chain still going after k steps has met k + 1 different categories. */
  lemma ChainIsShort(m: CategoryMap, id: int, k: nat)
    requires Acyclic(m) && id in m && Up(m, id, k).Some?
    ensures k < |m|
  {
    VisitedGrows(m, id, k + 1);
    SubsetSize(Visited(m, id, k + 1), m.Keys);
    assert |m.Keys| == |m|;
  }

  ghost predicate Ends(m: CategoryMap, id: int)
    requires id in m
  {
    exists k: nat :: Up(m, id, k) == None
  }

  /** The walks all end exactly when no category is its own ancestor. */
  lemma WalksEndIffAcyclic(m: CategoryMap)
    ensures (forall id :: id in m ==> Ends(m, id)) <==> Acyclic(m)
  {
    if Acyclic(m) {
      forall id | id in m
        ensures Ends(m, id)
      {
        if Up(m, id, |m|).Some? {
          ChainIsShort(m, id, |m|);
        }
        assert Up(m, id, |m|) == None;
      }
    } else {
      var id, k: nat :| id in m && k > 0 && Up(m, id, k) == Some(id);
      forall n: nat
        ensures Up(m, id, n).Some?
      {
        CycleGoesOn(m, id, k, n);
      }
      assert !Ends(m, id);
    }
  }

  lemma {:induction false} CycleGoesOn(m: CategoryMap, id: int, k: nat, n: nat)
    requires id in m && k > 0 && Up(m, id, k) == Some(id)
    ensures Up(m, id, n).Some?
  {
    if n < k {
      UpWasThere(m, id, n, k);
    } else {
      CycleGoesOn(m, id, k, n - k);
      UpAdds(m, id, k, n - k);
    }
  }

  // ----- The rebuild -----

  /** The rows for one category: its chain of ancestors, from itself upwards, `k` of them. */
  function ChainRows(m: CategoryMap, id: int, k: nat): (rows: seq<ClosureRow>)
    requires id in m && (k > 0 ==> Up(m, id, k - 1).Some?)
    ensures |rows| == k
    ensures forall j :: 0 <= j < k ==> Up(m, id, j).Some? && rows[j] == ClosureRow(Up(m, id, j).value, id)
  {
    if k == 0 then []
    else
      assert k > 1 ==> Up(m, id, k - 2).Some?;
      ChainRows(m, id, k - 1) + [ClosureRow(Up(m, id, k - 1).value, id)]
  }

  ghost predicate IsClosure(m: CategoryMap, rows: seq<ClosureRow>) {
    forall a, d :: ClosureRow(a, d) in rows <==> d in m && IsAncestor(m, a, d)
  }

  ghost predicate NoDuplicates(rows: seq<ClosureRow>) {
    forall i, j :: 0 <= i < j < |rows| ==> rows[i] != rows[j]
  }

  /** The rows whose descendant is one of the first `n` categories are all there. */
  ghost predicate DoneUpTo(m: CategoryMap, categories: seq<Category>, n: nat, rows: seq<ClosureRow>)
    requires n <= |categories| && forall i :: 0 <= i < |categories| ==> categories[i].id in m
  {
    && (forall row :: row in rows ==> exists i :: 0 <= i < n && categories[i].id == row.descendant)
    && (forall i, a :: 0 <= i < n ==> (ClosureRow(a, categories[i].id) in rows <==> IsAncestor(m, a, categories[i].id)))
    && NoDuplicates(rows)
  }

  lemma ChainGrows(m: CategoryMap, id: int, k: nat, before: seq<ClosureRow>)
    requires id in m && Up(m, id, k).Some? && (k > 0 ==> Up(m, id, k - 1).Some?)
    ensures before + ChainRows(m, id, k) + [ClosureRow(Up(m, id, k).value, id)] == before + ChainRows(m, id, k + 1)
    ensures Up(m, id, k + 1) == Parent(m, Up(m, id, k).value)
  {
  }

  lemma MapHasAll(categories: seq<Category>)
    ensures forall i :: 0 <= i < |categories| ==> categories[i].id in MapOf(categories)
  {
  }

  method RebuildClosure(categories: seq<Category>) returns (closureInserts: seq<ClosureRow>)
    requires DistinctIds(categories) && Acyclic(MapOf(categories))
    ensures IsClosure(MapOf(categories), closureInserts)
    ensures NoDuplicates(closureInserts)
  {
    closureInserts := [];
    var categoryMap := MapOf(categories);
    MapHasAll(categories);
    for n := 0 to |categories|
      invariant DoneUpTo(categoryMap, categories, n, closureInserts)
    {
      var category := categories[n];
      var current := Some(category.id);
      ghost var k: nat, before := 0, closureInserts;
      while current.Some?
        invariant current == Up(categoryMap, category.id, k)
        invariant k > 0 ==> Up(categoryMap, category.id, k - 1).Some?
        invariant closureInserts == before + ChainRows(categoryMap, category.id, k)
        decreases |categoryMap| - k, current.Some?
      {
        ChainIsShort(categoryMap, category.id, k);
        ChainGrows(categoryMap, category.id, k, before);
        closureInserts := closureInserts + [ClosureRow(current.value, category.id)];
        current := Parent(categoryMap, current.value);
        k := k + 1;
      }
      ChainIsComplete(categoryMap, category.id, k);
      ExtendDone(categoryMap, categories, n, before, k);
    }
    DoneIsClosure(categories, closureInserts);
  }

  lemma DoneIsClosure(categories: seq<Category>, rows: seq<ClosureRow>)
    requires DoneUpTo(MapOf(categories), categories, |categories|, rows)
    ensures IsClosure(MapOf(categories), rows)
  {
  }

  lemma ChainIsComplete(m: CategoryMap, id: int, k: nat)
    requires id in m && Up(m, id, k) == None && (k > 0 ==> Up(m, id, k - 1).Some?)
    ensures forall a :: ClosureRow(a, id) in ChainRows(m, id, k) <==> IsAncestor(m, a, id)
  {
    forall a
      ensures ClosureRow(a, id) in ChainRows(m, id, k) <==> IsAncestor(m, a, id)
    {
      if IsAncestor(m, a, id) {
        var j: nat :| Up(m, id, j) == Some(a);
        if j >= k {
          UpWasThere(m, id, k, j);
        }
        assert ChainRows(m, id, k)[j] == ClosureRow(a, id);
      }
      if ClosureRow(a, id) in ChainRows(m, id, k) {
        var j :| 0 <= j < k && ChainRows(m, id, k)[j] == ClosureRow(a, id);
        assert Up(m, id, j) == Some(a);
      }
    }
  }

  lemma ChainHasNoDuplicates(m: CategoryMap, id: int, k: nat)
    requires Acyclic(m) && id in m && (k > 0 ==> Up(m, id, k - 1).Some?)
    ensures NoDuplicates(ChainRows(m, id, k))
  {
    var rows := ChainRows(m, id, k);
    forall i, j | 0 <= i < j < k
      ensures rows[i] != rows[j]
    {
      VisitedIsNew(m, id, j);
      assert Up(m, id, i).value in Visited(m, id, j);
    }
  }

  lemma ExtendDone(m: CategoryMap, categories: seq<Category>, n: nat, before: seq<ClosureRow>, k: nat)
    requires DistinctIds(categories) && Acyclic(m) && n < |categories|
    requires forall i :: 0 <= i < |categories| ==> categories[i].id in m
    requires DoneUpTo(m, categories, n, before)
    requires k > 0 ==> Up(m, categories[n].id, k - 1).Some?
    requires forall a :: ClosureRow(a, categories[n].id) in ChainRows(m, categories[n].id, k) <==>
                         IsAncestor(m, a, categories[n].id)
    ensures DoneUpTo(m, categories, n + 1, before + ChainRows(m, categories[n].id, k))
  {
    var id := categories[n].id;
    var chain := ChainRows(m, id, k);
    var rows := before + chain;
    ChainHasNoDuplicates(m, id, k);
    assert forall row :: row in chain ==> row.descendant == id;
    assert forall row :: row in before ==> row.descendant != id;
    forall i, j | 0 <= i < j < |rows|
      ensures rows[i] != rows[j]
    {
      if i < |before| <= j {
        assert rows[i] in before && rows[j] in chain;
      }
    }
    forall i, a | 0 <= i < n + 1
      ensures ClosureRow(a, categories[i].id) in rows <==> IsAncestor(m, a, categories[i].id)
    {
      assert ClosureRow(a, categories[i].id) in rows
        <==> ClosureRow(a, categories[i].id) in before || ClosureRow(a, categories[i].id) in chain;
    }
  }

  // ----- What the closure is: the least reflexive and transitive relation holding the parent edges -----

  /** Holds every category with itself and with its parent, when the parent is a category, and is transitive. */
  ghost predicate ReflexiveTransitive(categories: seq<Category>, pairs: iset<(int, int)>) {
    && (forall i :: 0 <= i < |categories| ==> (categories[i].id, categories[i].id) in pairs)
    && (forall i, j :: 0 <= i < |categories| && 0 <= j < |categories|
                       && categories[i].parent == Some(categories[j].id) ==>
          (categories[j].id, categories[i].id) in pairs)
    && (forall a, b, c :: (a, b) in pairs && (b, c) in pairs ==> (a, c) in pairs)
  }

  ghost function PairsOf(rows: seq<ClosureRow>): iset<(int, int)> {
    iset row | row in rows :: (row.ancestor, row.descendant)
  }

  lemma AncestorIsTransitive(m: CategoryMap, a: int, b: int, c: int)
    requires c in m && b in m && IsAncestor(m, a, b) && IsAncestor(m, b, c)
    ensures IsAncestor(m, a, c)
  {
    var j: nat :| Up(m, b, j) == Some(a);
    var k: nat :| Up(m, c, k) == Some(b);
    UpAdds(m, c, k, j);
  }

  lemma {:induction false} MapHolds(categories: seq<Category>, i: nat)
    requires DistinctIds(categories) && i < |categories|
    ensures categories[i].id in MapOf(categories) && MapOf(categories)[categories[i].id] == categories[i]
  {
    var last := |categories| - 1;
    var before := MapOf(categories[..last]);
    assert MapOf(categories) == before[categories[last].id := categories[last]];
    if i < last {
      MapHolds(categories[..last], i);
      assert categories[..last][i] == categories[i] && categories[i].id != categories[last].id;
    }
  }

  /** The parent of a category is the one its row names, when there is such a category. */
  lemma ParentIsNamed(categories: seq<Category>, i: nat, j: nat)
    requires DistinctIds(categories) && i < |categories| && j < |categories|
    ensures categories[i].id in MapOf(categories)
    ensures Parent(MapOf(categories), categories[i].id) == Some(categories[j].id)
            <==> categories[i].parent == Some(categories[j].id)
  {
    MapHolds(categories, i);
    MapHolds(categories, j);
  }

  lemma RowOf(categories: seq<Category>, id: int) returns (i: nat)
    requires id in MapOf(categories)
    ensures i < |categories| && categories[i].id == id
  {
    i :| 0 <= i < |categories| && categories[i] == MapOf(categories)[id];
  }

  /** The same, on the map. */
  ghost predicate ClosedOver(m: CategoryMap, pairs: iset<(int, int)>) {
    && (forall id :: id in m ==> (id, id) in pairs)
    && (forall id :: id in m && Parent(m, id).Some? ==> (Parent(m, id).value, id) in pairs)
    && (forall a, b, c :: (a, b) in pairs && (b, c) in pairs ==> (a, c) in pairs)
  }

  lemma ParentInAny(categories: seq<Category>, pairs: iset<(int, int)>, below: int)
    requires DistinctIds(categories) && ReflexiveTransitive(categories, pairs) && below in MapOf(categories)
    ensures (below, below) in pairs
    ensures var parent := Parent(MapOf(categories), below); parent.Some? ==> (parent.value, below) in pairs
  {
    var i := RowOf(categories, below);
    if Parent(MapOf(categories), below).Some? {
      var j := RowOf(categories, Parent(MapOf(categories), below).value);
      ParentIsNamed(categories, i, j);
    }
  }

  lemma ClosedOnTheMap(categories: seq<Category>, pairs: iset<(int, int)>)
    requires DistinctIds(categories) && ReflexiveTransitive(categories, pairs)
    ensures ClosedOver(MapOf(categories), pairs)
  {
    forall id | id in MapOf(categories)
      ensures (id, id) in pairs
      ensures var parent := Parent(MapOf(categories), id); parent.Some? ==> (parent.value, id) in pairs
    {
      ParentInAny(categories, pairs, id);
    }
  }

  lemma {:induction false} AncestorInAny(m: CategoryMap, pairs: iset<(int, int)>, d: int, k: nat)
    requires ClosedOver(m, pairs) && d in m && Up(m, d, k).Some?
    ensures (Up(m, d, k).value, d) in pairs
  {
    if k == 0 {
      assert (d, d) in pairs;
    } else {
      AncestorInAny(m, pairs, d, k - 1);
      var below, a := Up(m, d, k - 1).value, Up(m, d, k).value;
      assert Parent(m, below) == Some(a);
      assert (a, below) in pairs && (below, d) in pairs;
      assert (a, d) in pairs;
    }
  }

  lemma RowsAndPairs(m: CategoryMap, rows: seq<ClosureRow>, a: int, d: int)
    requires IsClosure(m, rows)
    ensures (a, d) in PairsOf(rows) <==> d in m && IsAncestor(m, a, d)
  {
  }

  /** Every category is emitted with itself, and with the category its row names as parent. */
  lemma ParentsAreEmitted(categories: seq<Category>, rows: seq<ClosureRow>, i: nat, j: nat)
    requires DistinctIds(categories) && IsClosure(MapOf(categories), rows) && i < |categories| && j < |categories|
    ensures ClosureRow(categories[i].id, categories[i].id) in rows
    ensures categories[i].parent == Some(categories[j].id) ==>
              ClosureRow(categories[j].id, categories[i].id) in rows
  {
    var m, id := MapOf(categories), categories[i].id;
    ParentIsNamed(categories, i, j);
    assert Up(m, id, 0) == Some(id) && IsAncestor(m, id, id);
    assert Up(m, id, 1) == Parent(m, id);
    if categories[i].parent == Some(categories[j].id) {
      assert IsAncestor(m, categories[j].id, id);
    }
  }

  /**
   The emitted pairs are the reflexive-transitive closure of the parent fields: they hold every category with itself
   and with its parent, are transitive, and lie within any relation that does.
   */
  lemma ClosureIsLeast(categories: seq<Category>, rows: seq<ClosureRow>, other: iset<(int, int)>)
    requires DistinctIds(categories) && IsClosure(MapOf(categories), rows) && ReflexiveTransitive(categories, other)
    ensures ReflexiveTransitive(categories, PairsOf(rows)) && PairsOf(rows) <= other
  {
    var m, pairs := MapOf(categories), PairsOf(rows);
    forall a, d
      ensures (a, d) in pairs <==> d in m && IsAncestor(m, a, d)
    {
      RowsAndPairs(m, rows, a, d);
    }
    forall i | 0 <= i < |categories|
      ensures (categories[i].id, categories[i].id) in pairs
    {
      ParentsAreEmitted(categories, rows, i, i);
    }
    forall i, j | 0 <= i < |categories| && 0 <= j < |categories| && categories[i].parent == Some(categories[j].id)
      ensures (categories[j].id, categories[i].id) in pairs
    {
      ParentsAreEmitted(categories, rows, i, j);
    }
    forall a, b, c | (a, b) in pairs && (b, c) in pairs
      ensures (a, c) in pairs
    {
      AncestorIsTransitive(m, a, b, c);
    }
    ClosedOnTheMap(categories, other);
    forall a, d | (a, d) in pairs
      ensures (a, d) in other
    {
      var k: nat :| Up(m, d, k) == Some(a);
      AncestorInAny(m, other, d, k);
    }
  }

  /** Two ancestors of one category are comparable: one is an ancestor of the other. */
  lemma AncestorsAreComparable(m: CategoryMap, a: int, b: int, d: int)
    requires d in m && IsAncestor(m, a, d) && IsAncestor(m, b, d)
    ensures a in m && b in m && (IsAncestor(m, a, b) || IsAncestor(m, b, a))
  {
    var j: nat :| Up(m, d, j) == Some(a);
    var k: nat :| Up(m, d, k) == Some(b);
    if j <= k {
      UpAdds(m, d, j, k - j);
    } else {
      UpAdds(m, d, k, j - k);
    }
  }
}
