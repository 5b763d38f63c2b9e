/** The query methods `SubscriptionRepository` declares, as functions of the
    table. The database returns rows in an order it does not define; this model
    returns them in ascending id order, and sorts by price where the query says
    `ORDER BY s.price ASC`. */
module Repository {
  import opened Results
  import opened Entity
  import opened Persistence

  /** `term` occurs in `s` as a contiguous substring. */
  predicate Contains(s: string, term: string) {
    exists i :: 0 <= i <= |s| - |term| && term <= s[i..]
  }

  /** The WHERE clause of a query: each present criterion must hold. */
  datatype Criteria = Criteria(
    name: Option<string>,
    nameContains: Option<string>,
    category: Option<string>,
    isActive: Option<bool>)

  const AnyRow := Criteria(None, None, None, None)

  predicate Matches(c: Criteria, r: Record) {
    && (c.name.Some? ==> r.name == c.name.value)
    && (c.nameContains.Some? ==> Contains(r.name, c.nameContains.value))
    && (c.category.Some? ==> r.category == c.category.value)
    && (c.isActive.Some? ==> r.isActive == c.isActive.value)
  }

  /** Row ids strictly increase along the list, so no row appears twice. */
  predicate IdsIncreasing(s: seq<Record>) {
    forall i, j :: 0 <= i < j < |s| ==> s[i].id < s[j].id
  }

  /** The rows with ids in [lo, hi) that match `c`, in id order. */
  function Scan(rows: map<int, Record>, c: Criteria, lo: int, hi: int): (s: seq<Record>)
    requires forall id :: id in rows ==> rows[id].id == id
    ensures forall x :: x in s ==> x in rows.Values && Matches(c, x) && lo <= x.id < hi
    ensures forall id :: lo <= id < hi && id in rows && Matches(c, rows[id]) ==> rows[id] in s
    ensures IdsIncreasing(s)
    decreases hi - lo
  {
    if lo >= hi then []
    else if lo in rows && Matches(c, rows[lo]) then [rows[lo]] + Scan(rows, c, lo + 1, hi)
    else Scan(rows, c, lo + 1, hi)
  }

  /** All rows of a consistent table that match `c`, in id order. */
  function Select(t: Table, c: Criteria): (s: seq<Record>)
    requires Inv(t)
    ensures forall x :: x in s <==> x in t.rows.Values && Matches(c, x)
    ensures IdsIncreasing(s)
  {
    var s := Scan(t.rows, c, 1, t.nextId);
    assert forall x :: x in t.rows.Values && Matches(c, x) ==> x in s by {
      forall x | x in t.rows.Values && Matches(c, x) ensures x in s {
        ValueHasKey(t.rows, x);
        var id :| id in t.rows && t.rows[id] == x;
      }
    }
    s
  }

  /** `findByIsActive(isActive)`: exactly the rows whose flag equals `isActive`. */
  function FindByIsActive(t: Table, isActive: bool): (s: seq<Record>)
    requires Inv(t)
    ensures forall x :: x in s <==> x in t.rows.Values && x.isActive == isActive
    ensures IdsIncreasing(s)
  {
    Select(t, AnyRow.(isActive := Some(isActive)))
  }

  /** `findByCategory(category)`: every row of that category, active or not. */
  function FindByCategory(t: Table, category: string): (s: seq<Record>)
    requires Inv(t)
    ensures forall x :: x in s <==> x in t.rows.Values && x.category == category
    ensures IdsIncreasing(s)
  {
    Select(t, AnyRow.(category := Some(category)))
  }

  /** `findByCategoryAndIsActive(category, isActive)`: both conditions at once. */
  function FindByCategoryAndIsActive(t: Table, category: string, isActive: bool): (s: seq<Record>)
    requires Inv(t)
    ensures forall x :: x in s <==> x in t.rows.Values && x.category == category && x.isActive == isActive
    ensures IdsIncreasing(s)
  {
    Select(t, AnyRow.(category := Some(category), isActive := Some(isActive)))
  }

  /** `findByNameAndIsActive(name, isActive)`: an `Optional`. Spring Data would
      throw if two rows matched; names are unique, so at most one does and the
      result is that row when there is one. */
  function FindByNameAndIsActive(t: Table, name: string, isActive: bool): (r: Option<Record>)
    requires Inv(t)
    ensures r.Some? <==> exists x :: x in t.rows.Values && x.name == name && x.isActive == isActive
    ensures r.Some? ==> r.value in t.rows.Values && r.value.name == name && r.value.isActive == isActive
    ensures r.Some? ==> forall x :: x in t.rows.Values && x.name == name ==> x == r.value
  {
    var s := Select(t, AnyRow.(name := Some(name), isActive := Some(isActive)));
    if s == [] then None
    else
      assert s[0] in s;
      assert forall x :: x in t.rows.Values && x.name == name ==> x == s[0] by {
        forall x | x in t.rows.Values && x.name == name ensures x == s[0] {
          ValueHasKey(t.rows, x);
          ValueHasKey(t.rows, s[0]);
          var i :| i in t.rows && t.rows[i] == x;
          var j :| j in t.rows && t.rows[j] == s[0];
          assert i == j;
        }
      }
      Some(s[0])
  }

  /** `existsByName(name)`: some row, active or inactive, has exactly this name.
      A null name matches nothing, since no row has a null name. */
  function ExistsByName(t: Table, name: Option<string>): (b: bool)
    requires Inv(t)
    ensures b <==> name.Some? && exists x :: x in t.rows.Values && x.name == name.value
  {
    match name
    case None => false
    case Some(n) =>
      var s := Select(t, AnyRow.(name := Some(n)));
      assert s != [] ==> s[0] in s;
      s != []
  }

  /** No value occurs twice in `s`. */
  predicate NoDuplicates<T(==)>(s: seq<T>) {
    forall i, j :: 0 <= i < j < |s| ==> s[i] != s[j]
  }

  /** `SELECT DISTINCT`: the values of `s`, each once, in order of first occurrence. */
  function Distinct(s: seq<string>): (r: seq<string>)
    ensures forall x :: x in r <==> x in s
    ensures NoDuplicates(r)
  {
    if s == [] then []
    else
      var r := Distinct(s[..|s| - 1]);
      assert forall x :: x in s <==> x in s[..|s| - 1] || x == s[|s| - 1] by {
        assert s == s[..|s| - 1] + [s[|s| - 1]];
      }
      if s[|s| - 1] in r then r else r + [s[|s| - 1]]
  }

  /** The `category` column of a list of rows. */
  function Categories(s: seq<Record>): (r: seq<string>)
    ensures |r| == |s| && forall i :: 0 <= i < |s| ==> r[i] == s[i].category
  {
    seq(|s|, i requires 0 <= i < |s| => s[i].category)
  }

  /** `findAllActiveCategories()`: each category of an active row exactly once;
      a category held only by inactive rows does not appear. */
  function FindAllActiveCategories(t: Table): (r: seq<string>)
    requires Inv(t)
    ensures forall c :: c in r <==> exists x :: x in t.rows.Values && x.isActive && x.category == c
    ensures NoDuplicates(r)
  {
    var active := FindByIsActive(t, true);
    var cs := Categories(active);
    assert forall c :: c in cs <==> exists x :: x in active && x.category == c by {
      forall c | c in cs ensures exists x :: x in active && x.category == c {
        var i :| 0 <= i < |cs| && cs[i] == c;
        assert active[i] in active;
      }
      forall c | (exists x :: x in active && x.category == c) ensures c in cs {
        var x :| x in active && x.category == c;
        var i :| 0 <= i < |active| && active[i] == x;
        assert cs[i] == c;
      }
    }
    Distinct(cs)
  }

  /** `findByNameContainingIgnoreCaseAndIsActive(name)`: the active rows whose
      name contains the term. The JPQL is `s.name LIKE %:name%` with no
      `LOWER`, so matching is exact here. */
  function FindByNameContainingIgnoreCaseAndIsActive(t: Table, term: string): (s: seq<Record>)
    requires Inv(t)
    ensures forall x :: x in s <==> x in t.rows.Values && x.isActive && Contains(x.name, term)
    ensures IdsIncreasing(s)
  {
    Select(t, AnyRow.(nameContains := Some(term), isActive := Some(true)))
  }

  predicate SortedByPrice(s: seq<Record>) {
    forall i, j :: 0 <= i < j < |s| ==> s[i].price <= s[j].price
  }

  /** Inserts `x` into a price-sorted list after every row that is not dearer,
      so rows of equal price keep their order. */
  function InsertByPrice(x: Record, s: seq<Record>): (r: seq<Record>)
    requires SortedByPrice(s)
    ensures SortedByPrice(r)
    ensures multiset(r) == multiset(s) + multiset{x}
  {
    if s == [] || s[|s| - 1].price <= x.price then s + [x]
    else
      var init, last := s[..|s| - 1], s[|s| - 1];
      assert s == init + [last];
      var r0 := InsertByPrice(x, init);
      InsertBeforeLast(s, init, last, x, r0);
      r0 + [last]
  }

  /** The recursive case of `InsertByPrice`: `x` went into the list without
      its dearer last row, which then goes back at the end. */
  lemma InsertBeforeLast(s: seq<Record>, init: seq<Record>, last: Record, x: Record, r0: seq<Record>)
    requires s == init + [last] && SortedByPrice(s) && x.price < last.price
    requires SortedByPrice(r0) && multiset(r0) == multiset(init) + multiset{x}
    ensures SortedByPrice(r0 + [last])
    ensures multiset(r0 + [last]) == multiset(s) + multiset{x}
  {
    assert forall y :: y in init ==> y.price <= last.price by {
      forall y | y in init ensures y.price <= last.price {
        var k :| 0 <= k < |init| && init[k] == y;
        assert s[k] == y && s[|s| - 1] == last;
      }
    }
    PriceBoundKept(r0, init, x, last.price);
  }

  /** A price bound on every element carries over to a rearrangement. */
  lemma PriceBoundKept(r: seq<Record>, s: seq<Record>, x: Record, bound: int)
    requires multiset(r) == multiset(s) + multiset{x}
    requires x.price <= bound
    requires forall y :: y in s ==> y.price <= bound
    ensures forall k :: 0 <= k < |r| ==> r[k].price <= bound
  {
    forall k | 0 <= k < |r| ensures r[k].price <= bound {
      assert r[k] in multiset(r);
      assert r[k] == x || r[k] in multiset(s);
    }
  }

  /** A stable insertion sort by ascending price. */
  function SortByPrice(s: seq<Record>): (r: seq<Record>)
    ensures SortedByPrice(r)
    ensures multiset(r) == multiset(s)
  {
    if s == [] then []
    else
      assert s == s[..|s| - 1] + [s[|s| - 1]];
      InsertByPrice(s[|s| - 1], SortByPrice(s[..|s| - 1]))
  }

  /** `findByCategoryOrderByPriceAsc(category)`: the active rows of the category
      (the JPQL adds `s.isActive = true`), each once, cheapest first. */
  function FindByCategoryOrderByPriceAsc(t: Table, category: string): (s: seq<Record>)
    requires Inv(t)
    ensures SortedByPrice(s)
    ensures multiset(s) == multiset(FindByCategoryAndIsActive(t, category, true))
    ensures forall x :: x in s <==> x in t.rows.Values && x.isActive && x.category == category
  {
    var matching := FindByCategoryAndIsActive(t, category, true);
    var s := SortByPrice(matching);
    assert forall x :: x in s <==> x in matching by {
      forall x ensures x in s <==> x in matching {
        assert x in s <==> x in multiset(s);
        assert x in matching <==> x in multiset(matching);
      }
    }
    s
  }

  /** Splitting any query on the active flag splits its result: the active and
      the inactive matches together are all the matches. */
  lemma {:induction false} ScanSplitsOnFlag(rows: map<int, Record>, c: Criteria, lo: int, hi: int)
    requires forall id :: id in rows ==> rows[id].id == id
    requires c.isActive.None?
    ensures |Scan(rows, c.(isActive := Some(true)), lo, hi)| + |Scan(rows, c.(isActive := Some(false)), lo, hi)|
         == |Scan(rows, c, lo, hi)|
    decreases hi - lo
  {
    if lo < hi {
      ScanSplitsOnFlag(rows, c, lo + 1, hi);
    }
  }

  /** The ids of `rows` in a range: peeling off the lowest one. */
  lemma IdsInRangeSplit(rows: map<int, Record>, lo: int, hi: int)
    requires lo < hi
    ensures |set id | id in rows && lo <= id < hi| ==
            (if lo in rows then 1 else 0) + |set id | id in rows && lo + 1 <= id < hi|
  {
    var ids := set id | id in rows && lo <= id < hi;
    var rest := set id | id in rows && lo + 1 <= id < hi;
    if lo in rows {
      assert ids == {lo} + rest;
    } else {
      assert ids == rest;
    }
  }

  /** Scanning for every row counts the ids in the range. */
  lemma {:induction false} ScanCountsIds(rows: map<int, Record>, lo: int, hi: int)
    requires forall id :: id in rows ==> rows[id].id == id
    ensures |Scan(rows, AnyRow, lo, hi)| == |set id | id in rows && lo <= id < hi|
    decreases hi - lo
  {
    if lo >= hi {
      assert (set id | id in rows && lo <= id < hi) == {};
    } else {
      ScanCountsIds(rows, lo + 1, hi);
      IdsInRangeSplit(rows, lo, hi);
      if lo in rows {
        assert Matches(AnyRow, rows[lo]);
      }
    }
  }

  /** With counts taken from the table, active plus inactive is the row count:
      every row is either active or inactive. */
  lemma ActivePlusInactiveIsCount(t: Table)
    requires Inv(t)
    ensures |FindByIsActive(t, true)| + |FindByIsActive(t, false)| == Count(t)
  {
    ScanSplitsOnFlag(t.rows, AnyRow, 1, t.nextId);
    ScanCountsIds(t.rows, 1, t.nextId);
    assert (set id | id in t.rows && 1 <= id < t.nextId) == t.rows.Keys;
  }

  /** Every stored value is stored under some key. */
  lemma ValueHasKey(rows: map<int, Record>, x: Record)
    requires x in rows.Values
    ensures exists id :: id in rows && rows[id] == x
  {
    if forall id :: id in rows ==> rows[id] != x {
      assert false;
    }
  }

  /** `existsByName` answers the same question as the unique index. */
  lemma ExistsByNameMatchesIndex(t: Table, name: Option<string>)
    requires Inv(t)
    ensures name.Some? ==> (ExistsByName(t, name) <==> NameInUse(t, name.value, None))
  {
    if name.Some? && NameInUse(t, name.value, None) {
      var id :| id in t.rows && t.rows[id].name == name.value;
      assert t.rows[id] in t.rows.Values;
    }
    if name.Some? && ExistsByName(t, name) {
      var x :| x in t.rows.Values && x.name == name.value;
      ValueHasKey(t.rows, x);
      var id :| id in t.rows && t.rows[id] == x;
      assert Some(id) != None;
    }
  }
}
