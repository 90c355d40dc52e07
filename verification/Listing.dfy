/** Ordered query results and the pages they are read in. */
module Listing {

  // ----- ORDER BY -----

  /** Sort keys: two columns, compared one after the other. */
  type Key = (int, int)

  predicate Before(a: Key, b: Key) {
    a.0 < b.0 || (a.0 == b.0 && a.1 < b.1)
  }

  ghost predicate Distinguishes<T(!new)>(key: T -> Key, rows: set<T>) {
    forall x, y :: x in rows && y in rows && key(x) == key(y) ==> x == y
  }

  ghost predicate IsFirst<T(!new)>(key: T -> Key, rows: set<T>, x: T) {
    x in rows && forall y :: y in rows ==> !Before(key(y), key(x))
  }

  lemma {:induction false} FirstExists<T(!new)>(key: T -> Key, rows: set<T>, x: T) returns (first: T)
    requires x in rows
    ensures IsFirst(key, rows, first)
    decreases rows
  {
    if y :| y in rows && Before(key(y), key(x)) {
      var rest := rows - {x};
      first := FirstExists(key, rest, y);
      forall z | z in rows ensures !Before(key(z), key(first)) {
        assert z == x || z in rest;
      }
    } else {
      first := x;
    }
  }

  lemma FirstExistsSomewhere<T(!new)>(key: T -> Key, rows: set<T>)
    requires rows != {}
    ensures exists x :: IsFirst(key, rows, x)
  {
    var x :| x in rows;
    var first := FirstExists(key, rows, x);
  }

  /** The rows in key order. */
  ghost function Sorted<T(!new)>(key: T -> Key, rows: set<T>): seq<T>
    decreases rows
  {
    if rows == {} then []
    else
      FirstExistsSomewhere(key, rows);
      var x :| IsFirst(key, rows, x);
      [x] + Sorted(key, rows - {x})
  }

  ghost predicate Ordered<T>(key: T -> Key, list: seq<T>) {
    forall i, j :: 0 <= i < j < |list| ==> Before(key(list[i]), key(list[j]))
  }

  /** Sorting lists every row exactly once, in order. */
  lemma {:induction false} SortedListsAll<T(!new)>(key: T -> Key, rows: set<T>)
    requires Distinguishes(key, rows)
    ensures var list := Sorted(key, rows);
      && |list| == |rows|
      && (forall x :: x in list <==> x in rows)
      && Ordered(key, list)
    decreases rows
  {
    if rows != {} {
      FirstExistsSomewhere(key, rows);
      var list := Sorted(key, rows);
      var x, rest := list[0], rows - {list[0]};
      assert IsFirst(key, rows, x) && list == [x] + Sorted(key, rest);
      SortedListsAll(key, rest);
      forall i, j | 0 <= i < j < |list| ensures Before(key(list[i]), key(list[j])) {
        assert list[j] in Sorted(key, rest);
        if i > 0 {
          assert list[i] == Sorted(key, rest)[i - 1] && list[j] == Sorted(key, rest)[j - 1];
        }
      }
      assert |rows| == |rest| + 1;
    }
  }

  /** There is one way to list rows in order: the list depends only on the rows and their own keys. */
  lemma {:induction false} OrderedListIsUnique<T(!new)>(key: T -> Key, a: seq<T>, b: seq<T>)
    requires Ordered(key, a) && Ordered(key, b)
    requires forall x :: x in a <==> x in b
    ensures a == b
    decreases |a|
  {
    assert a != [] ==> a[0] in b;
    assert b != [] ==> b[0] in a;
    if a != [] && b != [] {
      assert a[0] == b[0] by {
        var i :| 0 <= i < |b| && b[i] == a[0];
        var j :| 0 <= j < |a| && a[j] == b[0];
      }
      forall x ensures x in a[1..] <==> x in b[1..] {
        OrderedTail(key, a, x);
        OrderedTail(key, b, x);
      }
      OrderedListIsUnique(key, a[1..], b[1..]);
      assert a == [a[0]] + a[1..] && b == [b[0]] + b[1..];
    }
  }

  lemma OrderedTail<T>(key: T -> Key, a: seq<T>, x: T)
    requires Ordered(key, a) && a != []
    ensures x in a[1..] <==> x in a && x != a[0]
  {
    assert a == [a[0]] + a[1..];
    if x in a[1..] {
      var i :| 0 <= i < |a[1..]| && a[1..][i] == x;
      assert a[i + 1] == x;
    }
  }

  lemma SortedDepends<T(!new)>(key: T -> Key, key': T -> Key, rows: set<T>)
    requires Distinguishes(key, rows) && forall x :: x in rows ==> key(x) == key'(x)
    ensures Sorted(key, rows) == Sorted(key', rows)
  {
    SortedListsAll(key, rows);
    SortedListsAll(key', rows);
    var a, b := Sorted(key, rows), Sorted(key', rows);
    forall i, j | 0 <= i < j < |b| ensures Before(key(b[i]), key(b[j])) {
      assert b[i] in rows && b[j] in rows;
    }
    OrderedListIsUnique(key, a, b);
  }

  function Elements<T>(list: seq<T>): set<T> {
    set x | x in list
  }

  lemma {:induction false} DistinctCount<T>(list: seq<T>)
    requires forall i, j :: 0 <= i < j < |list| ==> list[i] != list[j]
    ensures |Elements(list)| == |list|
  {
    if list != [] {
      DistinctCount(list[1..]);
      assert list == [list[0]] + list[1..];
      assert Elements(list) == Elements(list[1..]) + {list[0]};
    }
  }

  // ----- LIMIT and OFFSET -----

  function Clamp(n: nat, list: nat): nat {
    if n < list then n else list
  }

  /** ... LIMIT ? OFFSET ? */
  function Page<T>(list: seq<T>, limit: nat, offset: nat): seq<T> {
    list[Clamp(offset, |list|)..Clamp(offset + limit, |list|)]
  }

  /** How the listings scan a page: one row more than the limit is asked for, and the extra row only
      says that there is more. */
  method ScanPage<T>(query: seq<T>, limit: nat) returns (page: seq<T>, more: bool)
    ensures page == (if |query| > limit then query[..limit] else query)
    ensures more <==> |query| > limit
  {
    page := [];
    for i := 0 to |query|
      invariant page == query[..i]
    {
      page := page + [query[i]];
    }
    more := |page| > limit;
    if more {
      page := page[..limit];
    }
  }

  function More<T>(list: seq<T>, limit: nat, offset: nat): bool {
    offset + limit < |list|
  }

  /** Scanning limit + 1 rows gives the page of `limit` rows, and tells exactly whether another row exists. */
  method ReadPage<T>(list: seq<T>, limit: nat, offset: nat) returns (page: seq<T>, more: bool)
    ensures page == Page(list, limit, offset)
    ensures more <==> More(list, limit, offset)
  {
    page, more := ScanPage(Page(list, limit + 1, offset), limit);
  }

  /** The first `n` pages, one after the other. */
  ghost function Pages<T>(list: seq<T>, limit: nat, n: nat): seq<T> {
    if n == 0 then [] else Pages(list, limit, n - 1) + Page(list, limit, (n - 1) * limit)
  }

  lemma {:induction false} PagesJoin<T>(list: seq<T>, limit: nat, n: nat)
    ensures Pages(list, limit, n) == list[..Clamp(n * limit, |list|)]
    decreases n
  {
    if n > 0 {
      PagesJoin(list, limit, n - 1);
      assert n * limit == (n - 1) * limit + limit;
    }
  }

  /** Pages partition the list, whatever the page size: reading on while there is more gives every row
      once and in order. */
  lemma PagesPartition<T>(list: seq<T>, limit: nat, n: nat)
    requires n > 0 && !More(list, limit, (n - 1) * limit)
    ensures Pages(list, limit, n) == list
  {
    PagesJoin(list, limit, n);
    assert n * limit == (n - 1) * limit + limit;
  }

  const PAGE_SIZE: nat := 20

  /** The page an item's number points to, counting from 1, as permalinks and redirects compute it. */
  function PageNumber(number: nat): nat {
    (number - 1) / PAGE_SIZE + 1
  }

  /** The offset a page is read at. */
  function PageOffset(page: nat): nat {
    if page == 0 then 0 else (page - 1) * PAGE_SIZE
  }

  /** That page always contains the item, at the place that gives it its number back. */
  lemma PermalinkFindsItem<T>(list: seq<T>, number: nat)
    requires 1 <= number <= |list|
    ensures var offset := PageOffset(PageNumber(number));
      var page := Page(list, PAGE_SIZE, offset);
      exists i :: 0 <= i < |page| && page[i] == list[number - 1] && offset + i + 1 == number
  {
    var offset := PageOffset(PageNumber(number));
    var i := number - 1 - offset;
    assert Page(list, PAGE_SIZE, offset)[i] == list[number - 1];
  }
}
