/**
  Keyset pagination: each page asks for the rows after the last one seen, in a fixed strict
  order, and fetches one row more than it shows to learn whether another page follows.
  A row is represented by its sort key, which ends in its id. Descending lists are the same
  with the order turned round.
 */
module Keyset {
  import opened Wrappers

  ghost predicate StrictTotal<K(!new)>(less: (K, K) -> bool) {
    && (forall a :: !less(a, a))
    && (forall a, b :: a == b || less(a, b) || less(b, a))
    && (forall a, b, c :: less(a, b) && less(b, c) ==> less(a, c))
  }

  predicate Sorted<K>(s: seq<K>, less: (K, K) -> bool) {
    forall i, j :: 0 <= i < j < |s| ==> less(s[i], s[j])
  }

  ghost function Elements<K>(s: seq<K>): set<K> {
    set x | x in s
  }

  /** s is what ORDER BY makes of the rows. */
  ghost predicate Lists<K>(s: seq<K>, rows: set<K>, less: (K, K) -> bool) {
    Sorted(s, less) && Elements(s) == rows
  }

  lemma {:induction false} SmallestFirst<K(!new)>(rows: set<K>, less: (K, K) -> bool) returns (x: K)
    requires StrictTotal(less) && rows != {}
    ensures x in rows && forall y :: y in rows && y != x ==> less(x, y)
    decreases |rows|
  {
    x :| x in rows;
    assert rows == (rows - {x}) + {x};
    if rows - {x} != {} {
      var y := SmallestFirst(rows - {x}, less);
      var smaller := if less(y, x) then y else x;
      forall z | z in rows && z != smaller ensures less(smaller, z) {
        if z != x && z != y {
          assert z in rows - {x} && less(y, z);
        }
      }
      x := smaller;
    }
  }

  lemma ConsLists<K(!new)>(x: K, rest: seq<K>, rows: set<K>, less: (K, K) -> bool)
    requires x in rows && Lists(rest, rows - {x}, less) && forall y :: y in rows && y != x ==> less(x, y)
    ensures Lists([x] + rest, rows, less)
  {
    var s := [x] + rest;
    forall i, j | 0 <= i < j < |s| ensures less(s[i], s[j]) {
      assert s[j] == rest[j - 1] && rest[j - 1] in Elements(rest);
      assert i > 0 ==> s[i] == rest[i - 1];
    }
    forall y ensures y in s <==> y in rows {
      assert y in rest <==> y in Elements(rest);
    }
  }

  lemma {:induction false} ListingExists<K(!new)>(rows: set<K>, less: (K, K) -> bool)
    requires StrictTotal(less)
    ensures exists s :: Lists(s, rows, less)
    decreases |rows|
  {
    if rows == {} {
      assert Lists([], rows, less);
    } else {
      var x := SmallestFirst(rows, less);
      ListingExists(rows - {x}, less);
      var rest :| Lists(rest, rows - {x}, less);
      ConsLists(x, rest, rows, less);
    }
  }

  lemma HeadIsAnElement<K>(s: seq<K>)
    ensures s == [] || s[0] in Elements(s)
  {
  }

  lemma SortedAt<K>(s: seq<K>, less: (K, K) -> bool, i: nat, j: nat)
    requires Sorted(s, less)
    ensures i < j < |s| ==> less(s[i], s[j])
  {
  }

  lemma TailLists<K(!new)>(s: seq<K>, rows: set<K>, less: (K, K) -> bool)
    requires StrictTotal(less) && Lists(s, rows, less) && s != []
    ensures Lists(s[1..], rows - {s[0]}, less)
  {
  }

  /** The order leaves no choice. */
  lemma {:induction false} ListingIsUnique<K(!new)>(s: seq<K>, t: seq<K>, rows: set<K>, less: (K, K) -> bool)
    requires StrictTotal(less) && Lists(s, rows, less) && Lists(t, rows, less)
    ensures s == t
    decreases |s|
  {
    if s == [] {
      HeadIsAnElement(t);
    } else {
      assert s[0] in Elements(s) && s[0] in t;
      assert t[0] in Elements(t) && t[0] in s;
      assert s[0] == t[0];
      TailLists(s, rows, less);
      TailLists(t, rows, less);
      ListingIsUnique(s[1..], t[1..], rows - {s[0]}, less);
      assert s == [s[0]] + s[1..] && t == [t[0]] + t[1..];
    }
  }

  ghost function Listing<K(!new)>(rows: set<K>, less: (K, K) -> bool): (s: seq<K>)
    requires StrictTotal(less)
    ensures Lists(s, rows, less)
  {
    ListingExists(rows, less);
    var s :| Lists(s, rows, less);
    s
  }

  // ----- One page -----

  /** The keyset condition of the WHERE clause. */
  ghost function Beyond<K(!new)>(rows: set<K>, less: (K, K) -> bool, cursor: Option<K>): set<K> {
    set r | r in rows && (cursor.Some? ==> less(cursor.value, r))
  }

  function Take<K>(s: seq<K>, n: nat): seq<K> {
    if n < |s| then s[..n] else s
  }

  /** WHERE key > cursor ORDER BY key LIMIT n. */
  ghost function Query<K(!new)>(rows: set<K>, less: (K, K) -> bool, cursor: Option<K>, n: nat): seq<K>
    requires StrictTotal(less)
  {
    Take(Listing(Beyond(rows, less, cursor), less), n)
  }

  datatype Page<K> = Page(rows: seq<K>, next: Option<K>)

  /** limit + 1 rows are fetched; the extra one only says that there is more. */
  function Trim<K>(fetched: seq<K>, limit: nat): Page<K>
    requires limit >= 1
  {
    if |fetched| > limit then Page(fetched[..limit], Some(fetched[limit - 1])) else Page(fetched, None)
  }

  ghost function PageAt<K(!new)>(rows: set<K>, less: (K, K) -> bool, cursor: Option<K>, limit: nat): Page<K>
    requires StrictTotal(less) && limit >= 1
  {
    Trim(Query(rows, less, cursor, limit + 1), limit)
  }

  /** The rows beyond the n-th of a listing are the rest of the listing. */
  lemma RestOfListing<K(!new)>(rows: set<K>, less: (K, K) -> bool, cursor: Option<K>, n: nat)
    requires StrictTotal(less)
    requires 1 <= n <= |Listing(Beyond(rows, less, cursor), less)|
    ensures var all := Listing(Beyond(rows, less, cursor), less);
      Listing(Beyond(rows, less, Some(all[n - 1])), less) == all[n..]
  {
    var all := Listing(Beyond(rows, less, cursor), less);
    var last := all[n - 1];
    var beyond := Beyond(rows, less, Some(last));
    assert last in Elements(all);
    forall x ensures x in all[n..] <==> x in beyond {
      if x in all[n..] {
        var i :| 0 <= i < |all[n..]| && all[n..][i] == x;
        assert less(last, all[n + i]) && all[n + i] in Elements(all);
      }
      if x in beyond {
        assert x in Elements(all);
        var i :| 0 <= i < |all| && all[i] == x;
        SortedAt(all, less, i, n - 1);
        assert all[n..][i - n] == x;
      }
    }
    assert Elements(all[n..]) == beyond;
    ListingIsUnique(Listing(beyond, less), all[n..], beyond, less);
  }

  lemma PageOfListing<K(!new)>(rows: set<K>, less: (K, K) -> bool, cursor: Option<K>, limit: nat)
    requires StrictTotal(less) && limit >= 1
    ensures var all := Listing(Beyond(rows, less, cursor), less);
      PageAt(rows, less, cursor, limit)
      == if |all| > limit then Page(all[..limit], Some(all[limit - 1])) else Page(all, None)
  {
  }

  lemma {:induction false} SubsetSize<K>(part: set<K>, whole: set<K>)
    requires part <= whole
    ensures |part| <= |whole|
    decreases |part|
  {
    if part != {} {
      var x :| x in part;
      SubsetSize(part - {x}, whole - {x});
    }
  }

  lemma SmallerSet<K>(part: set<K>, whole: set<K>, x: K)
    requires part <= whole && x in whole && x !in part
    ensures |part| < |whole|
  {
    SubsetSize(part, whole - {x});
  }

  /** Following a cursor leaves fewer rows to come, which is why the walk ends. */
  lemma FewerBeyond<K(!new)>(rows: set<K>, less: (K, K) -> bool, cursor: Option<K>, limit: nat)
    requires StrictTotal(less) && limit >= 1 && PageAt(rows, less, cursor, limit).next.Some?
    ensures |Beyond(rows, less, PageAt(rows, less, cursor, limit).next)| < |Beyond(rows, less, cursor)|
  {
    var all := Listing(Beyond(rows, less, cursor), less);
    var last := all[limit - 1];
    assert last in Elements(all);
    SmallerSet(Beyond(rows, less, Some(last)), Beyond(rows, less, cursor), last);
  }

  // ----- Walking an unchanging table -----

  /** All pages from the cursor on, one after the other. */
  ghost function Walk<K(!new)>(rows: set<K>, less: (K, K) -> bool, cursor: Option<K>, limit: nat): seq<K>
    requires StrictTotal(less) && limit >= 1
    decreases |Beyond(rows, less, cursor)|
  {
    var page := PageAt(rows, less, cursor, limit);
    if page.next.None? then page.rows
    else
      FewerBeyond(rows, less, cursor, limit);
      page.rows + Walk(rows, less, page.next, limit)
  }

  lemma {:induction false} WalkFromCursor<K(!new)>(rows: set<K>, less: (K, K) -> bool, cursor: Option<K>, limit: nat)
    requires StrictTotal(less) && limit >= 1
    ensures Walk(rows, less, cursor, limit) == Listing(Beyond(rows, less, cursor), less)
    decreases |Beyond(rows, less, cursor)|
  {
    var all := Listing(Beyond(rows, less, cursor), less);
    PageOfListing(rows, less, cursor, limit);
    if |all| > limit {
      FewerBeyond(rows, less, cursor, limit);
      RestOfListing(rows, less, cursor, limit);
      WalkFromCursor(rows, less, Some(all[limit - 1]), limit);
      assert all == all[..limit] + all[limit..];
    }
  }

  /** From the first page on, the pages are the rows in order, each once, whatever the limit. */
  lemma WalkIsTheListing<K(!new)>(rows: set<K>, less: (K, K) -> bool, limit: nat)
    requires StrictTotal(less) && limit >= 1
    ensures Walk(rows, less, None, limit) == Listing(rows, less)
  {
    WalkFromCursor(rows, less, None, limit);
    assert Beyond(rows, less, None) == rows;
  }

  // ----- Walking a table that changes between the pages -----

  datatype Walked<K> = Walked(rows: seq<K>, done: bool)

  /** tables[i] is what the i-th page reads; done says that a page without a next cursor was reached. */
  ghost function WalkOver<K(!new)>(tables: seq<set<K>>, less: (K, K) -> bool, cursor: Option<K>, limit: nat): Walked<K>
    requires StrictTotal(less) && limit >= 1
  {
    if tables == [] then Walked([], false)
    else
      var page := PageAt(tables[0], less, cursor, limit);
      if page.next.None? then Walked(page.rows, true)
      else
        var rest := WalkOver(tables[1..], less, page.next, limit);
        Walked(page.rows + rest.rows, rest.done)
  }

  ghost predicate AllBeyond<K>(s: seq<K>, less: (K, K) -> bool, cursor: Option<K>) {
    forall i :: 0 <= i < |s| && cursor.Some? ==> less(cursor.value, s[i])
  }

  /** What one page promises of the table it read. */
  lemma PageFacts<K(!new)>(rows: set<K>, less: (K, K) -> bool, cursor: Option<K>, limit: nat)
    requires StrictTotal(less) && limit >= 1
    ensures var page := PageAt(rows, less, cursor, limit);
      && Sorted(page.rows, less) && AllBeyond(page.rows, less, cursor)
      && (forall x :: x in page.rows ==> x in rows)
      && (page.next.Some? ==> page.rows != [] && page.next.value == page.rows[|page.rows| - 1])
      && (forall x :: x in Beyond(rows, less, cursor) ==>
            x in page.rows || (page.next.Some? && less(page.next.value, x)))
  {
    var all := Listing(Beyond(rows, less, cursor), less);
    PageOfListing(rows, less, cursor, limit);
    var page := PageAt(rows, less, cursor, limit);
    forall i | 0 <= i < |page.rows| ensures all[i] in Beyond(rows, less, cursor) {
      assert all[i] in Elements(all);
    }
    forall x | x in Beyond(rows, less, cursor) ensures x in page.rows || (page.next.Some? && less(page.next.value, x)) {
      assert x in Elements(all);
      var i :| 0 <= i < |all| && all[i] == x;
      if i < |page.rows| {
        assert page.rows[i] == x;
      } else {
        SortedAt(all, less, limit - 1, i);
      }
    }
  }

  /** Two sorted stretches, the second all beyond the end of the first. */
  lemma SortedJoin<K(!new)>(s: seq<K>, t: seq<K>, less: (K, K) -> bool)
    requires StrictTotal(less) && Sorted(s, less) && Sorted(t, less) && s != [] && AllBeyond(t, less, Some(s[|s| - 1]))
    ensures Sorted(s + t, less)
  {
  }

  lemma BeyondJoin<K(!new)>(s: seq<K>, t: seq<K>, less: (K, K) -> bool, cursor: Option<K>)
    requires StrictTotal(less) && s != [] && AllBeyond(s, less, cursor) && AllBeyond(t, less, Some(s[|s| - 1]))
    ensures AllBeyond(s + t, less, cursor)
  {
  }

  /** However the table changes between the pages, no row is shown twice and the order is kept. */
  lemma {:induction false} NoRowTwice<K(!new)>(tables: seq<set<K>>, less: (K, K) -> bool, cursor: Option<K>, limit: nat)
    requires StrictTotal(less) && limit >= 1
    ensures Sorted(WalkOver(tables, less, cursor, limit).rows, less)
    ensures AllBeyond(WalkOver(tables, less, cursor, limit).rows, less, cursor)
    decreases |tables|
  {
    if tables != [] {
      var page := PageAt(tables[0], less, cursor, limit);
      PageFacts(tables[0], less, cursor, limit);
      if page.next.Some? {
        NoRowTwice(tables[1..], less, page.next, limit);
        var rest := WalkOver(tables[1..], less, page.next, limit);
        SortedJoin(page.rows, rest.rows, less);
        BeyondJoin(page.rows, rest.rows, less, cursor);
      }
    }
  }

  /** A row that is there all along is never skipped: a finished walk has shown it. */
  lemma {:induction false} NoLastingRowSkipped<K(!new)>(tables: seq<set<K>>, less: (K, K) -> bool, cursor: Option<K>,
                                                        limit: nat, x: K)
    requires StrictTotal(less) && limit >= 1 && WalkOver(tables, less, cursor, limit).done
    requires (cursor.Some? ==> less(cursor.value, x)) && forall i :: 0 <= i < |tables| ==> x in tables[i]
    ensures x in WalkOver(tables, less, cursor, limit).rows
    decreases |tables|
  {
    var page := PageAt(tables[0], less, cursor, limit);
    PageFacts(tables[0], less, cursor, limit);
    assert x in Beyond(tables[0], less, cursor);
    if x !in page.rows {
      NoLastingRowSkipped(tables[1..], less, page.next, limit, x);
    }
  }

  /** Nothing is shown that was not there when its page was read. */
  lemma {:induction false} NoRowInvented<K(!new)>(tables: seq<set<K>>, less: (K, K) -> bool, cursor: Option<K>,
                                                  limit: nat, x: K)
    requires StrictTotal(less) && limit >= 1 && x in WalkOver(tables, less, cursor, limit).rows
    ensures exists i :: 0 <= i < |tables| && x in tables[i]
    decreases |tables|
  {
    if tables != [] {
      var page := PageAt(tables[0], less, cursor, limit);
      PageFacts(tables[0], less, cursor, limit);
      if x !in page.rows {
        NoRowInvented(tables[1..], less, page.next, limit, x);
        var i :| 0 <= i < |tables[1..]| && x in tables[1..][i];
        assert x in tables[i + 1];
      }
    }
  }
}
