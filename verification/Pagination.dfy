/** Keyset pagination: one page of a query, and what following the cursors returns. */
module Pagination {
  import opened Wrappers

  /** A table is known by the keys of its rows, which are distinct. */
  type Table = set<int>

  const DEFAULT_LIMIT: nat := 20

  /** Which of two keys comes first. */
  predicate Before(a: int, b: int, descending: bool) {
    if descending then a > b else a < b
  }

  /** The query that is sent: the bound that the keys must be beyond, the order, and the number of rows. */
  datatype Query = Query(bound: Option<int>, descending: bool, limit: nat)

  datatype CursorParams = CursorParams(cursor: Option<int>, limit: int, isPrev: bool)

  datatype CursorMeta = CursorMeta(cursor: Option<int>, nextCursor: Option<int>, limit: nat, hasMore: bool)

  ghost predicate IsFirst(keys: Table, m: int, descending: bool) {
    m in keys && forall k :: k in keys ==> k == m || Before(m, k, descending)
  }

  lemma NotEmpty(keys: Table)
    ensures keys == {} || exists k :: k in keys
  {
    if forall k :: k !in keys {
      assert keys == {};
    }
  }

  lemma {:induction false} FirstExists(keys: Table, descending: bool) returns (m: int)
    requires keys != {}
    ensures IsFirst(keys, m, descending)
    decreases |keys|
  {
    NotEmpty(keys);
    var x :| x in keys;
    m := x;
    var rest := keys - {x};
    if rest != {} {
      var f := FirstExists(rest, descending);
      if Before(f, x, descending) {
        m := f;
      }
      forall k | k in keys ensures k == m || Before(m, k, descending) {
        assert k != x ==> k in rest;
      }
    } else {
      assert keys == {x};
    }
  }

  ghost function First(keys: Table, descending: bool): (m: int)
    requires keys != {}
    ensures IsFirst(keys, m, descending)
  {
    assert exists m :: IsFirst(keys, m, descending) by {
      var m := FirstExists(keys, descending);
    }
    var m :| IsFirst(keys, m, descending);
    m
  }

  /** The keys in the order of the query. */
  ghost function Ordered(keys: Table, descending: bool): seq<int>
    decreases |keys|
  {
    if keys == {} then []
    else
      var m := First(keys, descending);
      [m] + Ordered(keys - {m}, descending)
  }

  ghost predicate InOrder(s: seq<int>, descending: bool) {
    forall i, j :: 0 <= i < j < |s| ==> Before(s[i], s[j], descending)
  }

  function Elements(s: seq<int>): set<int> {
    set k | k in s
  }

  lemma {:induction false} OrderedFacts(keys: Table, descending: bool)
    ensures var s := Ordered(keys, descending);
            |s| == |keys| && Elements(s) == keys && InOrder(s, descending)
    decreases |keys|
  {
    if keys != {} {
      var m := First(keys, descending);
      OrderedFacts(keys - {m}, descending);
      FirstThenRest(m, Ordered(keys - {m}, descending), keys, descending);
    }
  }

  lemma FirstThenRest(m: int, rest: seq<int>, keys: Table, descending: bool)
    requires IsFirst(keys, m, descending) && InOrder(rest, descending) && Elements(rest) == keys - {m}
    ensures InOrder([m] + rest, descending) && Elements([m] + rest) == keys
  {
    forall i | 0 <= i < |rest| ensures Before(m, rest[i], descending) {
      assert rest[i] in Elements(rest);
    }
    assert Elements([m] + rest) == {m} + Elements(rest);
  }

  ghost function Beyond(table: Table, bound: Option<int>, descending: bool): Table {
    set k | k in table && (bound.Some? ==> Before(bound.value, k, descending))
  }

  /** The database's answer. */
  ghost function Answer(table: Table, q: Query): seq<int> {
    var all := Ordered(Beyond(table, q.bound, q.descending), q.descending);
    if |all| <= q.limit then all else all[..q.limit]
  }

  function Limit(p: CursorParams): (n: nat)
    ensures n > 0
  {
    if p.limit <= 0 then DEFAULT_LIMIT else p.limit
  }

  function ToQuery(p: CursorParams): Query {
    Query(p.cursor, !p.isPrev, Limit(p) + 1)
  }

  /** The page that is made of an answer. */
  function PageOf(p: CursorParams, rows: seq<int>): (seq<int>, CursorMeta) {
    var limit := Limit(p);
    var items := if |rows| > limit then rows[..limit] else rows;
    (items, CursorMeta(p.cursor, if |rows| > limit then Some(items[|items| - 1]) else None, limit, |rows| > limit))
  }

  /** One page; one row more than the limit is asked for, to see whether there is another page. */
  method PaginateCursorSelect(exec: Query -> seq<int>, p: CursorParams) returns (items: seq<int>, meta: CursorMeta)
    ensures (items, meta) == PageOf(p, exec(ToQuery(p)))
    ensures meta.limit == (if p.limit > 0 then p.limit else 20) && |items| <= meta.limit && meta.cursor == p.cursor
  {
    var limit := p.limit;
    if limit <= 0 {
      limit := DEFAULT_LIMIT;
    }
    var query := Query(None, true, limit + 1);
    var isDescending := !p.isPrev;
    if p.cursor.Some? {
      query := query.(bound := p.cursor);
    }
    query := query.(descending := isDescending);
    items := exec(query);
    var hasMore := false;
    if |items| > limit {
      hasMore := true;
      items := items[..limit];
    }
    var nextCursor := None;
    if hasMore && |items| > 0 {
      nextCursor := Some(items[|items| - 1]);
    }
    meta := CursorMeta(p.cursor, nextCursor, limit, hasMore);
  }

  // ---------------------------------------------------------------------------
  // Following the cursors.

  /** The pages that a client gets that follows the cursors, when `tables[i]` is the table at the time of page `i`. */
  ghost function Pages(tables: seq<Table>, p: CursorParams): seq<seq<int>> {
    if tables == [] then []
    else
      var (items, meta) := PageOf(p, Answer(tables[0], ToQuery(p)));
      if meta.hasMore then [items] + Pages(tables[1..], p.(cursor := meta.nextCursor)) else [items]
  }

  /** The last page has been reached. */
  ghost predicate Completes(tables: seq<Table>, p: CursorParams) {
    tables != []
    && var meta := PageOf(p, Answer(tables[0], ToQuery(p))).1;
       meta.hasMore ==> Completes(tables[1..], p.(cursor := meta.nextCursor))
  }

  function Joined(pages: seq<seq<int>>): seq<int> {
    if pages == [] then [] else pages[0] + Joined(pages[1..])
  }

  /** The rows that are left for a page and those after it. */
  ghost function Left(table: Table, p: CursorParams): seq<int> {
    Ordered(Beyond(table, p.cursor, !p.isPrev), !p.isPrev)
  }

  /** A page is the first part of the rows that are left, in order. */
  lemma PageFacts(table: Table, p: CursorParams)
    ensures var left := Left(table, p);
            var (items, meta) := PageOf(p, Answer(table, ToQuery(p)));
            && (meta.hasMore <==> |left| > Limit(p)) && items == (if meta.hasMore then left[..Limit(p)] else left)
            && (meta.hasMore ==> items != [] && meta.nextCursor == Some(left[Limit(p) - 1]))
            && InOrder(left, !p.isPrev) && Elements(left) == Beyond(table, p.cursor, !p.isPrev)
  {
    OrderedFacts(Beyond(table, p.cursor, !p.isPrev), !p.isPrev);
    var left, limit := Left(table, p), Limit(p);
    if |left| > limit + 1 {
      assert left[..limit + 1][..limit] == left[..limit];
    }
  }

  /** What a client may ask for: the rows that are smaller than the cursor, or greater for the other direction. */
  predicate IsWanted(table: Table, p: CursorParams, k: int) {
    k in table && (p.cursor.Some? ==> if p.isPrev then k > p.cursor.value else k < p.cursor.value)
  }

  /** The greatest keys come first, or the smallest for the other direction. */
  ghost predicate RunsOneWay(s: seq<int>, isPrev: bool) {
    forall i, j :: 0 <= i < j < |s| ==> if isPrev then s[i] < s[j] else s[i] > s[j]
  }

  /**
   A page has as many of the wanted rows as there are, up to the limit, in order; there is more if and only if more
   than the limit are wanted. The limit is the one that was asked for, and 20 for none.
   */
  lemma PageIsExact(table: Table, p: CursorParams, limit: nat)
    requires limit == if p.limit > 0 then p.limit else 20
    ensures var left, (items, meta) := Left(table, p), PageOf(p, Answer(table, ToQuery(p)));
            && RunsOneWay(left, p.isPrev) && (forall k :: k in left <==> IsWanted(table, p, k))
            && |items| == (if |left| <= limit then |left| else limit) && items == left[..|items|]
            && (meta.hasMore <==> |left| > limit)
            && meta.limit == limit && meta.cursor == p.cursor
            && meta.nextCursor == if |left| > limit then Some(left[limit - 1]) else None
  {
    PageFacts(table, p);
    var left := Left(table, p);
    forall k ensures k in left <==> IsWanted(table, p, k) {
      assert k in left <==> k in Elements(left);
    }
  }

  ghost predicate IsBeyond(k: int, p: CursorParams) {
    p.cursor.Some? ==> Before(p.cursor.value, k, !p.isPrev)
  }

  /** A sequence of keys in strict order, all of them beyond the cursor. */
  ghost predicate ReadsOn(s: seq<int>, p: CursorParams) {
    InOrder(s, !p.isPrev) && forall i :: 0 <= i < |s| ==> IsBeyond(s[i], p)
  }

  /** All pages together are in strict key order, so that no row comes twice. */
  lemma {:induction false} PagesAreOrdered(tables: seq<Table>, p: CursorParams)
    ensures ReadsOn(Joined(Pages(tables, p)), p)
    decreases |tables|
  {
    if tables != [] {
      PageFacts(tables[0], p);
      var left := Left(tables[0], p);
      var (items, meta) := PageOf(p, Answer(tables[0], ToQuery(p)));
      LeftReadsOn(tables[0], p);
      if meta.hasMore {
        var p' := p.(cursor := meta.nextCursor);
        PagesAreOrdered(tables[1..], p');
        JoinedFirst(items, Pages(tables[1..], p'));
        JoinReadsOn(left, Limit(p), Joined(Pages(tables[1..], p')), p, p');
      } else {
        JoinedFirst(items, []);
        assert items + [] == items;
      }
    }
  }

  /** All pages together run down from the cursor, or up from it for the other direction. */
  lemma PagesRunOneWay(tables: seq<Table>, p: CursorParams)
    ensures var s := Joined(Pages(tables, p));
            && RunsOneWay(s, p.isPrev)
            && forall k :: k in s ==> p.cursor.Some? ==> if p.isPrev then k > p.cursor.value else k < p.cursor.value
  {
    PagesAreOrdered(tables, p);
    var s := Joined(Pages(tables, p));
    forall k | k in s ensures p.cursor.Some? ==> if p.isPrev then k > p.cursor.value else k < p.cursor.value {
      var i :| 0 <= i < |s| && s[i] == k;
      assert IsBeyond(s[i], p);
    }
  }

  lemma LeftReadsOn(table: Table, p: CursorParams)
    ensures ReadsOn(Left(table, p), p)
  {
    OrderedFacts(Beyond(table, p.cursor, !p.isPrev), !p.isPrev);
    var left := Left(table, p);
    forall i | 0 <= i < |left| ensures IsBeyond(left[i], p) {
      assert left[i] in Elements(left);
    }
  }

  lemma JoinReadsOn(left: seq<int>, limit: nat, rest: seq<int>, p: CursorParams, p': CursorParams)
    requires ReadsOn(left, p) && 0 < limit <= |left| && p' == p.(cursor := Some(left[limit - 1])) && ReadsOn(rest, p')
    ensures ReadsOn(left[..limit] + rest, p)
  {
    var s := left[..limit] + rest;
    forall i, j | 0 <= i < j < |s| ensures Before(s[i], s[j], !p.isPrev) {
      if i < limit <= j {
        assert IsBeyond(rest[j - limit], p');
        assert i < limit - 1 ==> Before(left[i], left[limit - 1], !p.isPrev);
      }
    }
    forall i | 0 <= i < |s| ensures IsBeyond(s[i], p) {
      assert IsBeyond(left[limit - 1], p);
      assert i >= limit ==> IsBeyond(rest[i - limit], p');
    }
  }

  lemma JoinedFirst(page: seq<int>, pages: seq<seq<int>>)
    ensures Joined([page] + pages) == page + Joined(pages)
  {
    assert ([page] + pages)[1..] == pages;
  }

  /**
   Rows that are there throughout are returned, and returned once, whatever is inserted or deleted between
   the pages; and every row that is returned was there at the time of some page.
   */
  lemma {:induction false} EveryLastingRowIsReturned(tables: seq<Table>, p: CursorParams, k: int)
    requires Completes(tables, p) && IsBeyond(k, p) && forall i :: 0 <= i < |tables| ==> k in tables[i]
    ensures k in Joined(Pages(tables, p)) && multiset(Joined(Pages(tables, p)))[k] == 1
    decreases |tables|
  {
    LastingRowIsReturned(tables, p, k);
    PagesAreOrdered(tables, p);
    OnlyOnce(Joined(Pages(tables, p)), !p.isPrev, k);
  }

  lemma {:induction false} LastingRowIsReturned(tables: seq<Table>, p: CursorParams, k: int)
    requires Completes(tables, p) && IsBeyond(k, p) && forall i :: 0 <= i < |tables| ==> k in tables[i]
    ensures k in Joined(Pages(tables, p))
    decreases |tables|
  {
    PageFacts(tables[0], p);
    var left, limit := Left(tables[0], p), Limit(p);
    var (items, meta) := PageOf(p, Answer(tables[0], ToQuery(p)));
    assert k in tables[0] && k in Elements(left);
    if meta.hasMore {
      var p' := p.(cursor := meta.nextCursor);
      JoinedFirst(items, Pages(tables[1..], p'));
      if k !in items {
        var i :| 0 <= i < |left| && left[i] == k;
        assert forall j :: 0 <= j < limit ==> items[j] == left[j];
        assert Before(left[limit - 1], left[i], !p.isPrev);
        LastingRowIsReturned(tables[1..], p', k);
      }
    } else {
      JoinedFirst(items, []);
    }
  }

  lemma OnlyOnce(s: seq<int>, descending: bool, k: int)
    requires k in s && InOrder(s, descending)
    ensures multiset(s)[k] == 1
  {
    var i :| 0 <= i < |s| && s[i] == k;
    assert s == s[..i] + [k] + s[i + 1..];
    assert k !in s[..i] && k !in s[i + 1..];
    assert multiset(s) == multiset(s[..i]) + multiset{k} + multiset(s[i + 1..]);
  }

  lemma {:induction false} ReturnedRowsWereThere(tables: seq<Table>, p: CursorParams, k: int)
    requires k in Joined(Pages(tables, p))
    ensures exists i :: 0 <= i < |tables| && k in tables[i]
    decreases |tables|
  {
    PageFacts(tables[0], p);
    var (items, meta) := PageOf(p, Answer(tables[0], ToQuery(p)));
    if k in items {
      assert k in Elements(Left(tables[0], p));
      assert k in tables[0];
    } else if meta.hasMore {
      var p' := p.(cursor := meta.nextCursor);
      JoinedFirst(items, Pages(tables[1..], p'));
      ReturnedRowsWereThere(tables[1..], p', k);
      var i :| 0 <= i < |tables[1..]| && k in tables[1..][i];
      assert tables[i + 1] == tables[1..][i];
    } else {
      JoinedFirst(items, []);
    }
  }

  // ---------------------------------------------------------------------------
  // A table that does not change.

  /** The number of pages: the rows divided by the limit, rounded up, and one page at least. */
  function PageCount(rows: nat, limit: nat): nat
    requires limit > 0
  {
    if rows <= limit then 1 else 1 + PageCount(rows - limit, limit)
  }

  lemma OnePageMore(rows: nat, limit: nat)
    requires 0 < limit < rows
    ensures PageCount(rows, limit) == 1 + PageCount(rows - limit, limit)
  {
  }

  lemma {:induction false} PageCountIsCeiling(rows: nat, limit: nat)
    requires limit > 0
    ensures var n := PageCount(rows, limit);
            n >= 1 && rows <= n * limit && (n > 1 ==> (n - 1) * limit < rows)
  {
    if rows > limit {
      PageCountIsCeiling(rows - limit, limit);
      var n := PageCount(rows - limit, limit);
      assert (n + 1) * limit == n * limit + limit;
      assert n > 1 ==> n * limit == (n - 1) * limit + limit;
    }
  }

  ghost function Past(keys: Table, last: int, descending: bool): Table {
    set k | k in keys && Before(last, k, descending)
  }

  /** What is beyond the last key of a page is what was left of the order. */
  lemma {:induction false} OrderedRest(keys: Table, descending: bool, n: nat)
    requires 0 < n <= |Ordered(keys, descending)|
    ensures var s := Ordered(keys, descending);
            Ordered(Past(keys, s[n - 1], descending), descending) == s[n..]
    decreases |keys|
  {
    var m := First(keys, descending);
    var rest := Ordered(keys - {m}, descending);
    if n == 1 {
      assert Past(keys, m, descending) == keys - {m};
    } else {
      OrderedRest(keys - {m}, descending, n - 1);
      OrderedFacts(keys - {m}, descending);
      PastFirst(keys, m, rest, rest[n - 2], descending);
    }
    DropFirst(m, rest, n);
  }

  lemma PastFirst(keys: Table, m: int, rest: seq<int>, k: int, descending: bool)
    requires IsFirst(keys, m, descending) && Elements(rest) == keys - {m} && k in rest
    ensures Past(keys, k, descending) == Past(keys - {m}, k, descending)
  {
    assert k in Elements(rest);
  }

  lemma DropFirst(m: int, rest: seq<int>, n: nat)
    requires 0 < n <= |rest| + 1
    ensures ([m] + rest)[n..] == rest[n - 1..] && ([m] + rest)[n - 1] == if n == 1 then m else rest[n - 2]
  {
  }

  ghost function Same(table: Table, n: nat): (t: seq<Table>)
    ensures |t| == n && forall i :: 0 <= i < n ==> t[i] == table
  {
    seq(n, _ => table)
  }

  /**
   On a table that does not change, the pages are all wanted rows in order, and as many pages as it takes for the limit
   that was asked for, or for 20.
   */
  lemma FixedTable(table: Table, p: CursorParams, limit: nat, n: nat)
    requires limit == if p.limit > 0 then p.limit else 20
    requires n >= PageCount(|Left(table, p)|, limit)
    ensures Completes(Same(table, n), p)
    ensures var pages := Pages(Same(table, n), p);
            && |pages| == PageCount(|Left(table, p)|, limit)
            && RunsOneWay(Joined(pages), p.isPrev) && |Joined(pages)| == |Left(table, p)|
            && forall k :: k in Joined(pages) <==> IsWanted(table, p, k)
  {
    FixedPages(table, p, n);
    PageIsExact(table, p, limit);
  }

  lemma {:induction false} FixedPages(table: Table, p: CursorParams, n: nat)
    requires n >= PageCount(|Left(table, p)|, Limit(p))
    ensures Completes(Same(table, n), p)
    ensures |Pages(Same(table, n), p)| == PageCount(|Left(table, p)|, Limit(p))
    ensures Joined(Pages(Same(table, n), p)) == Left(table, p)
    decreases n
  {
    var left, limit := Left(table, p), Limit(p);
    PagesStep(table, p, n);
    if |left| > limit {
      var p' := p.(cursor := Some(left[limit - 1]));
      LeftReadsOn(table, p);
      NextLeft(table, p, p', left[limit - 1]);
      OrderedRest(Beyond(table, p.cursor, !p.isPrev), !p.isPrev, limit);
      assert Left(table, p') == left[limit..] && |left[limit..]| == |left| - limit;
      OnePageMore(|left|, limit);
      FixedPages(table, p', n - 1);
      CutInTwo(left, limit);
    }
  }

  /** The first page, and those that follow from its cursor. */
  lemma PagesStep(table: Table, p: CursorParams, n: nat)
    requires n > 0
    ensures var left, limit := Left(table, p), Limit(p);
            if |left| > limit then
              var p' := p.(cursor := Some(left[limit - 1]));
              var rest := Pages(Same(table, n - 1), p');
              && (Completes(Same(table, n), p) <==> Completes(Same(table, n - 1), p'))
              && |Pages(Same(table, n), p)| == 1 + |rest|
              && Joined(Pages(Same(table, n), p)) == left[..limit] + Joined(rest)
            else Completes(Same(table, n), p) && |Pages(Same(table, n), p)| == 1 && Joined(Pages(Same(table, n), p)) == left
  {
    PageFacts(table, p);
    NextSame(table, n);
    var left, limit := Left(table, p), Limit(p);
    var (items, meta) := PageOf(p, Answer(table, ToQuery(p)));
    if |left| > limit {
      var p' := p.(cursor := Some(left[limit - 1]));
      assert Pages(Same(table, n), p) == [items] + Pages(Same(table, n - 1), p');
      JoinedFirst(items, Pages(Same(table, n - 1), p'));
    } else {
      assert Pages(Same(table, n), p) == [items] == [items] + [];
      JoinedFirst(items, []);
      assert items + [] == items;
    }
  }

  lemma NextSame(table: Table, n: nat)
    requires n > 0
    ensures Same(table, n)[0] == table && Same(table, n)[1..] == Same(table, n - 1)
  {
  }

  lemma CutInTwo(s: seq<int>, n: nat)
    requires n <= |s|
    ensures s[..n] + s[n..] == s
  {
  }

  lemma NextLeft(table: Table, p: CursorParams, p': CursorParams, last: int)
    requires p' == p.(cursor := Some(last)) && IsBeyond(last, p)
    ensures Beyond(table, p'.cursor, !p.isPrev)
         == Past(Beyond(table, p.cursor, !p.isPrev), last, !p.isPrev)
  {
  }
}
