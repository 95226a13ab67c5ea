/** Runs of pages: following the cursor visits the sorted list slice by slice. */
module Pages {
  import opened Options
  import opened Text
  import opened Objects
  import opened Spec
  import opened Paging

  // ----- one page -----

  /** The matching rows that a page request can return. A token that does not decode filters nothing. */
  function Selected(order: seq<OrderSpec>, matching: seq<Obj>, cursor: Cursor): seq<Obj> {
    if matching == [] then []
    else
      (if cursor.Values?
         ==> RowCompare(CursorFields(order), matching[0], cursor.values, CursorDescends(order)) then [matching[0]]
             else [])
      + Selected(order, matching[1..], cursor)
  }

  /** `t` is a result of ordering `rows` by the columns: the same rows, none before a smaller one. */
  ghost predicate Orders(cols: seq<Column>, rows: seq<Obj>, t: seq<Obj>) {
    && multiset(t) == multiset(rows)
    && forall i, j :: 0 <= i < j < |t| ==> !Before(cols, t[j], t[i])
  }

  /** OFFSET applies only without a cursor. */
  function Offset(page: Option<PageSpec>): nat {
    if page.Some? && page.value.first > 0 && page.value.cursor == NoCursor then page.value.first else 0
  }

  function CursorOf(page: Option<PageSpec>): Cursor {
    if page.Some? then page.value.cursor else NoCursor
  }

  /** `LIMIT n OFFSET k`. */
  function Slice(t: seq<Obj>, k: nat, n: nat): seq<Obj> {
    if k >= |t| then [] else if k + n <= |t| then t[k..k + n] else t[k..]
  }

  /** `rows` is an answer to a page request, whatever order the database gives to equal keys. */
  ghost predicate IsPage(order: seq<OrderSpec>, matching: seq<Obj>, limit: nat, page: Option<PageSpec>,
                         rows: seq<Obj>) {
    exists t :: Orders(OrderColumns(order), Selected(order, matching, CursorOf(page)), t)
      && rows == Slice(t, Offset(page), limit)
  }

  /** No two matching rows have equal sort keys. */
  ghost predicate DistinctKeys(cols: seq<Column>, rows: seq<Obj>) {
    forall i, j :: 0 <= i < j < |rows| ==> Before(cols, rows[i], rows[j]) || Before(cols, rows[j], rows[i])
  }

  /** In strict order. */
  ghost predicate Strict(cols: seq<Column>, t: seq<Obj>) {
    forall i, j :: 0 <= i < j < |t| ==> Before(cols, t[i], t[j])
  }

  // ----- orderings are unique -----

  lemma {:induction false} SelectedMembers(order: seq<OrderSpec>, matching: seq<Obj>, cursor: Cursor, o: Obj)
    ensures o in Selected(order, matching, cursor)
       <==> o in matching
            && (cursor.Values? ==> RowCompare(CursorFields(order), o, cursor.values, CursorDescends(order)))
  {
    hide RowCompare, CursorFields;
    if matching != [] {
      SelectedMembers(order, matching[1..], cursor, o);
      assert o in matching <==> o == matching[0] || o in matching[1..];
    }
  }

  lemma {:induction false} SelectedKeys(order: seq<OrderSpec>, matching: seq<Obj>, cursor: Cursor, cols: seq<Column>)
    requires DistinctKeys(cols, matching)
    ensures DistinctKeys(cols, Selected(order, matching, cursor))
  {
    hide RowCompare, CursorFields, Before;
    if matching != [] {
      var rest := Selected(order, matching[1..], cursor);
      SelectedKeys(order, matching[1..], cursor, cols);
      forall o | o in rest
        ensures Before(cols, matching[0], o) || Before(cols, o, matching[0])
      {
        SelectedMembers(order, matching[1..], cursor, o);
      }
    }
  }

  lemma {:induction false} KeyOnce(cols: seq<Column>, rows: seq<Obj>, o: Obj)
    requires DistinctKeys(cols, rows)
    ensures multiset(rows)[o] <= 1
  {
    if rows != [] {
      KeyOnce(cols, rows[1..], o);
      assert rows == [rows[0]] + rows[1..];
      if o == rows[0] {
        BeforeIrreflexive(cols, o);
        assert o !in rows[1..];
      }
    }
  }

  lemma Twice(t: seq<Obj>, i: nat, j: nat)
    requires i < j < |t| && t[i] == t[j]
    ensures multiset(t)[t[i]] >= 2
  {
    assert t == t[..j] + t[j..];
    assert t[i] in t[..j] && t[i] in t[j..];
  }

  /** Ordering rows with distinct keys leaves no choice of direction between any two of them. */
  lemma OrdersStrictly(cols: seq<Column>, rows: seq<Obj>, t: seq<Obj>)
    requires Orders(cols, rows, t) && DistinctKeys(cols, rows)
    ensures Strict(cols, t)
  {
    hide Before;
    forall i, j | 0 <= i < j < |t|
      ensures Before(cols, t[i], t[j])
    {
      assert t[i] in multiset(rows) && t[j] in multiset(rows);
      var x :| 0 <= x < |rows| && rows[x] == t[i];
      var y :| 0 <= y < |rows| && rows[y] == t[j];
      if x == y {
        Twice(t, i, j);
        KeyOnce(cols, rows, t[i]);
      }
    }
  }

  lemma {:induction false} StrictUnique(cols: seq<Column>, a: seq<Obj>, b: seq<Obj>)
    requires Strict(cols, a) && Strict(cols, b) && forall o :: o in a <==> o in b
    ensures a == b
    decreases |a|
  {
    hide Before;
    assert a != [] ==> a[0] in b;
    assert b != [] ==> b[0] in a;
    if a != [] && b != [] {
      var i :| 0 <= i < |b| && b[i] == a[0];
      var j :| 0 <= j < |a| && a[j] == b[0];
      BeforeIrreflexive(cols, a[0]);
      if i != 0 {
        BeforeAsymmetric(cols, b[0], a[0]);
        assert false;
      }
      assert a[0] !in a[1..] && b[0] !in b[1..];
      forall o
        ensures o in a[1..] <==> o in b[1..]
      {
        assert o in a <==> o == a[0] || o in a[1..];
        assert o in b <==> o == b[0] || o in b[1..];
      }
      StrictUnique(cols, a[1..], b[1..]);
      assert a == [a[0]] + a[1..] && b == [b[0]] + b[1..];
    }
  }

  lemma OrdersMembers(cols: seq<Column>, rows: seq<Obj>, t: seq<Obj>, o: Obj)
    requires Orders(cols, rows, t)
    ensures o in t <==> o in rows
  {
    assert o in t <==> o in multiset(t);
    assert o in rows <==> o in multiset(rows);
  }

  // ----- the next page -----

  /** What paging needs: text columns with one direction, and distinct keys. */
  ghost predicate Pageable(order: seq<OrderSpec>, matching: seq<Obj>) {
    && TextOrder(order)
    && Uniform(OrderColumns(order), CursorDescends(order))
    && DistinctKeys(OrderColumns(order), matching)
  }

  /** The rows after a token are, in order, the rest of the sorted list. */
  lemma RestAfterToken(order: seq<OrderSpec>, matching: seq<Obj>, sorted: seq<Obj>, k: nat, t: seq<Obj>)
    requires Pageable(order, matching) && Orders(OrderColumns(order), matching, sorted) && k < |sorted|
    requires Orders(OrderColumns(order), Selected(order, matching, Values(TokenOf(sorted[k]))), t)
    ensures t == sorted[k + 1..]
  {
    var cols := OrderColumns(order);
    var cursor := Values(TokenOf(sorted[k]));
    hide OrderColumns, Selected, TokenOf, RowCompare, CursorFields, Before, Uniform;
    OrdersStrictly(cols, matching, sorted);
    SelectedKeys(order, matching, cursor, cols);
    OrdersStrictly(cols, Selected(order, matching, cursor), t);
    forall o
      ensures o in t <==> o in sorted[k + 1..]
    {
      OrdersMembers(cols, Selected(order, matching, cursor), t, o);
      SelectedMembers(order, matching, cursor, o);
      OrdersMembers(cols, matching, sorted, o);
      CursorIsAfter(order, o, sorted[k]);
      LaterInList(cols, sorted, k, o);
    }
    StrictUnique(cols, t, sorted[k + 1..]);
  }

  lemma LaterInList(cols: seq<Column>, sorted: seq<Obj>, k: nat, o: Obj)
    requires Strict(cols, sorted) && k < |sorted|
    ensures o in sorted && Before(cols, sorted[k], o) <==> o in sorted[k + 1..]
  {
    hide Before;
    if o in sorted && Before(cols, sorted[k], o) {
      var i :| 0 <= i < |sorted| && sorted[i] == o;
      BeforeIrreflexive(cols, o);
      if i < k {
        BeforeAsymmetric(cols, sorted[i], sorted[k]);
        assert false;
      }
      assert sorted[k + 1..][i - k - 1] == o;
    }
    if o in sorted[k + 1..] {
      var i :| 0 <= i < |sorted[k + 1..]| && sorted[k + 1..][i] == o;
      assert sorted[k + 1 + i] == o;
    }
  }

  // ----- runs -----

  /** A client's run: the first page without a cursor, each next one with the token of the last row
      of the page before. */
  ghost predicate IsRun(order: seq<OrderSpec>, matching: seq<Obj>, limit: nat, pages: seq<seq<Obj>>) {
    && (pages != [] ==> IsPage(order, matching, limit, None, pages[0]))
    && (forall i, j :: 0 <= i && j == i + 1 && j < |pages| ==> Continues(order, matching, limit, pages[i], pages[j]))
  }

  /** `next` answers the request with the token of the last row of `page`. */
  ghost predicate Continues(order: seq<OrderSpec>, matching: seq<Obj>, limit: nat, page: seq<Obj>, next: seq<Obj>) {
    page != [] && IsPage(order, matching, limit, Some(PageSpec(0, Values(TokenOf(page[|page| - 1])))), next)
  }

  /** Where the `k`-th page starts, counted page by page. */
  function Start(k: nat, limit: nat): nat {
    if k == 0 then 0 else Start(k - 1, limit) + limit
  }

  lemma {:induction false} StartIsProduct(k: nat, limit: nat)
    ensures Start(k, limit) == k * limit
  {
    if k > 0 {
      StartIsProduct(k - 1, limit);
      assert (k - 1) * limit + limit == k * limit;
    }
  }

  lemma FirstPage(order: seq<OrderSpec>, matching: seq<Obj>, limit: nat, sorted: seq<Obj>, first: nat, rows: seq<Obj>)
    requires Pageable(order, matching) && Orders(OrderColumns(order), matching, sorted)
    requires IsPage(order, matching, limit, Some(PageSpec(first, NoCursor)), rows)
    ensures rows == Slice(sorted, first, limit)
  {
    var cols := OrderColumns(order);
    hide OrderColumns, Before, Uniform, Slice;
    var page := Some(PageSpec(first, NoCursor));
    var t :| Orders(cols, Selected(order, matching, CursorOf(page)), t) && rows == Slice(t, Offset(page), limit);
    SelectedAll(order, matching);
    OrdersStrictly(cols, matching, sorted);
    OrdersStrictly(cols, matching, t);
    forall o
      ensures o in t <==> o in sorted
    {
      OrdersMembers(cols, matching, t, o);
      OrdersMembers(cols, matching, sorted, o);
    }
    StrictUnique(cols, t, sorted);
  }

  lemma {:induction false} SelectedAll(order: seq<OrderSpec>, matching: seq<Obj>)
    ensures Selected(order, matching, NoCursor) == matching
  {
    if matching != [] {
      SelectedAll(order, matching[1..]);
    }
  }

  lemma NextPage(order: seq<OrderSpec>, matching: seq<Obj>, limit: nat, sorted: seq<Obj>, k: nat, rows: seq<Obj>)
    requires Pageable(order, matching) && Orders(OrderColumns(order), matching, sorted) && k < |sorted|
    requires IsPage(order, matching, limit, Some(PageSpec(0, Values(TokenOf(sorted[k])))), rows)
    ensures rows == Slice(sorted, k + 1, limit)
  {
    var cols := OrderColumns(order);
    hide OrderColumns, Selected, TokenOf, Pageable, Orders;
    var page := Some(PageSpec(0, Values(TokenOf(sorted[k]))));
    var t :| Orders(cols, Selected(order, matching, CursorOf(page)), t) && rows == Slice(t, Offset(page), limit);
    RestAfterToken(order, matching, sorted, k, t);
  }

  lemma PageOne(order: seq<OrderSpec>, matching: seq<Obj>, limit: nat, rows: seq<Obj>)
    requires IsPage(order, matching, limit, None, rows)
    ensures IsPage(order, matching, limit, Some(PageSpec(0, NoCursor)), rows)
  {
    hide Orders, OrderColumns, Selected;
    var t :| Orders(OrderColumns(order), Selected(order, matching, CursorOf(None)), t)
             && rows == Slice(t, Offset(None), limit);
    assert Orders(OrderColumns(order), Selected(order, matching, CursorOf(Some(PageSpec(0, NoCursor)))), t);
  }

  lemma NextSlice(order: seq<OrderSpec>, matching: seq<Obj>, limit: nat, sorted: seq<Obj>, at: nat, page: seq<Obj>,
                  next: seq<Obj>)
    requires Pageable(order, matching) && Orders(OrderColumns(order), matching, sorted) && limit > 0
    requires page == Slice(sorted, at, limit) && Continues(order, matching, limit, page, next)
    ensures next == Slice(sorted, at + limit, limit)
  {
    hide OrderColumns, Pageable, Orders, IsPage, TokenOf;
    var last := at + |page| - 1;
    assert sorted[last] == page[|page| - 1];
    NextPage(order, matching, limit, sorted, last, next);
  }

  lemma {:induction false} PageAtStart(order: seq<OrderSpec>, matching: seq<Obj>, limit: nat, sorted: seq<Obj>,
                                       pages: seq<seq<Obj>>, k: nat)
    requires Pageable(order, matching) && Orders(OrderColumns(order), matching, sorted) && limit > 0
    requires IsRun(order, matching, limit, pages) && k < |pages|
    ensures pages[k] == Slice(sorted, Start(k, limit), limit)
  {
    hide OrderColumns, Pageable, Orders, IsPage, Slice, Continues;
    if k == 0 {
      PageOne(order, matching, limit, pages[0]);
      FirstPage(order, matching, limit, sorted, 0, pages[0]);
    } else {
      PageAtStart(order, matching, limit, sorted, pages, k - 1);
      assert Continues(order, matching, limit, pages[k - 1], pages[k]);
      NextSlice(order, matching, limit, sorted, Start(k - 1, limit), pages[k - 1], pages[k]);
    }
  }

  /** The k-th page of a cursor run is what OFFSET k * limit LIMIT limit returns without a cursor. */
  lemma CursorPageIsOffsetPage(order: seq<OrderSpec>, matching: seq<Obj>, limit: nat, pages: seq<seq<Obj>>, k: nat,
                               rows: seq<Obj>)
    requires Pageable(order, matching) && limit > 0 && IsRun(order, matching, limit, pages) && k < |pages|
    requires IsPage(order, matching, limit, Some(PageSpec(k * limit, NoCursor)), rows)
    ensures pages[k] == rows
  {
    hide OrderColumns, Pageable, Slice, IsRun;
    var page := Some(PageSpec(k * limit, NoCursor));
    var t :| Orders(OrderColumns(order), Selected(order, matching, CursorOf(page)), t)
             && rows == Slice(t, Offset(page), limit);
    SelectedAll(order, matching);
    PageAtStart(order, matching, limit, t, pages, k);
    StartIsProduct(k, limit);
  }

  function Concat(pages: seq<seq<Obj>>): seq<Obj> {
    if pages == [] then [] else Concat(pages[..|pages| - 1]) + pages[|pages| - 1]
  }

  lemma {:induction false} ConcatSlices(sorted: seq<Obj>, limit: nat, pages: seq<seq<Obj>>)
    requires forall k :: 0 <= k < |pages| ==> pages[k] == Slice(sorted, Start(k, limit), limit)
    ensures Concat(pages) == Slice(sorted, 0, Start(|pages|, limit))
  {
    if pages != [] {
      hide Slice;
      var n := |pages| - 1;
      ConcatSlices(sorted, limit, pages[..n]);
      SlicesJoin(sorted, Start(n, limit), limit);
    } else {
      assert Slice(sorted, 0, 0) == [];
    }
  }

  lemma SlicesJoin(t: seq<Obj>, k: nat, n: nat)
    ensures Slice(t, 0, k) + Slice(t, k, n) == Slice(t, 0, k + n)
  {
  }

  lemma ShortIsLast(t: seq<Obj>, k: nat, n: nat)
    requires |Slice(t, k, n)| < n
    ensures Slice(t, 0, k + n) == t
  {
  }

  /** A run that ends with a short page has visited every matching row exactly once, in order. */
  lemma RunVisitsAll(order: seq<OrderSpec>, matching: seq<Obj>, limit: nat, sorted: seq<Obj>, pages: seq<seq<Obj>>)
    requires Pageable(order, matching) && Orders(OrderColumns(order), matching, sorted) && limit > 0
    requires IsRun(order, matching, limit, pages) && pages != [] && |pages[|pages| - 1]| < limit
    ensures Concat(pages) == sorted
  {
    hide OrderColumns, Pageable, Orders, IsRun, Slice;
    var n := |pages| - 1;
    forall k | 0 <= k < |pages|
      ensures pages[k] == Slice(sorted, Start(k, limit), limit)
    {
      PageAtStart(order, matching, limit, sorted, pages, k);
    }
    ConcatSlices(sorted, limit, pages);
    ShortIsLast(sorted, Start(n, limit), limit);
  }

  /** A run of full pages is no longer than the list allows, so after at most `|sorted| / limit` of them a
      short page comes. */
  lemma FullPagesBounded(order: seq<OrderSpec>, matching: seq<Obj>, limit: nat, sorted: seq<Obj>,
                         pages: seq<seq<Obj>>)
    requires Pageable(order, matching) && Orders(OrderColumns(order), matching, sorted) && limit > 0
    requires IsRun(order, matching, limit, pages) && forall k :: 0 <= k < |pages| ==> |pages[k]| == limit
    ensures |pages| * limit <= |sorted| && |pages| <= |sorted| / limit
  {
    hide OrderColumns, Pageable, Orders, IsRun;
    if pages != [] {
      var n := |pages| - 1;
      PageAtStart(order, matching, limit, sorted, pages, n);
      assert Start(n, limit) + limit <= |sorted|;
    }
    StartIsProduct(|pages|, limit);
    Fits(|pages|, limit, |sorted|);
  }

  lemma Fits(n: nat, limit: nat, size: nat)
    requires n * limit <= size && limit > 0
    ensures n <= size / limit
  {
    assert size < (size / limit + 1) * limit;
    FewerFit(n, size / limit + 1, limit);
  }

  lemma FewerFit(n: nat, m: nat, limit: nat)
    requires n * limit < m * limit
    ensures n < m
  {
  }

  /** The pages that a run goes through. */
  function Slices(sorted: seq<Obj>, limit: nat, n: nat): (pages: seq<seq<Obj>>)
    ensures |pages| == n && forall k :: 0 <= k < n ==> pages[k] == Slice(sorted, Start(k, limit), limit)
  {
    if n == 0 then [] else Slices(sorted, limit, n - 1) + [Slice(sorted, Start(n - 1, limit), limit)]
  }

  lemma SliceContinues(order: seq<OrderSpec>, matching: seq<Obj>, limit: nat, sorted: seq<Obj>, at: nat)
    requires Pageable(order, matching) && Orders(OrderColumns(order), matching, sorted) && limit > 0
    requires at + limit <= |sorted|
    ensures Continues(order, matching, limit, Slice(sorted, at, limit), Slice(sorted, at + limit, limit))
  {
    hide OrderColumns, IsPage, TokenOf, Before, Uniform, TextOrder;
    OrdersStrictly(OrderColumns(order), matching, sorted);
    var last := at + limit - 1;
    assert Slice(sorted, at, limit)[limit - 1] == sorted[last];
    StrictBoundaryPage(order, matching, limit, sorted, last);
  }

  lemma FirstSlice(order: seq<OrderSpec>, matching: seq<Obj>, limit: nat, sorted: seq<Obj>)
    requires Orders(OrderColumns(order), matching, sorted)
    ensures IsPage(order, matching, limit, None, Slice(sorted, 0, limit))
  {
    hide OrderColumns, Slice;
    SelectedAll(order, matching);
    assert Orders(OrderColumns(order), Selected(order, matching, CursorOf(None)), sorted);
  }

  lemma {:induction false} StartGrows(a: nat, b: nat, limit: nat)
    requires a <= b
    ensures Start(a, limit) <= Start(b, limit)
    decreases b
  {
    if a < b {
      StartGrows(a, b - 1, limit);
    }
  }

  lemma StartSteps(k: nat, limit: nat)
    ensures Start(0, limit) == 0 && Start(k + 1, limit) == Start(k, limit) + limit
  {
  }

  lemma LastStart(size: nat, limit: nat)
    requires limit > 0
    ensures Start(size / limit, limit) <= size < Start(size / limit, limit) + limit
  {
    hide Start;
    StartIsProduct(size / limit, limit);
  }

  lemma ShortSlice(t: seq<Obj>, k: nat, n: nat)
    requires |t| < k + n && n > 0
    ensures |Slice(t, k, n)| < n
  {
  }

  /** Following the cursor can always go on to the end: there is a run of `|sorted| / limit + 1` pages, and
      its last page is short. */
  lemma RunReachesEnd(order: seq<OrderSpec>, matching: seq<Obj>, limit: nat, sorted: seq<Obj>, n: nat)
    requires limit > 0 && n == |sorted| / limit
    requires Pageable(order, matching) && Orders(OrderColumns(order), matching, sorted)
    ensures IsRun(order, matching, limit, Slices(sorted, limit, n + 1)) && |Slices(sorted, limit, n + 1)[n]| < limit
  {
    hide OrderColumns, Pageable, Orders, Continues, IsPage, Slices, Slice, Start;
    var pages := Slices(sorted, limit, n + 1);
    LastStart(|sorted|, limit);
    ShortSlice(sorted, Start(n, limit), limit);
    StartSteps(0, limit);
    FirstSlice(order, matching, limit, sorted);
    forall i, j | 0 <= i && j == i + 1 && j < |pages|
      ensures Continues(order, matching, limit, pages[i], pages[j])
    {
      StartGrows(j, n, limit);
      StartSteps(i, limit);
      SliceContinues(order, matching, limit, sorted, Start(i, limit));
    }
  }

  // ----- ties and keys -----

  /** A row that does not sort after the row a token was taken from is not on the page of that token. */
  lemma TiesAreSkipped(order: seq<OrderSpec>, matching: seq<Obj>, limit: nat, last: Obj, o: Obj, rows: seq<Obj>)
    requires TextOrder(order) && Uniform(OrderColumns(order), CursorDescends(order))
    requires IsPage(order, matching, limit, Some(PageSpec(0, Values(TokenOf(last)))), rows)
    requires !Before(OrderColumns(order), last, o)
    ensures o !in rows
  {
    var cols := OrderColumns(order);
    hide OrderColumns, Selected, TokenOf, Before, Uniform, RowCompare, CursorFields;
    var page := Some(PageSpec(0, Values(TokenOf(last))));
    var t :| Orders(cols, Selected(order, matching, CursorOf(page)), t) && rows == Slice(t, Offset(page), limit);
    OrdersMembers(cols, Selected(order, matching, CursorOf(page)), t, o);
    SelectedMembers(order, matching, CursorOf(page), o);
    CursorIsAfter(order, o, last);
  }

  /** In a run every row of a later page sorts after the last row of an earlier one. */
  lemma {:induction false} LaterPagesAfter(order: seq<OrderSpec>, matching: seq<Obj>, limit: nat, pages: seq<seq<Obj>>,
                                           k: nat, m: nat, o: Obj)
    requires TextOrder(order) && Uniform(OrderColumns(order), CursorDescends(order))
    requires IsRun(order, matching, limit, pages) && k < m < |pages| && o in pages[m]
    ensures pages[k] != [] && Before(OrderColumns(order), pages[k][|pages[k]| - 1], o)
    decreases m
  {
    var cols := OrderColumns(order);
    hide OrderColumns, TokenOf, Before, Uniform, TextOrder, IsPage;
    assert Continues(order, matching, limit, pages[m - 1], pages[m]);
    var last := pages[m - 1][|pages[m - 1]| - 1];
    if !Before(cols, last, o) {
      TiesAreSkipped(order, matching, limit, last, o, pages[m]);
    }
    if k < m - 1 {
      assert last in pages[m - 1];
      LaterPagesAfter(order, matching, limit, pages, k, m - 1, last);
      BeforeAsymmetric(cols, last, o);
      BeforeWeak(cols, pages[k][|pages[k]| - 1], last, o);
    }
  }

  /** A row tied with the last row of a page, and not on that page, is on no later page of the run: without
      distinct keys a page boundary inside a tie loses rows for good. */
  lemma TiesNeverReturn(order: seq<OrderSpec>, matching: seq<Obj>, limit: nat, pages: seq<seq<Obj>>, k: nat, m: nat,
                        o: Obj)
    requires TextOrder(order) && Uniform(OrderColumns(order), CursorDescends(order))
    requires IsRun(order, matching, limit, pages) && k < m < |pages| && pages[k] != []
    requires !Before(OrderColumns(order), pages[k][|pages[k]| - 1], o)
    ensures o !in pages[m]
  {
    hide OrderColumns, Before, Uniform, TextOrder, IsRun;
    if o in pages[m] {
      LaterPagesAfter(order, matching, limit, pages, k, m, o);
    }
  }

  /** A row passes the filter of a request. */
  predicate PassesCursor(order: seq<OrderSpec>, cursor: Cursor, o: Obj) {
    cursor.Values? ==> RowCompare(CursorFields(order), o, cursor.values, CursorDescends(order))
  }

  lemma {:induction false} SelectedCount(order: seq<OrderSpec>, matching: seq<Obj>, cursor: Cursor, o: Obj)
    ensures multiset(Selected(order, matching, cursor))[o] ==
            if PassesCursor(order, cursor, o) then multiset(matching)[o] else 0
  {
    hide RowCompare, CursorFields;
    if matching != [] {
      SelectedCount(order, matching[1..], cursor, o);
      assert matching == [matching[0]] + matching[1..];
    }
  }

  lemma SelectedPermutes(order: seq<OrderSpec>, a: seq<Obj>, b: seq<Obj>, cursor: Cursor)
    requires multiset(a) == multiset(b)
    ensures multiset(Selected(order, a, cursor)) == multiset(Selected(order, b, cursor))
  {
    hide Selected, PassesCursor;
    forall o
      ensures multiset(Selected(order, a, cursor))[o] == multiset(Selected(order, b, cursor))[o]
    {
      SelectedCount(order, a, cursor, o);
      SelectedCount(order, b, cursor, o);
    }
  }

  lemma {:induction false} SelectedSuffix(order: seq<OrderSpec>, t: seq<Obj>, cursor: Cursor, k: nat)
    requires k <= |t| && forall i :: 0 <= i < |t| ==> (PassesCursor(order, cursor, t[i]) <==> k <= i)
    ensures Selected(order, t, cursor) == t[k..]
  {
    hide RowCompare, CursorFields;
    if t != [] {
      var tail := t[1..];
      assert forall i :: 0 <= i < |tail| ==> tail[i] == t[i + 1];
      SelectedSuffix(order, tail, cursor, if k == 0 then 0 else k - 1);
      assert PassesCursor(order, cursor, t[0]) <==> k == 0;
      if k == 0 {
        assert tail[0..] == tail && t == [t[0]] + tail;
      } else {
        assert tail[k - 1..] == t[k..];
      }
    }
  }

  /** The order is weak: a row not before `b` is after everything that is before `b`. */
  lemma {:induction false} BeforeWeak(cols: seq<Column>, a: Obj, b: Obj, c: Obj)
    requires Before(cols, a, b) && !Before(cols, c, b)
    ensures Before(cols, a, c)
  {
    var x, y, z := Value(a, cols[0].field), Value(b, cols[0].field), Value(c, cols[0].field);
    LessTotal(y, z);
    LessIrreflexive(x);
    if x == y && y == z {
      BeforeWeak(cols[1..], a, b, c);
    } else if x != y && y != z {
      if cols[0].descending {
        LessTransitive(z, y, x);
      } else {
        LessTransitive(x, y, z);
      }
    }
  }

  lemma StrictBoundary(order: seq<OrderSpec>, sorted: seq<Obj>, k: nat)
    requires TextOrder(order) && Uniform(OrderColumns(order), CursorDescends(order)) && k < |sorted|
    requires forall i, j :: 0 <= i < j < |sorted| ==> !Before(OrderColumns(order), sorted[j], sorted[i])
    requires k + 1 == |sorted| || Before(OrderColumns(order), sorted[k], sorted[k + 1])
    ensures Selected(order, sorted, Values(TokenOf(sorted[k]))) == sorted[k + 1..]
  {
    var cols := OrderColumns(order);
    hide OrderColumns, TokenOf, RowCompare, CursorFields, Before, Uniform, Selected;
    var cursor := Values(TokenOf(sorted[k]));
    forall i | 0 <= i < |sorted|
      ensures PassesCursor(order, cursor, sorted[i]) <==> k + 1 <= i
    {
      CursorIsAfter(order, sorted[i], sorted[k]);
      BeforeIrreflexive(cols, sorted[k]);
      if k + 1 < i {
        BeforeWeak(cols, sorted[k], sorted[k + 1], sorted[i]);
      }
    }
    SelectedSuffix(order, sorted, cursor, k + 1);
  }

  lemma RestInOrder(cols: seq<Column>, sorted: seq<Obj>, k: nat, rows: seq<Obj>)
    requires k <= |sorted| && (forall i, j :: 0 <= i < j < |sorted| ==> !Before(cols, sorted[j], sorted[i]))
    requires multiset(rows) == multiset(sorted[k..])
    ensures Orders(cols, rows, sorted[k..])
  {
    hide Before;
  }

  lemma StrictBoundaryPage(order: seq<OrderSpec>, matching: seq<Obj>, limit: nat, sorted: seq<Obj>, k: nat)
    requires TextOrder(order) && Uniform(OrderColumns(order), CursorDescends(order))
    requires Orders(OrderColumns(order), matching, sorted) && k < |sorted|
    requires k + 1 == |sorted| || Before(OrderColumns(order), sorted[k], sorted[k + 1])
    ensures IsPage(order, matching, limit, Some(PageSpec(0, Values(TokenOf(sorted[k])))), Slice(sorted, k + 1, limit))
  {
    hide OrderColumns, TokenOf, Before, Uniform, Selected, TextOrder;
    var page := Some(PageSpec(0, Values(TokenOf(sorted[k]))));
    StrictBoundary(order, sorted, k);
    SelectedPermutes(order, matching, sorted, CursorOf(page));
    RestInOrder(OrderColumns(order), sorted, k + 1, Selected(order, matching, CursorOf(page)));
    assert Slice(sorted, k + 1, limit) == Slice(sorted[k + 1..], Offset(page), limit);
  }

  /** Following a cursor from row `k` of the sorted list can return what OFFSET k + 1 returns exactly
      when the boundary does not cut a tie: row `k` is the last one or sorts strictly before the next. */
  lemma BoundaryExact(order: seq<OrderSpec>, matching: seq<Obj>, limit: nat, sorted: seq<Obj>, k: nat)
    requires TextOrder(order) && Uniform(OrderColumns(order), CursorDescends(order)) && limit > 0
    requires Orders(OrderColumns(order), matching, sorted) && k < |sorted|
    ensures IsPage(order, matching, limit, Some(PageSpec(0, Values(TokenOf(sorted[k])))), Slice(sorted, k + 1, limit))
       <==> k + 1 == |sorted| || Before(OrderColumns(order), sorted[k], sorted[k + 1])
  {
    var cols := OrderColumns(order);
    var page := Some(PageSpec(0, Values(TokenOf(sorted[k]))));
    hide OrderColumns, TokenOf, Before, Uniform, Selected;
    if k + 1 == |sorted| || Before(cols, sorted[k], sorted[k + 1]) {
      hide IsPage, Orders, Slice;
      StrictBoundaryPage(order, matching, limit, sorted, k);
    } else {
      assert Slice(sorted, k + 1, limit)[0] == sorted[k + 1];
      if IsPage(order, matching, limit, page, Slice(sorted, k + 1, limit)) {
        TiesAreSkipped(order, matching, limit, sorted[k], sorted[k + 1], Slice(sorted, k + 1, limit));
      }
    }
  }

  /** The unique index on objects: cluster, group, kind, namespace and name identify a row. */
  ghost predicate UniqueIndex(rows: seq<Obj>) {
    forall i, j :: 0 <= i < j < |rows| ==>
      rows[i].cluster != rows[j].cluster || rows[i].apiGroup != rows[j].apiGroup || rows[i].kind != rows[j].kind
      || rows[i].namespace != rows[j].namespace || rows[i].name != rows[j].name
  }

  lemma {:induction false} DifferentFieldDecides(cols: seq<Column>, i: nat, a: Obj, b: Obj)
    requires i < |cols| && Value(a, cols[i].field) != Value(b, cols[i].field)
    ensures Before(cols, a, b) || Before(cols, b, a)
  {
    hide Value;
    var x, y := Value(a, cols[0].field), Value(b, cols[0].field);
    if x == y {
      DifferentFieldDecides(cols[1..], i - 1, a, b);
    } else {
      LessTotal(x, y);
    }
  }

  lemma MentionedDecides(cols: seq<Column>, field: string, a: Obj, b: Obj)
    requires Mentions(cols, field) && Value(a, field) != Value(b, field)
    ensures Before(cols, a, b) || Before(cols, b, a)
  {
    var i :| 0 <= i < |cols| && cols[i].field == field;
    DifferentFieldDecides(cols, i, a, b);
  }

  lemma TiebreakersMentioned(order: seq<OrderSpec>, field: string)
    ensures Mentions(OrderColumns(order), "namespace") && Mentions(OrderColumns(order), "name")
    ensures Mentions(Requested(order), field) ==> Mentions(OrderColumns(order), field)
  {
    if order == [] {
      assert OrderColumns(order)[0].field == "name" && OrderColumns(order)[1].field == "namespace";
    } else {
      var r := Requested(order);
      var s := WithTiebreaker(r, "namespace");
      StillMentions(r, "namespace", field);
      StillMentions(s, "name", field);
      StillMentions(s, "name", "namespace");
    }
  }

  /** Listing cluster, group and kind makes the sort keys distinct on every set of stored rows. */
  lemma FullKeyIsDistinct(order: seq<OrderSpec>, rows: seq<Obj>)
    requires UniqueIndex(rows)
    requires Mentions(Requested(order), "cluster") && Mentions(Requested(order), "apiGroup")
             && Mentions(Requested(order), "kind")
    ensures DistinctKeys(OrderColumns(order), rows)
  {
    var cols := OrderColumns(order);
    hide OrderColumns, Mentions, Before;
    TiebreakersMentioned(order, "cluster");
    TiebreakersMentioned(order, "apiGroup");
    TiebreakersMentioned(order, "kind");
    forall i, j | 0 <= i < j < |rows|
      ensures Before(cols, rows[i], rows[j]) || Before(cols, rows[j], rows[i])
    {
      var a, b := rows[i], rows[j];
      var field := if a.cluster != b.cluster then "cluster" else if a.apiGroup != b.apiGroup then "apiGroup"
                   else if a.kind != b.kind then "kind" else if a.namespace != b.namespace then "namespace" else "name";
      MentionedDecides(cols, field, a, b);
    }
  }

  // ----- what the order means for the rows -----

  /** Row `a` may come before row `b`: on the first requested field on which they differ, `a` has the smaller
      value, or the greater one if `desc` is requested for it. */
  ghost predicate InOrder(order: seq<OrderSpec>, a: Obj, b: Obj) {
    forall k :: 0 <= k < |order| && AgreeBelow(order, k, a, b) ==>
      var x, y := Value(a, order[k].field), Value(b, order[k].field);
      if order[k].direction == Desc then !Less(x, y) else !Less(y, x)
  }

  ghost predicate AgreeBelow(order: seq<OrderSpec>, k: nat, a: Obj, b: Obj)
    requires k <= |order|
  {
    forall m :: 0 <= m < k ==> Value(a, order[m].field) == Value(b, order[m].field)
  }

  /** Ordered rows come in the requested order. */
  lemma SortedAsAsked(order: seq<OrderSpec>, rows: seq<Obj>, t: seq<Obj>, i: nat, j: nat)
    requires Orders(OrderColumns(order), rows, t) && i < j < |t|
    ensures InOrder(order, t[i], t[j])
  {
    var cols := OrderColumns(order);
    hide OrderColumns, Value, Before, Less;
    OrderAsAsked(order);
    forall k: nat | k < |order| && AgreeBelow(order, k, t[i], t[j])
      ensures var x, y := Value(t[i], order[k].field), Value(t[j], order[k].field);
        if order[k].direction == Desc then !Less(x, y) else !Less(y, x)
    {
      var x, y := Value(t[i], order[k].field), Value(t[j], order[k].field);
      if (if order[k].direction == Desc then Less(x, y) else Less(y, x)) {
        DecidedAt(cols, t[j], t[i], k);
      }
    }
  }

  lemma DecidedAt(cols: seq<Column>, a: Obj, b: Obj, k: nat)
    requires k < |cols| && Decides(cols, a, b, k)
    ensures Before(cols, a, b)
  {
    hide Before, Decides;
    BeforeMeans(cols, a, b);
  }
}
