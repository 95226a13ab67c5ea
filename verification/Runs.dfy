/** Clients that follow the cursor: a sequence of responses is a run of pages. */
module Runs {
  import opened Options
  import opened Objects
  import opened Spec
  import opened Filters
  import opened Assembly
  import opened Paging
  import opened Pages
  import opened Engine
  import opened RootQuery

  /** A request, the rows its SQL returned, and the response. */
  datatype Exchange = Exchange(q: QuerySpec, rows: seq<Row>, status: QueryStatus)

  /** The second request is the first with the cursor of its response as page token. */
  ghost predicate FollowsCursor(a: Exchange, b: Exchange) {
    a.status.cursor.Some?
    && exists first :: b.q == a.q.(page := Some(PageSpec(first, Values(a.status.cursor.value.next))))
  }

  /** A client asks for the first page with a cursor, and then follows the cursor from response to response. */
  ghost predicate Conversation(es: seq<Exchange>, objects: seq<Obj>, cat: Catalog) {
    && es != [] && es[0].q.page == None && es[0].q.wantCursor
    && (forall i :: 0 <= i < |es|
          ==> es[i].q.limit > 0 && FlatResponse(es[i].q, objects, cat, es[i].rows, es[i].status))
    && (forall i, j :: 0 <= i && j == i + 1 && j < |es| ==> FollowsCursor(es[i], es[j]))
  }

  function PagesOf(es: seq<Exchange>): (pages: seq<seq<Obj>>)
    ensures |pages| == |es| && forall i :: 0 <= i < |es| ==> pages[i] == ObjectsOf(es[i].rows)
  {
    if es == [] then [] else PagesOf(es[..|es| - 1]) + [ObjectsOf(es[|es| - 1].rows)]
  }

  lemma {:induction false} SameQuery(es: seq<Exchange>, objects: seq<Obj>, cat: Catalog, i: nat)
    requires Conversation(es, objects, cat) && i < |es|
    ensures es[i].q == es[0].q.(page := es[i].q.page)
    ensures Matching(es[i].q, objects, cat) == Matching(es[0].q, objects, cat)
  {
    if i > 0 {
      hide Matching, FlatResponse;
      SameQuery(es, objects, cat, i - 1);
      assert FollowsCursor(es[i - 1], es[i]);
      PageIgnored(es[0].q, objects, cat, es[i].q.page);
      PageIgnored(es[0].q, objects, cat, es[0].q.page);
    }
  }

  lemma PageIgnored(q: QuerySpec, objects: seq<Obj>, cat: Catalog, page: Option<PageSpec>)
    ensures Matching(q.(page := page), objects, cat) == Matching(q, objects, cat)
  {
  }

  /** What a response shows is the page that its request asks for. */
  lemma ResponseIsPage(e: Exchange, objects: seq<Obj>, cat: Catalog)
    requires e.q.limit > 0 && FlatResponse(e.q, objects, cat, e.rows, e.status) && TextOrder(e.q.order)
    ensures IsPage(e.q.order, Matching(e.q, objects, cat), e.q.limit, e.q.page, ObjectsOf(e.rows))
  {
    hide Matching, Selected, TextOrder, OrderColumns, Orders, Slice, RootRuns;
    var t :| Returned(e.q, objects, cat, t, ObjectsOf(e.rows));
  }

  lemma FirstIgnored(order: seq<OrderSpec>, matching: seq<Obj>, limit: nat, first: int, values: map<string, string>,
                     rows: seq<Obj>)
    requires IsPage(order, matching, limit, Some(PageSpec(first, Values(values))), rows)
    ensures IsPage(order, matching, limit, Some(PageSpec(0, Values(values))), rows)
  {
    hide Selected, Orders, Slice;
    var page := Some(PageSpec(first, Values(values)));
    var t :| Orders(OrderColumns(order), Selected(order, matching, CursorOf(page)), t)
             && rows == Slice(t, Offset(page), limit);
    var other := Some(PageSpec(0, Values(values)));
    assert Orders(OrderColumns(order), Selected(order, matching, CursorOf(other)), t)
        && rows == Slice(t, Offset(other), limit);
  }

  /** Following the cursor from response to response is a run of pages over the matching rows. */
  lemma ConversationIsRun(es: seq<Exchange>, objects: seq<Obj>, cat: Catalog)
    requires Conversation(es, objects, cat) && TextOrder(es[0].q.order)
    ensures IsRun(es[0].q.order, Matching(es[0].q, objects, cat), es[0].q.limit, PagesOf(es))
  {
    hide FlatResponse, IsPage, Matching, TextOrder, TokenOf;
    var q := es[0].q;
    var matching := Matching(q, objects, cat);
    forall i | 0 <= i < |es|
      ensures IsPage(q.order, matching, q.limit, es[i].q.page, ObjectsOf(es[i].rows))
    {
      SameQuery(es, objects, cat, i);
      ResponseIsPage(es[i], objects, cat);
    }
    forall i, j | 0 <= i && j == i + 1 && j < |es|
      ensures Continues(q.order, matching, q.limit, ObjectsOf(es[i].rows), ObjectsOf(es[j].rows))
    {
      assert FollowsCursor(es[i], es[j]);
      CursorIsLastToken(es[i], objects, cat);
      var first :| es[j].q == es[i].q.(page := Some(PageSpec(first, Values(es[i].status.cursor.value.next))));
      FirstIgnored(q.order, matching, q.limit, first, es[i].status.cursor.value.next, ObjectsOf(es[j].rows));
    }
  }

  lemma CursorIsLastToken(e: Exchange, objects: seq<Obj>, cat: Catalog)
    requires e.q.limit > 0 && FlatResponse(e.q, objects, cat, e.rows, e.status) && e.status.cursor.Some?
    ensures e.rows != [] && e.status.cursor.value.next == TokenOf(ObjectsOf(e.rows)[|e.rows| - 1])
  {
    hide TokenOf, ShowsRows;
  }

  /** A client that follows the cursor until a response does not say it is incomplete has been shown every
      matching row exactly once, in order. */
  lemma FollowingShowsAll(es: seq<Exchange>, objects: seq<Obj>, cat: Catalog, sorted: seq<Obj>)
    requires Conversation(es, objects, cat) && !es[|es| - 1].status.incomplete
    requires Pageable(es[0].q.order, Matching(es[0].q, objects, cat))
    requires Orders(OrderColumns(es[0].q.order), Matching(es[0].q, objects, cat), sorted)
    ensures Concat(PagesOf(es)) == sorted
  {
    hide Matching, TextOrder, IsRun, Orders, Slice, Concat;
    var q := es[0].q;
    var last := es[|es| - 1];
    ConversationIsRun(es, objects, cat);
    SameQuery(es, objects, cat, |es| - 1);
    ShortWhenComplete(last, objects, cat);
    RunVisitsAll(q.order, Matching(q, objects, cat), q.limit, sorted, PagesOf(es));
  }

  lemma ShortWhenComplete(e: Exchange, objects: seq<Obj>, cat: Catalog)
    requires e.q.limit > 0 && FlatResponse(e.q, objects, cat, e.rows, e.status) && !e.status.incomplete
    ensures |e.rows| < e.q.limit
  {
    hide ShowsRows, TokenOf, Matching, RootRuns, Ordered;
    var t :| Returned(e.q, objects, cat, t, ObjectsOf(e.rows));
    NothingLeftOut(e.q, objects, cat, t, ObjectsOf(e.rows));
  }
}
