/** The root query as a whole: which rows its FROM and WHERE select, what the count query counts,
    and what an answer that does not call itself incomplete contains. */
module RootQuery {
  import opened Options
  import opened Text
  import opened Objects
  import opened Spec
  import opened Filters
  import opened Projections
  import opened Assembly
  import opened Plans
  import opened Reordering
  import opened Generator
  import opened Paging
  import opened Pages
  import opened Validation
  import opened Engine
  import opened EndToEnd

  /** The FROM clause. Asking for cluster labels joins `clusters` on its primary key, so that each
      object is joined with one row or none. */
  function Sources(q: QuerySpec, objects: seq<Obj>, cat: Catalog): seq<Obj> {
    if q.clusterLabels == map[] then objects else WithCluster(objects, cat)
  }

  function WithCluster(objects: seq<Obj>, cat: Catalog): seq<Obj> {
    if objects == [] then []
    else (if objects[0].cluster in cat.clusters then [objects[0]] else []) + WithCluster(objects[1..], cat)
  }

  ghost function Filtered(objects: seq<Obj>, where: seq<Clause>, cat: Catalog): seq<Obj> {
    if objects == [] then []
    else (if Accepts(where, objects[0], cat) then [objects[0]] else []) + Filtered(objects[1..], where, cat)
  }

  /** The rows that the root query orders and pages, and that the count query counts. */
  ghost function Matching(q: QuerySpec, objects: seq<Obj>, cat: Catalog): seq<Obj> {
    Filtered(Sources(q, objects, cat), RootClauses(q), cat)
  }

  /** An unknown cluster has no labels, so the WHERE rejects its objects with or without the join. */
  lemma UnknownCluster(q: QuerySpec, o: Obj, cat: Catalog)
    requires q.clusterLabels != map[] && o.cluster !in cat.clusters
    ensures !Accepts(RootClauses(q), o, cat)
  {
    hide EntryClauses, Accepts, Sorted;
    var keys := Sorted(q.clusterLabels.Keys);
    var a, b := TextClause(ClusterColumn, q.clusterName), ClusterLabelClauses(q.clusterLabels, keys);
    AcceptsConcat(a + b, EntryClauses(q.filters), o, cat);
    AcceptsConcat(a, b, o, cat);
    assert keys != [] by {
      var k :| k in q.clusterLabels;
      assert k in keys;
    }
    AcceptsCons(b[0], b[1..], o, cat);
    assert b == [b[0]] + b[1..];
  }

  /** The join neither repeats nor loses a matching row. */
  lemma {:induction false} JoinChangesNothing(q: QuerySpec, objects: seq<Obj>, cat: Catalog)
    ensures Matching(q, objects, cat) == Filtered(objects, RootClauses(q), cat)
  {
    hide RootClauses, Filtered, WithCluster;
    if q.clusterLabels != map[] {
      JoinLosesNothing(q, objects, cat);
    }
  }

  lemma FilteredCons(o: Obj, rest: seq<Obj>, where: seq<Clause>, cat: Catalog)
    ensures Filtered([o] + rest, where, cat)
            == (if Accepts(where, o, cat) then [o] else []) + Filtered(rest, where, cat)
  {
    hide Accepts;
    assert ([o] + rest)[1..] == rest;
  }

  lemma {:induction false} JoinLosesNothing(q: QuerySpec, objects: seq<Obj>, cat: Catalog)
    requires q.clusterLabels != map[]
    ensures Filtered(WithCluster(objects, cat), RootClauses(q), cat) == Filtered(objects, RootClauses(q), cat)
  {
    hide RootClauses, Accepts, Filtered, WithCluster;
    if objects == [] {
      NothingJoined(cat);
    } else {
      var o, tail := objects[0], objects[1..];
      JoinLosesNothing(q, tail, cat);
      WithClusterStep(objects, cat);
      assert objects == [o] + tail;
      FilteredCons(o, tail, RootClauses(q), cat);
      if o.cluster in cat.clusters {
        FilteredCons(o, WithCluster(tail, cat), RootClauses(q), cat);
      } else {
        UnknownCluster(q, o, cat);
        assert [] + Filtered(tail, RootClauses(q), cat) == Filtered(tail, RootClauses(q), cat);
      }
    }
  }

  lemma NothingJoined(cat: Catalog)
    ensures WithCluster([], cat) == []
  {
  }

  lemma WithClusterStep(objects: seq<Obj>, cat: Catalog)
    requires objects != []
    ensures WithCluster(objects, cat)
         == if objects[0].cluster in cat.clusters then [objects[0]] + WithCluster(objects[1..], cat)
              else WithCluster(objects[1..], cat)
  {
  }

  lemma {:induction false} FilteredSame(objects: seq<Obj>, a: seq<Clause>, b: seq<Clause>, cat: Catalog)
    requires forall o :: Accepts(a, o, cat) <==> Accepts(b, o, cat)
    ensures Filtered(objects, a, cat) == Filtered(objects, b, cat)
  {
    hide Accepts;
    if objects != [] {
      FilteredSame(objects[1..], a, b, cat);
    }
  }

  /** In whatever order the root WHERE is written, the same rows match. */
  lemma MatchingAnyOrder(q: QuerySpec, objects: seq<Obj>, cat: Catalog, where: seq<Clause>)
    requires RootReordered(q, where)
    ensures Filtered(Sources(q, objects, cat), where, cat) == Matching(q, objects, cat)
  {
    hide Accepts, RootReordered, RootClauses, Sources;
    forall o
      ensures Accepts(where, o, cat) <==> Accepts(RootClauses(q), o, cat)
    {
      RootAnyOrder(q, where, o, cat);
    }
    FilteredSame(Sources(q, objects, cat), where, RootClauses(q), cat);
  }

  lemma {:induction false} WhereCount(objects: seq<Obj>, where: seq<Clause>, cat: Catalog, o: Obj)
    ensures multiset(Filtered(objects, where, cat))[o] == if Accepts(where, o, cat) then multiset(objects)[o] else 0
  {
    hide Accepts;
    if objects != [] {
      WhereCount(objects[1..], where, cat, o);
      assert objects == [objects[0]] + objects[1..];
    }
  }

  /** The query asks for the object, labels read the way SQLite reads them. */
  ghost predicate Asked(q: QuerySpec, o: Obj, cat: Catalog) {
    RootMatches(q, VisibleObj(o), VisibleCatalog(cat))
  }

  /** If the query's label keys are non-empty and have no dots, that is what the query means. */
  lemma AskedPlain(q: QuerySpec, o: Obj, cat: Catalog)
    requires PlainRootKeys(q)
    ensures Asked(q, o, cat) <==> RootMatches(q, o, cat)
  {
    RootMeaning(q, o, cat);
    PlainRootMeaning(q, o, cat);
  }

  /** Every stored row that the query asks for is matched exactly as often as it is stored, and no
      other row is: neither the resource-type lookups nor the cluster join repeat a row. */
  lemma MatchedOnce(q: QuerySpec, objects: seq<Obj>, cat: Catalog, o: Obj)
    ensures multiset(Matching(q, objects, cat))[o] == if Asked(q, o, cat) then multiset(objects)[o] else 0
  {
    hide RootClauses, RootMatches, Matching, Accepts;
    JoinChangesNothing(q, objects, cat);
    WhereCount(objects, RootClauses(q), cat, o);
    RootMeaning(q, o, cat);
  }

  /** `t` is what the root query orders before OFFSET and LIMIT: the matching rows after the cursor, in
      the requested order if that is by text columns, and in some order otherwise. */
  ghost predicate Ordered(q: QuerySpec, objects: seq<Obj>, cat: Catalog, t: seq<Obj>) {
    var selected := Selected(q.order, Matching(q, objects, cat), CursorOf(q.page));
    multiset(t) == multiset(selected) && (TextOrder(q.order) ==> Orders(OrderColumns(q.order), selected, t))
  }

  /** No JSON path of the root WHERE or of the root projection has an empty part, at which SQLite fails. */
  ghost predicate RootRuns(q: QuerySpec) {
    ClausesReadable(RootClauses(q)) && ProjectionReadable(ShapeProjection(q.objects))
  }

  /** The database answers the root query without error with `rows`, cut from `t`. */
  ghost predicate Returned(q: QuerySpec, objects: seq<Obj>, cat: Catalog, t: seq<Obj>, rows: seq<Obj>)
    requires q.limit > 0
  {
    RootRuns(q) && Ordered(q, objects, cat, t) && rows == Slice(t, Offset(q.page), q.limit)
  }

  /** The rows from the offset on. */
  function After(t: seq<Obj>, offset: nat): seq<Obj> {
    if offset >= |t| then [] else t[offset..]
  }

  /** A token is compared by text columns. */
  ghost predicate CursorUsable(q: QuerySpec) {
    CursorOf(q.page).Values? ==> TextOrder(q.order)
  }

  lemma SameSize(a: seq<Obj>, b: seq<Obj>)
    requires multiset(a) == multiset(b)
    ensures |a| == |b|
  {
    assert |multiset(a)| == |a| && |multiset(b)| == |b|;
  }

  /** What is ordered holds every row that the query asks for after the cursor, as often as it is stored. */
  lemma OrderedExactly(q: QuerySpec, objects: seq<Obj>, cat: Catalog, t: seq<Obj>, o: Obj)
    requires CursorUsable(q) && Ordered(q, objects, cat, t)
    ensures multiset(t)[o] == if Asked(q, o, cat)
                                && PassesCursor(q.order, CursorOf(q.page), o) then multiset(objects)[o] else 0
  {
    hide Matching, Selected, Asked, PassesCursor, TextOrder, OrderColumns;
    SelectedCount(q.order, Matching(q, objects, cat), CursorOf(q.page), o);
    MatchedOnce(q, objects, cat, o);
  }

  /** An answer shorter than the limit holds, in order, all that lies after the offset. */
  lemma NothingLeftOut(q: QuerySpec, objects: seq<Obj>, cat: Catalog, t: seq<Obj>, rows: seq<Obj>)
    requires q.limit > 0 && Returned(q, objects, cat, t, rows)
    ensures |rows| <= q.limit
    ensures |rows| != q.limit ==> rows == After(t, Offset(q.page))
  {
    hide Ordered;
  }

  /** The count is the number of rows the same query returns unpaged, under any limit it fits in. */
  lemma CountIsUnpaged(q: QuerySpec, objects: seq<Obj>, cat: Catalog, t: seq<Obj>, rows: seq<Obj>)
    requires q.limit > 0 && q.page == None && Returned(q, objects, cat, t, rows)
    ensures |Matching(q, objects, cat)| <= q.limit ==> |rows| == |Matching(q, objects, cat)|
    ensures |rows| == q.limit || |rows| == |Matching(q, objects, cat)|
  {
    hide Matching, TextOrder, OrderColumns;
    SelectedAll(q.order, Matching(q, objects, cat));
    SameSize(t, Matching(q, objects, cat));
  }

  lemma LastOfRoots(rows: seq<Row>, i: int)
    requires forall k :: 0 <= k < |rows| ==> rows[k].level == 0
    requires EndsRoots(rows, i)
    ensures i == |rows| - 1
  {
    assert rows[|rows| - 1].level == 0;
  }

  lemma SliceAt(t: seq<Obj>, k: nat, n: nat, i: nat)
    requires i < |Slice(t, k, n)|
    ensures k + i < |t| && Slice(t, k, n)[i] == t[k + i]
  {
  }

  lemma ReturnedInOrder(q: QuerySpec, objects: seq<Obj>, cat: Catalog, t: seq<Obj>, rows: seq<Obj>)
    requires q.limit > 0 && Returned(q, objects, cat, t, rows) && TextOrder(q.order)
    ensures forall i, j :: 0 <= i < j < |rows| ==> InOrder(q.order, rows[i], rows[j])
  {
    hide InOrder, Matching, Selected, TextOrder, Orders, OrderColumns, Slice, Offset, RootRuns, CursorOf;
    var k := Offset(q.page);
    forall i: nat, j: nat | i < j < |rows|
      ensures InOrder(q.order, rows[i], rows[j])
    {
      SliceAt(t, k, q.limit, i);
      SliceAt(t, k, q.limit, j);
      SortedAsAsked(q.order, Selected(q.order, Matching(q, objects, cat), CursorOf(q.page)), t, k + i, k + j);
    }
  }

  /** The response to a query without relations whose SQL returns `rows`: they are shown one by one; the
      cursor, if asked for, is the sort key of the last one; and it is incomplete if the page is full. */
  ghost predicate FlatResponse(q: QuerySpec, objects: seq<Obj>, cat: Catalog, rows: seq<Row>, status: QueryStatus)
    requires q.limit > 0
  {
    && (exists t :: Returned(q, objects, cat, t, ObjectsOf(rows)))
    && ShowsRows(status.objects, rows, q.objects) && ShowsDocuments(status.objects, rows, q.objects)
    && !status.truncated && (status.incomplete <==> |rows| == q.limit)
    && status.cursor == if q.wantCursor && rows != []
                        then Some(CursorResult(TokenOf(rows[|rows| - 1].obj),
                                               if q.page.Some? then q.page.value.first / q.limit else 0, q.limit))
                        else None
  }

  /** Each result has the document that the shape shows of the row's object. */
  ghost predicate ShowsDocuments(results: seq<ObjectResult>, rows: seq<Row>, shape: Option<ObjectsSpec>) {
    |results| == |rows| && forall i :: 0 <= i < |rows| ==> results[i].document == DocumentFor(shape, rows[i].obj)
  }

  lemma DocumentsShown(results: seq<ObjectResult>, rows: seq<Row>, shape: Option<ObjectsSpec>)
    requires ShowsRows(results, rows, shape)
    requires forall i :: 0 <= i < |rows| ==> rows[i] == FlatRow(rows[i].obj, shape)
    ensures ShowsDocuments(results, rows, shape)
  {
    forall i | 0 <= i < |rows|
      ensures results[i].document == DocumentFor(shape, rows[i].obj)
    {
      ProjectedDocument(None, rows[i].obj);
      assert ShowsRow(results[i], rows[i], shape) && rows[i] == FlatRow(rows[i].obj, shape);
    }
  }

  /** A query without relations runs its SQL and its count query and fills in the response. `t` is what
      the SQL orders: exactly the rows asked for after the cursor. The response shows the returned rows in
      the requested order; if it does not say it is incomplete, they are all of `t` after the offset. */
  method RunFlat(q: QuerySpec, objects: seq<Obj>, cat: Catalog, ghost t: seq<Obj>, rows: seq<Row>, count: nat)
    returns (status: QueryStatus)
    requires 1 <= q.limit <= MAX_LIMIT && (q.page.Some? ==> q.page.value.first >= 0) && CursorUsable(q)
    requires Returned(q, objects, cat, t, ObjectsOf(rows)) && count == |Matching(q, objects, cat)|
    requires forall i :: 0 <= i < |rows| ==> rows[i] == FlatRow(rows[i].obj, q.objects)
    ensures FlatResponse(q, objects, cat, rows, status)
    ensures TextOrder(q.order) ==> forall i, j :: 0 <= i < j < |rows| ==> InOrder(q.order, rows[i].obj, rows[j].obj)
    ensures forall o :: multiset(t)[o] == if Asked(q, o, cat)
                                            && PassesCursor(q.order, CursorOf(q.page), o) then multiset(objects)[o]
                                               else 0
    ensures !status.incomplete ==> ObjectsOf(rows) == After(t, Offset(q.page))
    ensures !status.incomplete && q.page == None && q.wantCount ==> status.count == Some(|rows|)
  {
    hide Matching, Asked, PassesCursor, ObjectsOf, CursorUsable, Slice, After, ShowsRows, ShowsDocuments, TokenOf,
         Selected, InOrder, TextOrder, OrderColumns, Orders, RootRuns, Ordered;
    NothingLeftOut(q, objects, cat, t, ObjectsOf(rows));
    if TextOrder(q.order) {
      ReturnedInOrder(q, objects, cat, t, ObjectsOf(rows));
    }
    status := ExecuteFlat(q, rows, count);
    DocumentsShown(status.objects, rows, q.objects);
    if q.wantCursor && rows != [] {
      assert rows[0].level == 0;
      ghost var i :| EndsRoots(rows, i)
        && status.cursor == Some(CursorResult(TokenOf(rows[i].obj),
                                              if q.page.Some? then q.page.value.first / q.limit else 0, q.limit));
      LastOfRoots(rows, i);
    }
    forall o
      ensures multiset(t)[o] == if Asked(q, o, cat)
                                  && PassesCursor(q.order, CursorOf(q.page), o) then multiset(objects)[o] else 0
    {
      OrderedExactly(q, objects, cat, t, o);
    }
    if !status.incomplete && q.page == None {
      CountIsUnpaged(q, objects, cat, t, ObjectsOf(rows));
    }
  }

  /** A response with relations says it is incomplete exactly if rows were cut off or the page of roots is
      full; if it does not, the roots are all that lies after the offset. */
  lemma RelationAnswerComplete(q: QuerySpec, objects: seq<Obj>, cat: Catalog, t: seq<Obj>, roots: seq<Obj>,
                               rows: seq<Row>)
    requires q.limit > 0 && Returned(q, objects, cat, t, roots) && PlanFor(q.objects, q.maxDepth).Generated?
    requires OrderedByPath(rows,
                           QueryRows(PlanFor(q.objects, q.maxDepth).plan, ShapeProjection(q.objects), roots, objects,
                                     cat))
    ensures SaysIncomplete(q.limit, rows) <==> |rows| > 10000 || |roots| == q.limit
    ensures !SaysIncomplete(q.limit, rows) ==> Scanned(rows) == rows && roots == After(t, Offset(q.page))
  {
    hide Ordered, PlanFor, QueryRows, RootCount, OrderedByPath, Slice, After;
    OneRowPerRoot(q.objects, q.maxDepth, roots, objects, cat);
    PermutedRootCount(rows,
                      QueryRows(PlanFor(q.objects, q.maxDepth).plan, ShapeProjection(q.objects), roots, objects,
                                cat));
    NothingLeftOut(q, objects, cat, t, roots);
  }
}
