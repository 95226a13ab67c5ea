/** A query with relations from its selected roots to its response. */
module Responses {
  import opened Options
  import opened Objects
  import opened Spec
  import opened Assembly
  import opened Forest
  import opened Plans
  import opened Reordering
  import opened Generator
  import opened Meaning
  import opened Compile
  import opened PlanShape
  import opened Reassembly
  import opened EndToEnd
  import opened Pages
  import opened Engine
  import opened RootQuery
  import Reference

  /** What the end-to-end theorem asks of the stored data: no two objects in the answer share a path,
      and no object below a root has a dot in its kind, namespace or name. */
  ghost predicate PathsUsable(w: World, roots: seq<Obj>, shape: Option<ObjectsSpec>) {
    DistinctPaths(Places("", Answer(w, roots, shape))) && DotFreeBelow(Answer(w, roots, shape))
  }

  /** What it asks of the relation blocks: no limits, only supported transitive relations, and plain stored
      UIDs if there are any of those. */
  ghost predicate BlocksUsable(w: World, shape: Option<ObjectsSpec>) {
    Unlimited(shape) && PlanFor(shape, w.maxDepth).Generated? && TrailsPlain(w, shape)
  }

  /** `rows` is what the database answers for the roots to a plan generated for the shape in any map
      iteration order. */
  ghost predicate QueryReturns(w: World, roots: seq<Obj>, shape: Option<ObjectsSpec>, plan: Plan, rows: seq<Row>)
    requires PlanFor(shape, w.maxDepth).Generated?
  {
    PlanAlike(plan, PlanFor(shape, w.maxDepth).plan) && Answered(w, plan, roots, shape, rows)
  }

  lemma OrderedAnyway(rows: seq<Row>, a: seq<Row>, b: seq<Row>)
    requires OrderedByPath(rows, a) && multiset(a) == multiset(b)
    ensures OrderedByPath(rows, b)
  {
  }

  /** Unless rows were cut off, the response holds the recursive answer for the roots, transitive blocks
      included; and unless it says it is incomplete, nothing was cut off and the roots are all the
      ordered matching objects after the offset. */
  method RunWithRelations(q: QuerySpec, w: World, ghost t: seq<Obj>, roots: seq<Obj>, plan: Plan, rows: seq<Row>,
                          count: nat)
    returns (status: QueryStatus)
    requires q.limit > 0 && q.maxDepth == w.maxDepth && !CursorOf(q.page).Values?
    requires q.page.Some? ==> q.page.value.first >= 0
    requires BlocksUsable(w, q.objects) && PathsUsable(w, roots, q.objects)
    requires Returned(q, w.objects, w.cat, t, roots) && QueryReturns(w, roots, q.objects, plan, rows)
    requires count == |Matching(q, w.objects, w.cat)|
    ensures !status.truncated ==> status.objects == RenderForest(Answer(w, roots, q.objects), q.objects)
    ensures !status.truncated && NoTransitive(q.objects) ==> status.objects == Reference.WantAll(w, roots, q.objects)
    ensures forall o :: multiset(t)[o] == if Asked(q, o, w.cat) then multiset(w.objects)[o] else 0
    ensures status.truncated <==> |rows| > 10000
    ensures status.incomplete <==> status.truncated || |roots| == q.limit
    ensures !status.incomplete ==> roots == After(t, Offset(q.page))
    ensures status.count == if q.wantCount then Some(count) else None
  {
    hide NoTransitive, Unlimited, DistinctPaths, Places, Answer, DotFreeBelow, OrderedByPath, QueryRows, PlanFor,
         Assembled, Pathed, Ordered, Slice, After, Matching, Asked, RootCount, Reference.WantAll, RenderForest,
         PlanAlike, TrailsPlain, AllRunnable, SelectorsSafe;
    ghost var plain := PlanFor(q.objects, w.maxDepth).plan;
    PlanAnyOrder(plan, plain, ShapeProjection(q.objects), roots, w.objects, w.cat);
    OrderedAnyway(rows, QueryRows(plan, ShapeProjection(q.objects), roots, w.objects, w.cat),
                  QueryRows(plain, ShapeProjection(q.objects), roots, w.objects, w.cat));
    RowsAnswerSpec(w, roots, q.objects, rows);
    if NoTransitive(q.objects) {
      Reference.ForestWanted(w, roots, q.objects);
    }
    status := ExecuteWithRelations(q, rows, count);
    RelationAnswerComplete(q, w.objects, w.cat, t, roots, rows);
    forall o
      ensures multiset(t)[o] == if Asked(q, o, w.cat) then multiset(w.objects)[o] else 0
    {
      OrderedExactly(q, w.objects, w.cat, t, o);
    }
  }
}
