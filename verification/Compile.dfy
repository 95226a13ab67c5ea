/** The generated query computes what the spec asks for: the UNION ALL of the breadth-first plan
    returns exactly the rows of the recursively defined answer. */
module Compile {
  import opened Options
  import opened Text
  import opened Objects
  import opened Spec
  import opened Paths
  import opened Relations
  import opened Filters
  import opened Projections
  import opened Assembly
  import opened Forest
  import opened Plans
  import opened Reordering
  import opened Generator
  import opened Meaning
  import opened Bags
  import opened Walks
  import opened Attachments
  import opened Scopes
  import opened PlanShape
  import opened Visited

  /** No relation block carries a limit. */
  ghost predicate Unlimited(shape: Option<ObjectsSpec>)
    decreases shape
  {
    shape.Some? ==> forall k :: k in shape.value.relations ==>
      shape.value.relations[k].limit <= 0 && Unlimited(shape.value.relations[k].objects)
  }

  ghost predicate Ready(q: Pending, n: nat) {
    Chained(q.ancestors, n) && q.spec.limit <= 0 && Unlimited(q.spec.objects)
  }

  ghost predicate AllReady(queue: seq<Pending>, n: nat) {
    forall i :: 0 <= i < |queue| ==> Ready(queue[i], n)
  }

  /** What one waiting block asks for. */
  ghost function BlockBag(w: World, roots: seq<Obj>, q: Pending): multiset<Row> {
    SpotBag(w, SpotsAlong(roots, q.ancestors, w.objects), q.name, q.spec, q.level)
  }

  ghost function QueueBag(w: World, roots: seq<Obj>, queue: seq<Pending>): multiset<Row> {
    if queue == [] then multiset{} else BlockBag(w, roots, queue[0]) + QueueBag(w, roots, queue[1..])
  }

  lemma QueueBagStep(w: World, roots: seq<Obj>, q: Pending, queue: seq<Pending>)
    ensures QueueBag(w, roots, [q] + queue) == BlockBag(w, roots, q) + QueueBag(w, roots, queue)
  {
    hide BlockBag;
    assert ([q] + queue)[1..] == queue;
  }

  lemma {:induction false} QueueBagConcat(w: World, roots: seq<Obj>, a: seq<Pending>, b: seq<Pending>)
    ensures QueueBag(w, roots, a + b) == QueueBag(w, roots, a) + QueueBag(w, roots, b)
  {
    hide BlockBag;
    if a == [] {
      assert a + b == b;
    } else {
      hide QueueBag;
      var q, tail := a[0], a[1..];
      assert a == [q] + tail && a + b == [q] + (tail + b);
      QueueBagStep(w, roots, q, tail + b);
      QueueBagStep(w, roots, q, tail);
      QueueBagConcat(w, roots, tail, b);
    }
  }

  lemma {:induction false} PendingBag(w: World, roots: seq<Obj>, shape: ObjectsSpec, names: seq<string>, level: nat,
                                      ancestors: seq<Step>)
    requires forall k :: k in names ==> k in shape.relations
    ensures QueueBag(w, roots, PendingFor(shape, names, level, ancestors))
         == NamedBag(w, SpotsAlong(roots, ancestors, w.objects), shape, names, level)
  {
    if names != [] {
      hide SpotsAlong, SpotBag, QueueBag;
      PendingBag(w, roots, shape, names[1..], level, ancestors);
      var q := Pending(level, names[0], shape.relations[names[0]], ancestors);
      QueueBagStep(w, roots, q, PendingFor(shape, names[1..], level, ancestors));
    }
  }

  lemma BlocksBag(w: World, roots: seq<Obj>, shape: Option<ObjectsSpec>, level: nat, ancestors: seq<Step>)
    ensures QueueBag(w, roots, Blocks(shape, level, ancestors))
            == ShapeBag(w, SpotsAlong(roots, ancestors, w.objects), shape, level)
  {
    hide SpotsAlong, NamedBag, PendingFor;
    if shape.Some? {
      PendingBag(w, roots, shape.value, Sorted(shape.value.relations.Keys), level, ancestors);
    }
  }

  // ----- one block -----

  lemma JoinedSpots(roots: seq<Obj>, q: Pending, n: nat, objects: seq<Obj>)
    requires Chained(q.ancestors, n)
    ensures SpotsOf(Envs(roots, q.ancestors + [StepFor(q, n)], objects), n, PathAliases(q.ancestors) + [n])
         == Grow(SpotsAlong(roots, q.ancestors, objects), JoinFor(BaseRelation(q.name), q.spec.filters), objects)
    ensures SpotsAlong(roots, q.ancestors + [StepFor(q, n)], objects)
         == Grow(SpotsAlong(roots, q.ancestors, objects), JoinFor(BaseRelation(q.name), q.spec.filters), objects)
  {
    hide SpotsOf, Envs, Grow, JoinFor;
    var steps := q.ancestors + [StepFor(q, n)];
    ChainedExtend(q, n);
    EnvSpots(roots, steps, objects, n + 1);
    assert steps[..|steps| - 1] == q.ancestors;
  }

  lemma JoinedRows(w: World, roots: seq<Obj>, q: Pending, n: nat)
    requires Ready(q, n) && q.level <= w.maxDepth && !IsTransitive(q.name)
    ensures BlockBag(w, roots, q)
         == multiset(SelectRows(JoinedFor(q, n), roots, w.objects, w.cat)) + QueueBag(w, roots, Successors(q, n))
  {
    hide Chained, Unlimited, SpotsOf, Envs, Grow, SpotsAlong, SpotBag, ShapeBag, SpotRows, BlockClauses, Blocks,
         QueueBag, PathAliases, JoinFor, BaseRelation;
    JoinedSpots(roots, q, n, w.objects);
    JoinedBlock(w, SpotsAlong(roots, q.ancestors, w.objects), q.name, q.spec, q.level);
    BlocksBag(w, roots, q.spec.objects, q.level + 1, q.ancestors + [StepFor(q, n)]);
  }

  lemma ParentSpots(roots: seq<Obj>, q: Pending, n: nat, objects: seq<Obj>)
    requires Chained(q.ancestors, n)
    ensures SpotsOf(Envs(roots, q.ancestors, objects), ParentAlias(q), PathAliases(q.ancestors))
            == SpotsAlong(roots, q.ancestors, objects)
  {
    hide SpotsOf, Envs, SpotsAlong;
    EnvSpots(roots, q.ancestors, objects, n);
  }

  lemma CteOfBlock(w: World, roots: seq<Obj>, q: Pending, base: Base, n: nat)
    requires Chained(q.ancestors, n) && PlainObjects(w.objects)
    ensures AtDepth(CteBase(base, SpotsAlong(roots, q.ancestors, w.objects), w.objects), 1)
    ensures WalkSpots(CteFor(q, base, n, w.maxDepth), roots, w.objects)
         == CteSpots(CteRows(base, CteBase(base, SpotsAlong(roots, q.ancestors, w.objects), w.objects), w.objects,
                             w.maxDepth, 1))
  {
    hide SpotsOf, Envs, SpotsAlong, CteBase, CteRows, AtDepth, WalkSpots, CteSpots, PlainObjects;
    EmittedRefined(CteFor(q, base, n, w.maxDepth), roots, w.objects);
    ParentSpots(roots, q, n, w.objects);
    CteBaseDepth(base, SpotsAlong(roots, q.ancestors, w.objects), w.objects);
  }

  lemma WalkedOwnRows(w: World, roots: seq<Obj>, q: Pending, base: Base, n: nat)
    requires q.spec.limit <= 0
    ensures var cte := CteFor(q, base, n, w.maxDepth);
      multiset(SelectRows(Walked(cte, InnerClauses(q.spec.filters), q.spec.limit), roots, w.objects, w.cat))
      == OwnRows(w, Walk(base, q.name, q.spec, q.level), WalkSpots(cte, roots, w.objects))
  {
    hide WalkSpots, SpotRows, InnerClauses;
  }

  lemma WalkedRows(w: World, roots: seq<Obj>, q: Pending, base: Base, n: nat)
    requires Ready(q, n) && q.level <= w.maxDepth && IsTransitive(q.name) && BaseOf(BaseRelation(q.name)) == Some(base)
    requires PlainObjects(w.objects)
    ensures BlockBag(w, roots, q) == multiset(UnionRows(Emitted(q, n, w.maxDepth).selects, roots, w.objects, w.cat))
  {
    hide Chained, Unlimited, SpotsAlong, SpotBag, WalkSpots, CteBase, CteRows, CteSpots, UnionRows, SubSelects, OwnRows,
         SubsBag, WorkBag, SelectRows,
         InnerClauses, CteFor, AtDepth, IsTransitive, PlainObjects;
    var k := Walk(base, q.name, q.spec, q.level);
    var cte := CteFor(q, base, n, w.maxDepth);
    var spots := SpotsAlong(roots, q.ancestors, w.objects);
    WalkedBlock(w, k, spots);
    CteOfBlock(w, roots, q, base, n);
    CteComplete(w, k, CteBase(base, spots, w.objects), 1);
    WalkedOwnRows(w, roots, q, base, n);
    SubSelectsBag(w, cte, roots, q.spec.objects, q.level + 1);
    UnionCons(Walked(cte, InnerClauses(q.spec.filters), q.spec.limit), SubSelects(cte, q.spec.objects, q.level + 1),
              roots, w.objects, w.cat);
  }

  lemma UnionOne(s: Select, roots: seq<Obj>, objects: seq<Obj>, cat: Catalog)
    ensures UnionRows([s], roots, objects, cat) == SelectRows(s, roots, objects, cat)
  {
    hide SelectRows;
    UnionCons(s, [], roots, objects, cat);
    assert [s] + [] == [s];
  }

  /** What a block asks for is what its own branches return plus what its successors ask for. */
  lemma BlockEmits(w: World, roots: seq<Obj>, q: Pending, n: nat)
    requires Ready(q, n) && q.level <= w.maxDepth && !Stuck(q) && (IsTransitive(q.name) ==> PlainObjects(w.objects))
    ensures BlockBag(w, roots, q)
         == multiset(UnionRows(Emitted(q, n, w.maxDepth).selects, roots, w.objects, w.cat))
            + QueueBag(w, roots, Successors(q, n))
  {
    hide Ready, BlockBag, UnionRows, SelectRows, JoinedFor, SubSelects, InnerClauses, CteFor, Blocks, IsTransitive;
    if IsTransitive(q.name) {
      WalkedRows(w, roots, q, BaseOf(BaseRelation(q.name)).value, n);
    } else {
      JoinedRows(w, roots, q, n);
      UnionOne(JoinedFor(q, n), roots, w.objects, w.cat);
    }
  }

  // ----- the whole pass -----

  lemma {:induction false} TooDeep(w: World, spots: seq<Spot>, name: string, spec: RelationSpec, level: nat)
    requires level > w.maxDepth
    ensures SpotBag(w, spots, name, spec, level) == multiset{}
  {
    if spots != [] {
      TooDeep(w, spots[1..], name, spec, level);
    }
  }

  lemma BlocksReady(shape: Option<ObjectsSpec>, level: nat, ancestors: seq<Step>, n: nat)
    requires Unlimited(shape) && Chained(ancestors, n)
    ensures AllReady(Blocks(shape, level, ancestors), n)
  {
    if shape.Some? {
      hide Chained;
      var names := Sorted(shape.value.relations.Keys);
      forall i | 0 <= i < |names|
        ensures Ready(Blocks(shape, level, ancestors)[i], n)
      {
        assert names[i] in names;
        PendingIndex(shape.value, names, level, ancestors, i);
      }
    }
  }

  lemma QueueReady(q: Pending, rest: seq<Pending>, n: nat)
    requires AllReady([q] + rest, n)
    ensures AllReady(rest + Successors(q, n), n + 1)
  {
    hide Unlimited;
    assert Ready(([q] + rest)[0], n);
    ChainedExtend(q, n);
    if !IsTransitive(q.name) {
      BlocksReady(q.spec.objects, q.level + 1, q.ancestors + [StepFor(q, n)], n + 1);
    }
    forall i | 0 <= i < |rest|
      ensures Ready(rest[i], n + 1)
    {
      assert Ready(([q] + rest)[i + 1], n);
      ChainedWeaken(rest[i].ancestors, n, n + 1);
    }
  }

  /** The plan's branches return what the waiting blocks ask for. */
  ghost predicate Computes(w: World, roots: seq<Obj>, queue: seq<Pending>, g: Generated) {
    g.Generated? ==> multiset(UnionRows(g.plan.selects, roots, w.objects, w.cat)) == QueueBag(w, roots, queue)
  }

  lemma ComputesStep(w: World, roots: seq<Obj>, q: Pending, rest: seq<Pending>, n: nat, later: Generated)
    requires Ready(q, n) && q.level <= w.maxDepth && !Stuck(q) && (IsTransitive(q.name) ==> PlainObjects(w.objects))
    requires Computes(w, roots, rest + Successors(q, n), later)
    ensures Computes(w, roots, [q] + rest, Before(Emitted(q, n, w.maxDepth), later))
  {
    hide Ready, BlockBag, QueueBag, Emitted, Successors, UnionRows, Stuck, IsTransitive, PlainObjects;
    if later.Generated? {
      BlockEmits(w, roots, q, n);
      QueueBagStep(w, roots, q, rest);
      QueueBagConcat(w, roots, rest, Successors(q, n));
      UnionBagConcat(Emitted(q, n, w.maxDepth).selects, later.plan.selects, roots, w.objects, w.cat);
    }
  }

  lemma ComputesSkip(w: World, roots: seq<Obj>, q: Pending, rest: seq<Pending>, g: Generated)
    requires q.level > w.maxDepth && Computes(w, roots, rest, g)
    ensures Computes(w, roots, [q] + rest, g)
  {
    hide QueueBag, UnionRows, SpotBag, SpotsAlong;
    QueueBagStep(w, roots, q, rest);
    TooDeep(w, SpotsAlong(roots, q.ancestors, w.objects), q.name, q.spec, q.level);
  }

  /** The text trails of SQLite are right: there is no transitive block, or all stored UIDs are plain. */
  ghost predicate QueueTrailsPlain(w: World, queue: seq<Pending>) {
    AllPlain(queue) || PlainObjects(w.objects)
  }

  lemma TrailsStayPlain(w: World, q: Pending, rest: seq<Pending>, n: nat)
    requires QueueTrailsPlain(w, [q] + rest)
    ensures IsTransitive(q.name) ==> PlainObjects(w.objects)
    ensures QueueTrailsPlain(w, rest) && QueueTrailsPlain(w, rest + Successors(q, n))
  {
    hide AllPlain, IsTransitive, PlainObjects, Successors, Stuck;
    if AllPlain([q] + rest) {
      SuccessorsPlain(q, rest, n);
    }
  }

  lemma {:induction false} PassComputes(w: World, roots: seq<Obj>, queue: seq<Pending>, n: nat)
    requires AllReady(queue, n) && QueueTrailsPlain(w, queue)
    ensures Computes(w, roots, queue, Pass(queue, n, w.maxDepth))
    decreases Weight(queue)
  {
    if queue != [] {
      hide Computes, Weight, Emitted, Successors, Ready, Pass, QueueTrailsPlain, IsTransitive, PlainObjects;
      var q, rest := queue[0], queue[1..];
      assert queue == [q] + rest;
      PassStep(queue, n, w.maxDepth);
      TrailsStayPlain(w, q, rest, n);
      WeightTail(queue);
      assert Ready(queue[0], n);
      if q.level > w.maxDepth {
        PassComputes(w, roots, rest, n);
        ComputesSkip(w, roots, q, rest, Pass(rest, n, w.maxDepth));
      } else if Stuck(q) {
        StuckComputes(w, roots, queue, BaseRelation(q.name));
      } else {
        SuccessorsLighter(q, n, rest);
        QueueReady(q, rest, n);
        PassComputes(w, roots, rest + Successors(q, n), n + 1);
        ComputesStep(w, roots, q, rest, n, Pass(rest + Successors(q, n), n + 1, w.maxDepth));
      }
    }
  }

  lemma StuckComputes(w: World, roots: seq<Obj>, queue: seq<Pending>, relation: string)
    ensures Computes(w, roots, queue, Unsupported(relation))
  {
  }

  // ----- roots -----

  lemma AnswerStep(w: World, root: Obj, roots: seq<Obj>, shape: Option<ObjectsSpec>)
    ensures Bag("", Answer(w, [root] + roots, shape))
         == multiset(SpotRow(Spot(Segment(root), root), [], ShapeProjection(shape), 0, "", w.cat))
          + Bag(Segment(root), Beneath(w, root, shape, 1))
          + Bag("", Answer(w, roots, shape))
  {
    hide Bag, Beneath, Segment, Projected;
    assert ([root] + roots)[1..] == roots;
    var t := Node(root, Projected(ShapeProjection(shape), root), "", 0, true, Beneath(w, root, shape, 1));
    BagStep("", t, Answer(w, roots, shape));
    assert "" + Segment(root) == Segment(root);
  }

  lemma NoAnswerBag(w: World, shape: Option<ObjectsSpec>)
    ensures Bag("", Answer(w, [], shape))
         == multiset(SpotRows(RootSpots([]), [], ShapeProjection(shape), 0, "", w.cat))
            + ShapeBag(w, RootSpots([]), shape, 1)
  {
    ShapeBagConcat(w, [], [], shape, 1);
  }

  lemma {:induction false} AnswerBag(w: World, roots: seq<Obj>, shape: Option<ObjectsSpec>)
    ensures Bag("", Answer(w, roots, shape))
         == multiset(SpotRows(RootSpots(roots), [], ShapeProjection(shape), 0, "", w.cat))
            + ShapeBag(w, RootSpots(roots), shape, 1)
  {
    hide Bag, Beneath, SpotRows, SpotRow, ShapeBag, Answer, Segment;
    if roots == [] {
      NoAnswerBag(w, shape);
    } else {
      var root, tail := roots[0], roots[1..];
      assert roots == [root] + tail;
      AnswerBag(w, tail, shape);
      AnswerStep(w, root, tail, shape);
      var s := Spot(Segment(root), root);
      SpotRowsStep(s, RootSpots(tail), [], ShapeProjection(shape), 0, "", w.cat);
      ShapeBagOne(w, s, shape, 1);
      ShapeBagConcat(w, [s], RootSpots(tail), shape, 1);
    }
  }

  ghost predicate TrailsPlain(w: World, shape: Option<ObjectsSpec>) {
    NoTransitive(shape) || PlainObjects(w.objects)
  }

  /** For every spec without relation limits for which there is a plan, and every stored data and list
      of roots: the database runs the plan without error exactly if the shape is acceptable, and the
      UNION ALL then returns the rows of the recursive answer, with multiplicity: no row is missing, added
      or repeated. */
  lemma CompiledCorrectly(w: World, roots: seq<Obj>, shape: Option<ObjectsSpec>)
    requires Unlimited(shape) && PlanFor(shape, w.maxDepth).Generated? && TrailsPlain(w, shape)
    ensures var answer := Executed(PlanFor(shape, w.maxDepth).plan, ShapeProjection(shape), roots, w.objects, w.cat);
      && (answer.Some? <==> Acceptable(shape, w.maxDepth, w.objects))
      && (answer.Some? ==> multiset(answer.value) == multiset(Rows(Places("", Answer(w, roots, shape)))))
  {
    hide QueryRows, PlanFor, Rows, Places, Answer, Unlimited, AcceptedShape, AllRunnable,
         ProjectionReadable, SelectorsSafe, TrailsPlain, SelectorFree, SelectorsReadable;
    PlanRunnableIff(shape, w.maxDepth);
    SelectorsSafeIff(shape, w.maxDepth, w.objects);
    BranchesCompute(w, roots, shape);
  }

  lemma BranchesCompute(w: World, roots: seq<Obj>, shape: Option<ObjectsSpec>)
    requires Unlimited(shape) && PlanFor(shape, w.maxDepth).Generated? && TrailsPlain(w, shape)
    ensures multiset(QueryRows(PlanFor(shape, w.maxDepth).plan, ShapeProjection(shape), roots, w.objects, w.cat))
         == multiset(Rows(Places("", Answer(w, roots, shape))))
  {
    hide SpotRows, UnionRows, ShapeBag, Bag, Rows, Places, Answer, Blocks, Pass, Unlimited, QueueBag, AllReady,
         NoTransitive, PlainObjects, AllPlain;
    if NoTransitive(shape) {
      BlocksPlain(shape, 1, []);
    }
    BlocksReady(shape, 1, [], 1);
    PassComputes(w, roots, Blocks(shape, 1, []), 1);
    BlocksBag(w, roots, shape, 1, []);
    AnswerBag(w, roots, shape);
    BagIsRows("", Answer(w, roots, shape));
  }

  // ----- any map order -----

  lemma ReadableAnyOrder(a: seq<Clause>, b: seq<Clause>)
    requires SameClauses(a, b)
    ensures ClausesReadable(a) <==> ClausesReadable(b)
  {
    hide ClausesReadable;
    ReadableEach(a);
    ReadableEach(b);
    SameMembersIn(a, b);
  }

  lemma AlikeRuns(s: Select, t: Select)
    requires SelectAlike(s, t)
    ensures (Runnable(s) <==> Runnable(t)) && (UsesSelectors(s) <==> UsesSelectors(t))
  {
    hide ClausesReadable, ProjectionReadable, Distinct, Aliases, SameClauses, StepsReadSelectors;
    if !s.Walked? {
      ReadableAnyOrder(s.where, t.where);
    }
  }

  lemma PairwiseRuns(a: seq<Select>, b: seq<Select>)
    requires PairwiseAlike(a, b)
    ensures (AllRunnable(a) <==> AllRunnable(b)) && (NoneUse(a) <==> NoneUse(b))
  {
    hide Runnable, UsesSelectors, SelectAlike;
    forall i | 0 <= i < |a|
      ensures (Runnable(a[i]) <==> Runnable(b[i])) && (UsesSelectors(a[i]) <==> UsesSelectors(b[i]))
    {
      AlikeRuns(a[i], b[i]);
    }
  }

  lemma PermutedRuns(a: seq<Select>, b: seq<Select>)
    requires multiset(a) == multiset(b)
    ensures (AllRunnable(a) <==> AllRunnable(b)) && (NoneUse(a) <==> NoneUse(b))
  {
    hide Runnable, UsesSelectors;
    SameMembersIn(a, b);
    assert AllRunnable(a) <==> forall s :: s in a ==> Runnable(s);
    assert AllRunnable(b) <==> forall s :: s in b ==> Runnable(s);
    assert NoneUse(a) <==> forall s :: s in a ==> !UsesSelectors(s);
    assert NoneUse(b) <==> forall s :: s in b ==> !UsesSelectors(s);
  }

  /** In whatever order maps are visited, the database answers the plan in the same cases, with the same bag
      of rows. */
  lemma AnswersAnyOrder(p: Plan, q: Plan, projection: Option<Projection>, roots: seq<Obj>, objects: seq<Obj>,
                        cat: Catalog)
    requires PlanAlike(p, q)
    ensures var a, b := Executed(p, projection, roots, objects, cat), Executed(q, projection, roots, objects, cat);
      (a.Some? <==> b.Some?) && (a.Some? ==> multiset(a.value) == multiset(b.value))
  {
    hide PairwiseAlike, QueryRows, AllRunnable, UsesSelectors, SelectorsReadable, ProjectionReadable;
    PlanAnyOrder(p, q, projection, roots, objects, cat);
    var mid :| multiset(mid) == multiset(q.selects) && PairwiseAlike(p.selects, mid);
    PairwiseRuns(p.selects, mid);
    PermutedRuns(mid, q.selects);
    assert NoneUse(p.selects) <==> NoneUse(q.selects);
  }
}
