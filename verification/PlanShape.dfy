/** The shape of a generated plan: how many branches it has, in which order, and when the
    database accepts them. */
module PlanShape {
  import opened Options
  import opened Text
  import opened Objects
  import opened Spec
  import opened Relations
  import opened Filters
  import opened Projections
  import opened Assembly
  import opened Plans
  import opened Generator
  import opened Scopes

  // ----- branch count -----

  /** The number of relation blocks no deeper than the limit. */
  ghost function ShallowCount(shape: Option<ObjectsSpec>, level: nat, maxDepth: int): nat
    decreases shape
  {
    if shape.None? || level > maxDepth then 0
    else |shape.value.relations| + ShallowNested(shape.value, Sorted(shape.value.relations.Keys), level, maxDepth)
  }

  ghost function ShallowNested(shape: ObjectsSpec, names: seq<string>, level: nat, maxDepth: int): nat
    requires forall k :: k in names ==> k in shape.relations
    decreases shape, |names|
  {
    if names == [] then 0
    else
      ShallowCount(shape.relations[names[0]].objects, level + 1, maxDepth)
        + ShallowNested(shape, names[1..], level, maxDepth)
  }

  ghost function BlockBranches(q: Pending, maxDepth: int): nat {
    if q.level > maxDepth then 0 else 1 + ShallowCount(q.spec.objects, q.level + 1, maxDepth)
  }

  ghost function QueueBranches(queue: seq<Pending>, maxDepth: int): nat {
    if queue == [] then 0 else BlockBranches(queue[0], maxDepth) + QueueBranches(queue[1..], maxDepth)
  }

  lemma {:induction false} QueueBranchesConcat(a: seq<Pending>, b: seq<Pending>, maxDepth: int)
    ensures QueueBranches(a + b, maxDepth) == QueueBranches(a, maxDepth) + QueueBranches(b, maxDepth)
  {
    hide BlockBranches;
    if a == [] {
      assert a + b == b;
    } else {
      QueueBranchesConcat(a[1..], b, maxDepth);
      assert (a + b)[1..] == a[1..] + b;
    }
  }

  lemma {:induction false} PendingBranches(shape: ObjectsSpec, names: seq<string>, level: nat, ancestors: seq<Step>,
                                           maxDepth: int)
    requires forall k :: k in names ==> k in shape.relations
    ensures QueueBranches(PendingFor(shape, names, level, ancestors), maxDepth)
         == if level > maxDepth then 0 else |names| + ShallowNested(shape, names, level, maxDepth)
  {
    if names != [] {
      hide ShallowCount, QueueBranches;
      var q := Pending(level, names[0], shape.relations[names[0]], ancestors);
      PendingBranches(shape, names[1..], level, ancestors, maxDepth);
      QueueBranchesCons(q, PendingFor(shape, names[1..], level, ancestors), maxDepth);
    }
  }

  lemma QueueBranchesCons(q: Pending, queue: seq<Pending>, maxDepth: int)
    ensures QueueBranches([q] + queue, maxDepth) == BlockBranches(q, maxDepth) + QueueBranches(queue, maxDepth)
  {
    hide BlockBranches;
    assert ([q] + queue)[1..] == queue;
  }

  lemma BlocksBranches(shape: Option<ObjectsSpec>, level: nat, ancestors: seq<Step>, maxDepth: int)
    ensures QueueBranches(Blocks(shape, level, ancestors), maxDepth) == ShallowCount(shape, level, maxDepth)
  {
    hide PendingFor, ShallowNested;
    if shape.Some? {
      PendingBranches(shape.value, Sorted(shape.value.relations.Keys), level, ancestors, maxDepth);
    }
  }

  ghost predicate AllPlain(queue: seq<Pending>) {
    forall i :: 0 <= i < |queue| ==> !IsTransitive(queue[i].name) && NoTransitive(queue[i].spec.objects)
  }

  lemma BlocksPlain(shape: Option<ObjectsSpec>, level: nat, ancestors: seq<Step>)
    requires NoTransitive(shape)
    ensures AllPlain(Blocks(shape, level, ancestors))
  {
    hide IsTransitive;
    if shape.Some? {
      var names := Sorted(shape.value.relations.Keys);
      forall i | 0 <= i < |names|
        ensures var q := Blocks(shape, level, ancestors)[i]; !IsTransitive(q.name) && NoTransitive(q.spec.objects)
      {
        assert names[i] in names;
        PendingIndex(shape.value, names, level, ancestors, i);
      }
    }
  }

  lemma SuccessorsPlain(q: Pending, rest: seq<Pending>, n: nat)
    requires AllPlain([q] + rest)
    ensures !IsTransitive(q.name) && !Stuck(q) && AllPlain(rest) && AllPlain(rest + Successors(q, n))
  {
    hide IsTransitive, NoTransitive;
    assert ([q] + rest)[0] == q;
    assert forall i :: 0 <= i < |rest| ==> ([q] + rest)[i + 1] == rest[i];
    BlocksPlain(q.spec.objects, q.level + 1, q.ancestors + [StepFor(q, n)]);
  }

  lemma SuccessorBranches(q: Pending, rest: seq<Pending>, n: nat, maxDepth: int)
    requires !IsTransitive(q.name) && q.level <= maxDepth
    ensures QueueBranches([q] + rest, maxDepth) == 1 + QueueBranches(rest + Successors(q, n), maxDepth)
  {
    hide ShallowCount, Blocks;
    QueueBranchesConcat(rest, Successors(q, n), maxDepth);
    BlocksBranches(q.spec.objects, q.level + 1, q.ancestors + [StepFor(q, n)], maxDepth);
    assert ([q] + rest)[1..] == rest;
  }

  lemma {:induction false} PassBranches(queue: seq<Pending>, n: nat, maxDepth: int)
    requires AllPlain(queue)
    ensures Pass(queue, n, maxDepth).Generated?
    ensures |Pass(queue, n, maxDepth).plan.selects| == QueueBranches(queue, maxDepth)
    decreases Weight(queue)
  {
    if queue != [] {
      hide Weight, Successors, QueueBranches, AllPlain, Stuck, JoinedFor, IsTransitive;
      var q, rest := queue[0], queue[1..];
      assert queue == [q] + rest;
      WeightTail(queue);
      SuccessorsPlain(q, rest, n);
      if q.level > maxDepth {
        PassBranches(rest, n, maxDepth);
        DeepBranches(q, rest, maxDepth);
      } else {
        SuccessorsLighter(q, n, rest);
        PassBranches(rest + Successors(q, n), n + 1, maxDepth);
        SuccessorBranches(q, rest, n, maxDepth);
      }
    }
  }

  lemma DeepBranches(q: Pending, rest: seq<Pending>, maxDepth: int)
    requires q.level > maxDepth
    ensures QueueBranches([q] + rest, maxDepth) == QueueBranches(rest, maxDepth)
  {
    assert ([q] + rest)[1..] == rest;
  }

  /** Without transitive relations the generator always succeeds, with one branch for each relation
      block no deeper than the limit. */
  lemma OneBranchPerBlock(shape: Option<ObjectsSpec>, maxDepth: int)
    requires NoTransitive(shape)
    ensures PlanFor(shape, maxDepth).Generated?
    ensures |PlanFor(shape, maxDepth).plan.selects| == ShallowCount(shape, 1, maxDepth)
  {
    hide Blocks, NoTransitive, AllPlain, QueueBranches, ShallowCount;
    BlocksPlain(shape, 1, []);
    PassBranches(Blocks(shape, 1, []), 1, maxDepth);
    BlocksBranches(shape, 1, [], maxDepth);
  }

  /** No block is deeper than the limit. */
  ghost predicate FitsDepth(shape: Option<ObjectsSpec>, level: nat, maxDepth: int)
    decreases shape
  {
    shape.Some? && shape.value.relations != map[] ==>
      level <= maxDepth && forall k :: k in shape.value.relations
                             ==> FitsDepth(shape.value.relations[k].objects, level + 1, maxDepth)
  }

  /** The blocks within the depth limit are at most all blocks, and all of them if none is too deep. */
  lemma {:induction false} ShallowAtMostAll(shape: Option<ObjectsSpec>, level: nat, maxDepth: int)
    ensures ShallowCount(shape, level, maxDepth) <= BlockCount(shape)
    ensures FitsDepth(shape, level, maxDepth) ==> ShallowCount(shape, level, maxDepth) == BlockCount(shape)
    decreases shape
  {
    if shape.Some? {
      hide Ascending;
      ShallowNestedAtMost(shape.value, Sorted(shape.value.relations.Keys), level, maxDepth);
      if shape.value.relations == map[] {
        assert |shape.value.relations| == 0;
        assert Sorted(shape.value.relations.Keys) == [];
      }
    }
  }

  lemma {:induction false} ShallowNestedAtMost(shape: ObjectsSpec, names: seq<string>, level: nat, maxDepth: int)
    requires forall k :: k in names ==> k in shape.relations
    ensures ShallowNested(shape, names, level, maxDepth) <= NestedCount(shape, names)
    ensures (forall k :: k in names ==> FitsDepth(shape.relations[k].objects, level + 1, maxDepth))
      ==> ShallowNested(shape, names, level, maxDepth) == NestedCount(shape, names)
    decreases shape, |names|
  {
    if names != [] {
      hide FitsDepth, ShallowCount, BlockCount;
      ShallowNestedAtMost(shape, names[1..], level, maxDepth);
      ShallowAtMostAll(shape.relations[names[0]].objects, level + 1, maxDepth);
    }
  }

  // ----- breadth first -----

  function SelectLevel(s: Select): nat {
    match s
    case Joined(_, _, _, _, _, _, level, _) => level
    case Walked(cte, _, _) => cte.level
    case Attached(_, _, _, _, level, _) => level
  }

  /** Levels do not go down along the queue, and are `low` or one more. */
  ghost predicate Layered(queue: seq<Pending>, low: nat) {
    && (forall i, j :: 0 <= i < j < |queue| ==> queue[i].level <= queue[j].level)
    && (forall i :: 0 <= i < |queue| ==> low <= queue[i].level <= low + 1)
  }

  ghost predicate LevelsAscend(selects: seq<Select>) {
    forall i, j :: 0 <= i < j < |selects| ==> SelectLevel(selects[i]) <= SelectLevel(selects[j])
  }

  lemma BlocksAtLevel(shape: Option<ObjectsSpec>, level: nat, ancestors: seq<Step>)
    ensures forall i :: 0 <= i < |Blocks(shape, level, ancestors)| ==> Blocks(shape, level, ancestors)[i].level == level
  {
    if shape.Some? {
      var names := Sorted(shape.value.relations.Keys);
      forall i | 0 <= i < |names|
        ensures Blocks(shape, level, ancestors)[i].level == level
      {
        PendingIndex(shape.value, names, level, ancestors, i);
      }
    }
  }

  lemma TailLayered(q: Pending, rest: seq<Pending>, low: nat)
    requires Layered([q] + rest, low)
    ensures low <= q.level && Layered(rest, q.level)
  {
    var queue := [q] + rest;
    assert queue[0] == q;
    forall i | 0 <= i < |rest|
      ensures q.level <= rest[i].level <= q.level + 1
    {
      assert queue[i + 1] == rest[i];
    }
    forall i, j | 0 <= i < j < |rest|
      ensures rest[i].level <= rest[j].level
    {
      assert queue[i + 1] == rest[i] && queue[j + 1] == rest[j];
    }
  }

  lemma StaysLayered(q: Pending, rest: seq<Pending>, n: nat)
    requires Layered(rest, q.level)
    ensures Layered(rest + Successors(q, n), q.level)
  {
    hide Blocks;
    BlocksAtLevel(q.spec.objects, q.level + 1, q.ancestors + [StepFor(q, n)]);
  }

  /** The branches of a layered queue come level by level, none below the queue's levels. */
  lemma {:induction false} PassLevels(queue: seq<Pending>, n: nat, maxDepth: int, low: nat)
    requires AllPlain(queue) && Layered(queue, low)
    ensures Pass(queue, n, maxDepth).Generated?
    ensures LevelsAscend(Pass(queue, n, maxDepth).plan.selects)
    ensures AtLeastLevel(Pass(queue, n, maxDepth).plan.selects, low)
    decreases Weight(queue)
  {
    if queue != [] {
      hide Weight, Successors, AllPlain, Stuck, IsTransitive, Layered, LevelsAscend, JoinedFor, AtLeastLevel;
      var q, rest := queue[0], queue[1..];
      assert queue == [q] + rest;
      WeightTail(queue);
      SuccessorsPlain(q, rest, n);
      TailLayered(q, rest, low);
      StaysLayered(q, rest, n);
      if q.level > maxDepth {
        PassLevels(rest, n, maxDepth, q.level);
        LowerFloor(Pass(rest, n, maxDepth).plan.selects, q.level, low);
      } else {
        SuccessorsLighter(q, n, rest);
        PassLevels(rest + Successors(q, n), n + 1, maxDepth, q.level);
        LevelsPrepend(q, n, Pass(rest + Successors(q, n), n + 1, maxDepth).plan.selects, low);
      }
    }
  }

  ghost predicate AtLeastLevel(selects: seq<Select>, low: nat) {
    forall i :: 0 <= i < |selects| ==> low <= SelectLevel(selects[i])
  }

  lemma LowerFloor(selects: seq<Select>, high: nat, low: nat)
    requires AtLeastLevel(selects, high) && low <= high
    ensures AtLeastLevel(selects, low)
  {
  }

  lemma LevelsPrepend(q: Pending, n: nat, later: seq<Select>, low: nat)
    requires LevelsAscend(later) && AtLeastLevel(later, q.level) && low <= q.level
    ensures LevelsAscend([JoinedFor(q, n)] + later) && AtLeastLevel([JoinedFor(q, n)] + later, low)
  {
  }

  /** The branches come level by level. */
  lemma BreadthFirst(shape: Option<ObjectsSpec>, maxDepth: int)
    requires NoTransitive(shape)
    ensures PlanFor(shape, maxDepth).Generated? && LevelsAscend(PlanFor(shape, maxDepth).plan.selects)
  {
    hide Blocks, NoTransitive, AllPlain, LevelsAscend;
    BlocksPlain(shape, 1, []);
    BlocksAtLevel(shape, 1, []);
    PassLevels(Blocks(shape, 1, []), 1, maxDepth, 1);
  }

  // ----- scoping -----

  /** How many linked joins a chain has. */
  function LinkCount(steps: seq<Step>): nat {
    if steps == [] then 0
    else LinkCount(steps[..|steps| - 1]) + (if steps[|steps| - 1].join == Linked then 1 else 0)
  }

  /** The aliases of a chain: row aliases below `n`, and the annotation alias if there is a linked join. */
  lemma {:induction false} AliasesOfChain(steps: seq<Step>, n: nat)
    requires Chained(steps, n)
    ensures forall a :: a in Aliases(steps) && a.RowAlias? ==> a.n < n
    ensures RefAlias in Aliases(steps) <==> LinkCount(steps) > 0
    ensures RowAlias(LastAlias(steps)) in Aliases(steps)
  {
    if steps != [] {
      var init, last := steps[..|steps| - 1], steps[|steps| - 1];
      AliasesOfChain(init, last.child);
    }
  }

  /** A chain declares every alias once exactly when it has at most one linked join. */
  lemma {:induction false} ChainScopedIff(steps: seq<Step>, n: nat)
    requires Chained(steps, n)
    ensures Distinct(Aliases(steps)) <==> LinkCount(steps) <= 1
  {
    if steps != [] {
      var init, last := steps[..|steps| - 1], steps[|steps| - 1];
      var before := Aliases(init);
      var link: seq<Alias> := if last.join == Linked then [RefAlias] else [];
      ChainScopedIff(init, last.child);
      AliasesOfChain(init, last.child);
      assert RowAlias(last.child) !in before + link;
      AppendDistinct(before + link, RowAlias(last.child));
      if last.join == Linked {
        AppendDistinct(before, RefAlias);
      } else {
        assert before + link == before;
      }
    }
  }

  lemma AppendDistinct(s: seq<Alias>, a: Alias)
    ensures Distinct(s + [a]) <==> Distinct(s) && a !in s
  {
    if a in s {
      var i :| 0 <= i < |s| && s[i] == a;
      assert (s + [a])[i] == (s + [a])[|s|];
    }
    if Distinct(s + [a]) {
      assert forall i, j :: 0 <= i < j < |s| ==> (s + [a])[i] == s[i] && (s + [a])[j] == s[j];
    }
  }

  lemma {:induction false} ParentsInScope(steps: seq<Step>, n: nat)
    requires Chained(steps, n)
    ensures forall i :: 0 <= i < |steps| ==> RowAlias(steps[i].parent) in Aliases(steps[..i])
    ensures forall a :: a in PathAliases(steps) ==> RowAlias(a) in Aliases(steps)
  {
    if steps != [] {
      var init, last := steps[..|steps| - 1], steps[|steps| - 1];
      ParentsInScope(init, last.child);
      AliasesOfChain(init, last.child);
      forall i | 0 <= i < |steps|
        ensures RowAlias(steps[i].parent) in Aliases(steps[..i])
      {
        if i < |init| {
          assert steps[..i] == init[..i] && steps[i] == init[i];
        }
      }
    }
  }

  /** The linked joins on the way to and including a joined block. */
  function LinksAt(name: string, spec: RelationSpec, links: nat): nat {
    links + if JoinFor(BaseRelation(name), spec.filters) == Linked then 1 else 0
  }

  /** No JSON path in the filters or the projection of a block has an empty part. */
  ghost predicate ReadableBlock(name: string, spec: RelationSpec) {
    ClausesReadable(BlockClauses(name, spec)) && ProjectionReadable(ShapeProjection(spec.objects))
  }

  ghost predicate ReadableSubs(shape: Option<ObjectsSpec>) {
    shape.Some? ==> forall k :: k in shape.value.relations && !IsTransitive(k)
                      ==> ReadableBlock(k, shape.value.relations[k])
  }

  /** The database accepts a block below `links` linked joins: no second linked join on any way
      down to a joined block, no kind, name or namespace filter on a transitive block, and no JSON path
      with an empty part. */
  ghost predicate AcceptedBlock(name: string, spec: RelationSpec, level: nat, links: nat, maxDepth: int)
    decreases spec, 1
  {
    level <= maxDepth ==>
      if IsTransitive(name) then
        && links <= 1 && InnerClauses(spec.filters) == []
        && ProjectionReadable(ShapeProjection(spec.objects)) && ReadableSubs(spec.objects)
      else
        && LinksAt(name, spec, links) <= 1 && ReadableBlock(name, spec)
        && AcceptedShape(spec.objects, level + 1, LinksAt(name, spec, links), maxDepth)
  }

  ghost predicate AcceptedShape(shape: Option<ObjectsSpec>, level: nat, links: nat, maxDepth: int)
    decreases shape
  {
    shape.Some? ==> forall k :: k in shape.value.relations
                      ==> AcceptedBlock(k, shape.value.relations[k], level, links, maxDepth)
  }

  ghost predicate AcceptedPending(q: Pending, maxDepth: int) {
    AcceptedBlock(q.name, q.spec, q.level, LinkCount(q.ancestors), maxDepth)
  }

  ghost predicate AllAccepted(queue: seq<Pending>, maxDepth: int) {
    forall i :: 0 <= i < |queue| ==> AcceptedPending(queue[i], maxDepth)
  }

  ghost predicate AllRunnable(selects: seq<Select>) {
    forall i :: 0 <= i < |selects| ==> Runnable(selects[i])
  }

  lemma AllRunnableConcat(a: seq<Select>, b: seq<Select>)
    ensures AllRunnable(a + b) <==> AllRunnable(a) && AllRunnable(b)
  {
    hide Runnable;
    assert forall i :: 0 <= i < |a| ==> (a + b)[i] == a[i];
    assert forall i :: 0 <= i < |b| ==> (a + b)[|a| + i] == b[i];
  }

  lemma AllAcceptedConcat(a: seq<Pending>, b: seq<Pending>, maxDepth: int)
    ensures AllAccepted(a + b, maxDepth) <==> AllAccepted(a, maxDepth) && AllAccepted(b, maxDepth)
  {
    hide AcceptedPending;
    assert forall i :: 0 <= i < |a| ==> (a + b)[i] == a[i];
    assert forall i :: 0 <= i < |b| ==> (a + b)[|a| + i] == b[i];
  }

  lemma BlocksAcceptedIff(shape: Option<ObjectsSpec>, level: nat, ancestors: seq<Step>, maxDepth: int)
    ensures AllAccepted(Blocks(shape, level, ancestors), maxDepth)
            <==> AcceptedShape(shape, level, LinkCount(ancestors), maxDepth)
  {
    hide AcceptedBlock, PendingFor, LinkCount;
    if shape.Some? {
      var names := Sorted(shape.value.relations.Keys);
      var blocks := Blocks(shape, level, ancestors);
      forall i | 0 <= i < |names|
        ensures names[i] in shape.value.relations
        ensures blocks[i] == Pending(level, names[i], shape.value.relations[names[i]], ancestors)
      {
        assert names[i] in names;
        PendingIndex(shape.value, names, level, ancestors, i);
      }
      if AllAccepted(blocks, maxDepth) {
        forall k | k in shape.value.relations
          ensures AcceptedBlock(k, shape.value.relations[k], level, LinkCount(ancestors), maxDepth)
        {
          assert k in names;
          var i :| 0 <= i < |names| && names[i] == k;
          assert AcceptedPending(blocks[i], maxDepth);
        }
      }
    }
  }

  lemma JoinedRunnableIff(q: Pending, n: nat)
    requires Chained(q.ancestors, n)
    ensures Runnable(JoinedFor(q, n))
            <==> LinksAt(q.name, q.spec, LinkCount(q.ancestors)) <= 1 && ReadableBlock(q.name, q.spec)
    ensures LinkCount(q.ancestors + [StepFor(q, n)]) == LinksAt(q.name, q.spec, LinkCount(q.ancestors))
  {
    hide BlockClauses, ClausesReadable, ProjectionReadable;
    var steps := q.ancestors + [StepFor(q, n)];
    assert steps[..|steps| - 1] == q.ancestors;
    ChainedExtend(q, n);
    ChainScopedIff(steps, n + 1);
    ParentsInScope(steps, n + 1);
    AliasesOfChain(steps, n + 1);
    assert PathAliases(steps) == PathAliases(q.ancestors) + [n];
  }

  lemma AttachedOneIff(cte: Cte, name: string, spec: RelationSpec, level: nat)
    requires Distinct(Aliases(cte.steps))
    ensures AllRunnable(AttachedOne(cte, name, spec, level)) <==> IsTransitive(name) || ReadableBlock(name, spec)
  {
    hide BlockClauses, Distinct, Aliases, ClausesReadable, ProjectionReadable;
    if !IsTransitive(name) {
      var s := AttachedOne(cte, name, spec, level)[0];
      assert AttachedOne(cte, name, spec, level) == [s];
      assert AllRunnable([s]) <==> Runnable([s][0]);
    }
  }

  lemma {:induction false} AttachedRunnableIff(cte: Cte, shape: ObjectsSpec, names: seq<string>, level: nat)
    requires forall k :: k in names ==> k in shape.relations
    requires Distinct(Aliases(cte.steps))
    ensures AllRunnable(AttachedFor(cte, shape, names, level))
            <==> forall k :: k in names && !IsTransitive(k) ==> ReadableBlock(k, shape.relations[k])
  {
    hide AttachedOne, Distinct, Aliases, ReadableBlock, IsTransitive, Runnable;
    if names != [] {
      AttachedRunnableIff(cte, shape, names[1..], level);
      AttachedOneIff(cte, names[0], shape.relations[names[0]], level);
      AllRunnableConcat(AttachedOne(cte, names[0], shape.relations[names[0]], level),
                        AttachedFor(cte, shape, names[1..], level));
      assert forall k :: k in names <==> k == names[0] || k in names[1..];
    }
  }

  lemma SubsRunnableIff(cte: Cte, shape: Option<ObjectsSpec>, level: nat)
    requires Distinct(Aliases(cte.steps))
    ensures AllRunnable(SubSelects(cte, shape, level)) <==> ReadableSubs(shape)
  {
    hide AttachedFor, Distinct, Aliases, ReadableBlock, IsTransitive, Runnable;
    if shape.Some? {
      AttachedRunnableIff(cte, shape.value, Sorted(shape.value.relations.Keys), level);
    }
  }

  lemma WalkedRunnableIff(q: Pending, n: nat, maxDepth: int)
    requires Chained(q.ancestors, n) && IsTransitive(q.name) && !Stuck(q)
    ensures AllRunnable(Emitted(q, n, maxDepth).selects)
            <==> && LinkCount(q.ancestors) <= 1 && InnerClauses(q.spec.filters) == []
                 && ProjectionReadable(ShapeProjection(q.spec.objects)) && ReadableSubs(q.spec.objects)
  {
    hide Chained, LinkCount, InnerClauses, Distinct, Aliases, SubSelects, IsTransitive, ReadableSubs,
         ProjectionReadable;
    var cte := CteFor(q, BaseOf(BaseRelation(q.name)).value, n, maxDepth);
    var walked := Walked(cte, InnerClauses(q.spec.filters), q.spec.limit);
    ChainScopedIff(q.ancestors, n);
    AllRunnableConcat([walked], SubSelects(cte, q.spec.objects, q.level + 1));
    assert AllRunnable([walked]) <==> Runnable([walked][0]);
    if Distinct(Aliases(cte.steps)) {
      SubsRunnableIff(cte, q.spec.objects, q.level + 1);
    }
  }

  /** A block is accepted exactly when its own branches and all its successors are. */
  lemma EmittedRunnableIff(q: Pending, n: nat, maxDepth: int)
    requires Chained(q.ancestors, n) && q.level <= maxDepth && !Stuck(q)
    ensures AcceptedPending(q, maxDepth)
       <==> AllRunnable(Emitted(q, n, maxDepth).selects) && AllAccepted(Successors(q, n), maxDepth)
  {
    hide Chained, LinkCount, Runnable, JoinedFor, Blocks, InnerClauses, IsTransitive, CteFor, SubSelects,
         ReadableBlock, ReadableSubs, ProjectionReadable;
    if IsTransitive(q.name) {
      WalkedRunnableIff(q, n, maxDepth);
    } else {
      JoinedRunnableIff(q, n);
      BlocksAcceptedIff(q.spec.objects, q.level + 1, q.ancestors + [StepFor(q, n)], maxDepth);
      assert AllRunnable([JoinedFor(q, n)]) <==> Runnable([JoinedFor(q, n)][0]);
    }
  }

  ghost predicate AllChained(queue: seq<Pending>, n: nat) {
    forall i :: 0 <= i < |queue| ==> Chained(queue[i].ancestors, n)
  }

  lemma BlocksChained(shape: Option<ObjectsSpec>, level: nat, ancestors: seq<Step>, n: nat)
    requires Chained(ancestors, n)
    ensures AllChained(Blocks(shape, level, ancestors), n)
  {
    hide Chained;
    if shape.Some? {
      var names := Sorted(shape.value.relations.Keys);
      forall i | 0 <= i < |names|
        ensures Chained(Blocks(shape, level, ancestors)[i].ancestors, n)
      {
        PendingIndex(shape.value, names, level, ancestors, i);
      }
    }
  }

  lemma QueueChained(q: Pending, rest: seq<Pending>, n: nat)
    requires AllChained([q] + rest, n)
    ensures Chained(q.ancestors, n) && AllChained(rest, n) && AllChained(rest + Successors(q, n), n + 1)
  {
    assert ([q] + rest)[0] == q;
    ChainedExtend(q, n);
    BlocksChained(q.spec.objects, q.level + 1, q.ancestors + [StepFor(q, n)], n + 1);
    forall i | 0 <= i < |rest|
      ensures Chained(rest[i].ancestors, n) && Chained(rest[i].ancestors, n + 1)
    {
      assert ([q] + rest)[i + 1] == rest[i];
      ChainedWeaken(rest[i].ancestors, n, n + 1);
    }
  }

  lemma {:induction false} PassRunnableIff(queue: seq<Pending>, n: nat, maxDepth: int)
    requires AllChained(queue, n) && Pass(queue, n, maxDepth).Generated?
    ensures AllRunnable(Pass(queue, n, maxDepth).plan.selects) <==> AllAccepted(queue, maxDepth)
    decreases Weight(queue)
  {
    if queue != [] {
      hide Weight, Emitted, Successors, AllAccepted, AllChained, AllRunnable, Stuck, Chained;
      var q, rest := queue[0], queue[1..];
      assert queue == [q] + rest;
      WeightTail(queue);
      QueueChained(q, rest, n);
      AllAcceptedConcat([q], rest, maxDepth);
      AcceptedOne(q, maxDepth);
      if q.level > maxDepth {
        PassRunnableIff(rest, n, maxDepth);
      } else {
        SuccessorsLighter(q, n, rest);
        PassRunnableIff(rest + Successors(q, n), n + 1, maxDepth);
        AllAcceptedConcat(rest, Successors(q, n), maxDepth);
        EmittedRunnableIff(q, n, maxDepth);
        AllRunnableConcat(Emitted(q, n, maxDepth).selects, Pass(rest + Successors(q, n), n + 1, maxDepth).plan.selects);
      }
    }
  }

  lemma AcceptedOne(q: Pending, maxDepth: int)
    ensures AllAccepted([q], maxDepth) <==> AcceptedPending(q, maxDepth)
    ensures q.level > maxDepth ==> AcceptedPending(q, maxDepth)
  {
    assert AllAccepted([q], maxDepth) ==> AcceptedPending([q][0], maxDepth);
  }

  /** What the database answers to a plan. It rejects a query that declares an alias twice or uses one out
      of scope; a JSON path with an empty part, from the query or from a stored selector that is joined
      on, makes it fail when it is evaluated. */
  ghost function Executed(plan: Plan, projection: Option<Projection>, roots: seq<Obj>, objects: seq<Obj>,
                          cat: Catalog): Option<seq<Row>> {
    if AllRunnable(plan.selects) && ProjectionReadable(projection) && SelectorsSafe(plan, objects)
    then Some(QueryRows(plan, projection, roots, objects, cat)) else None
  }

  /** Selectors that are joined on have no key with an empty part. */
  ghost predicate SelectorsSafe(plan: Plan, objects: seq<Obj>) {
    (exists i :: 0 <= i < |plan.selects| && UsesSelectors(plan.selects[i])) ==> SelectorsReadable(objects)
  }

  /** In the generated query every alias is declared once and used in scope, and no JSON path has an empty
      part, exactly when no linked relation stands below another, no transitive block filters on kind,
      name or namespace, and no label key or projection path in use has an empty part. */
  lemma PlanRunnableIff(shape: Option<ObjectsSpec>, maxDepth: int)
    requires PlanFor(shape, maxDepth).Generated?
    ensures AllRunnable(PlanFor(shape, maxDepth).plan.selects) <==> AcceptedShape(shape, 1, 0, maxDepth)
  {
    hide Blocks, AllAccepted, AllRunnable, AcceptedShape, AllChained;
    assert Chained([], 1);
    BlocksChained(shape, 1, [], 1);
    PassRunnableIff(Blocks(shape, 1, []), 1, maxDepth);
    BlocksAcceptedIff(shape, 1, [], maxDepth);
  }

  // ----- joins on stored selectors -----

  /** Neither the block nor any block below it, down to the depth limit, joins on stored selectors. */
  ghost predicate SelectorFreeBlock(name: string, spec: RelationSpec, level: nat, maxDepth: int)
    decreases spec, 1
  {
    level <= maxDepth ==>
      if IsTransitive(name) then SelectorFreeSubs(spec.objects)
      else !BlockReadsSelectors(name, spec) && SelectorFree(spec.objects, level + 1, maxDepth)
  }

  ghost predicate SelectorFree(shape: Option<ObjectsSpec>, level: nat, maxDepth: int)
    decreases shape
  {
    shape.Some? ==> forall k :: k in shape.value.relations
                      ==> SelectorFreeBlock(k, shape.value.relations[k], level, maxDepth)
  }

  ghost predicate SelectorFreeSubs(shape: Option<ObjectsSpec>) {
    shape.Some? ==> forall k :: k in shape.value.relations && !IsTransitive(k)
                      ==> !BlockReadsSelectors(k, shape.value.relations[k])
  }

  predicate BlockReadsSelectors(name: string, spec: RelationSpec) {
    ReadsSelectors(JoinFor(BaseRelation(name), spec.filters))
  }

  ghost predicate FreePending(q: Pending, maxDepth: int) {
    q.level <= maxDepth ==> !StepsReadSelectors(q.ancestors) && SelectorFreeBlock(q.name, q.spec, q.level, maxDepth)
  }

  ghost predicate AllFree(queue: seq<Pending>, maxDepth: int) {
    forall i :: 0 <= i < |queue| ==> FreePending(queue[i], maxDepth)
  }

  ghost predicate NoneUse(selects: seq<Select>) {
    forall i :: 0 <= i < |selects| ==> !UsesSelectors(selects[i])
  }

  lemma AllFreeConcat(a: seq<Pending>, b: seq<Pending>, maxDepth: int)
    ensures AllFree(a + b, maxDepth) <==> AllFree(a, maxDepth) && AllFree(b, maxDepth)
  {
    hide FreePending;
    assert forall i :: 0 <= i < |a| ==> (a + b)[i] == a[i];
    assert forall i :: 0 <= i < |b| ==> (a + b)[|a| + i] == b[i];
  }

  lemma NoneUseConcat(a: seq<Select>, b: seq<Select>)
    ensures NoneUse(a + b) <==> NoneUse(a) && NoneUse(b)
  {
    hide UsesSelectors;
    assert forall i :: 0 <= i < |a| ==> (a + b)[i] == a[i];
    assert forall i :: 0 <= i < |b| ==> (a + b)[|a| + i] == b[i];
  }

  lemma OneFree(q: Pending, maxDepth: int)
    ensures AllFree([q], maxDepth) <==> FreePending(q, maxDepth)
  {
    hide FreePending;
    assert [q][0] == q;
  }

  lemma NoneUseNothing()
    ensures NoneUse([])
  {
  }

  lemma OneUse(s: Select)
    ensures NoneUse([s]) <==> !UsesSelectors(s)
  {
    hide UsesSelectors;
    assert [s][0] == s;
  }

  lemma BlocksFreeIff(shape: Option<ObjectsSpec>, level: nat, ancestors: seq<Step>, maxDepth: int)
    requires !StepsReadSelectors(ancestors)
    ensures AllFree(Blocks(shape, level, ancestors), maxDepth) <==> SelectorFree(shape, level, maxDepth)
  {
    hide SelectorFreeBlock, PendingFor, StepsReadSelectors;
    if shape.Some? {
      var names := Sorted(shape.value.relations.Keys);
      var blocks := Blocks(shape, level, ancestors);
      forall i | 0 <= i < |names|
        ensures names[i] in shape.value.relations
        ensures blocks[i] == Pending(level, names[i], shape.value.relations[names[i]], ancestors)
      {
        assert names[i] in names;
        PendingIndex(shape.value, names, level, ancestors, i);
      }
      FreeTooDeep(shape.value, level, maxDepth);
      if AllFree(blocks, maxDepth) {
        forall k | k in shape.value.relations
          ensures SelectorFreeBlock(k, shape.value.relations[k], level, maxDepth)
        {
          assert k in names;
          var i :| 0 <= i < |names| && names[i] == k;
          assert FreePending(blocks[i], maxDepth);
        }
      }
    }
  }

  lemma FreeTooDeep(shape: ObjectsSpec, level: nat, maxDepth: int)
    ensures level > maxDepth
            ==> forall k :: k in shape.relations ==> SelectorFreeBlock(k, shape.relations[k], level, maxDepth)
  {
  }

  lemma {:induction false} AttachedUseIff(cte: Cte, shape: ObjectsSpec, names: seq<string>, level: nat)
    requires forall k :: k in names ==> k in shape.relations
    requires !StepsReadSelectors(cte.steps)
    ensures NoneUse(AttachedFor(cte, shape, names, level))
            <==> forall k :: k in names && !IsTransitive(k) ==> !BlockReadsSelectors(k, shape.relations[k])
  {
    hide IsTransitive, StepsReadSelectors, NoneUse, BlockClauses, ReadsSelectors;
    if names == [] {
      NoneUseNothing();
    } else {
      AttachedUseIff(cte, shape, names[1..], level);
      var one := AttachedOne(cte, names[0], shape.relations[names[0]], level);
      NoneUseConcat(one, AttachedFor(cte, shape, names[1..], level));
      if IsTransitive(names[0]) {
        NoneUseNothing();
      } else {
        OneUse(one[0]);
        assert one == [one[0]];
      }
      assert forall k :: k in names <==> k == names[0] || k in names[1..];
    }
  }

  lemma WalkedUseIff(q: Pending, n: nat, maxDepth: int)
    requires IsTransitive(q.name) && !Stuck(q)
    ensures NoneUse(Emitted(q, n, maxDepth).selects)
            <==> !StepsReadSelectors(q.ancestors) && SelectorFreeSubs(q.spec.objects)
  {
    hide IsTransitive, StepsReadSelectors, NoneUse, InnerClauses, BlockReadsSelectors, AttachedFor;
    var cte := CteFor(q, BaseOf(BaseRelation(q.name)).value, n, maxDepth);
    var walked := Walked(cte, InnerClauses(q.spec.filters), q.spec.limit);
    NoneUseConcat([walked], SubSelects(cte, q.spec.objects, q.level + 1));
    OneUse(walked);
    if q.spec.objects.None? {
      NoneUseNothing();
    } else if !StepsReadSelectors(q.ancestors) {
      AttachedUseIff(cte, q.spec.objects.value, Sorted(q.spec.objects.value.relations.Keys), q.level + 1);
    }
  }

  lemma StepsReadLast(steps: seq<Step>, s: Step)
    ensures StepsReadSelectors(steps + [s]) <==> StepsReadSelectors(steps) || ReadsSelectors(s.join)
  {
    assert (steps + [s])[|steps|] == s;
    assert forall i :: 0 <= i < |steps| ==> (steps + [s])[i] == steps[i];
  }

  lemma EmittedFreeIff(q: Pending, n: nat, maxDepth: int)
    requires q.level <= maxDepth && !Stuck(q)
    ensures FreePending(q, maxDepth)
       <==> NoneUse(Emitted(q, n, maxDepth).selects) && AllFree(Successors(q, n), maxDepth)
  {
    hide StepsReadSelectors, NoneUse, Blocks, IsTransitive, SelectorFree, SelectorFreeSubs, InnerClauses,
         BlockClauses, ReadsSelectors;
    if IsTransitive(q.name) {
      WalkedUseIff(q, n, maxDepth);
    } else {
      OneUse(JoinedFor(q, n));
      StepsReadLast(q.ancestors, StepFor(q, n));
      if !StepsReadSelectors(q.ancestors + [StepFor(q, n)]) {
        BlocksFreeIff(q.spec.objects, q.level + 1, q.ancestors + [StepFor(q, n)], maxDepth);
      }
    }
  }

  lemma {:induction false} PassFreeIff(queue: seq<Pending>, n: nat, maxDepth: int)
    requires Pass(queue, n, maxDepth).Generated?
    ensures NoneUse(Pass(queue, n, maxDepth).plan.selects) <==> AllFree(queue, maxDepth)
    decreases Weight(queue)
  {
    if queue != [] {
      hide Weight, Emitted, Successors, AllFree, NoneUse, Stuck;
      var q, rest := queue[0], queue[1..];
      assert queue == [q] + rest;
      WeightTail(queue);
      AllFreeConcat([q], rest, maxDepth);
      OneFree(q, maxDepth);
      if q.level > maxDepth {
        PassFreeIff(rest, n, maxDepth);
      } else {
        SuccessorsLighter(q, n, rest);
        PassFreeIff(rest + Successors(q, n), n + 1, maxDepth);
        AllFreeConcat(rest, Successors(q, n), maxDepth);
        EmittedFreeIff(q, n, maxDepth);
        NoneUseConcat(Emitted(q, n, maxDepth).selects, Pass(rest + Successors(q, n), n + 1, maxDepth).plan.selects);
      }
    }
  }

  /** The database runs the query generated for the shape over the stored objects without error. */
  ghost predicate Acceptable(shape: Option<ObjectsSpec>, maxDepth: int, objects: seq<Obj>) {
    && AcceptedShape(shape, 1, 0, maxDepth) && ProjectionReadable(ShapeProjection(shape))
    && (SelectorFree(shape, 1, maxDepth) || SelectorsReadable(objects))
  }

  /** The selectors that the generated query reads are safe exactly if no block within the depth limit
      reads any, or no stored selector has a key with an empty part. */
  lemma SelectorsSafeIff(shape: Option<ObjectsSpec>, maxDepth: int, objects: seq<Obj>)
    requires PlanFor(shape, maxDepth).Generated?
    ensures SelectorsSafe(PlanFor(shape, maxDepth).plan, objects)
            <==> SelectorFree(shape, 1, maxDepth) || SelectorsReadable(objects)
  {
    hide Blocks, SelectorFree, UsesSelectors, SelectorsReadable, AllFree;
    PassFreeIff(Blocks(shape, 1, []), 1, maxDepth);
    BlocksFreeIff(shape, 1, [], maxDepth);
  }

  /** Asking for whole objects, the projection `true` on the roots, is never acceptable. */
  lemma WholeObjectRejected(shape: ObjectsSpec, maxDepth: int, objects: seq<Obj>)
    requires ShapeProjection(Some(shape)) == Some(Include)
    ensures !Acceptable(Some(shape), maxDepth, objects)
  {
    hide Readable, AcceptedShape, SelectorFree;
    WholeObjectRaises(JNull);
  }
}
