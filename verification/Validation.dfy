/** Defaults and limits applied to a query before it runs. */
module Validation {
  import opened Options
  import opened Text
  import opened Spec
  import opened Plans
  import opened Generator

  const DEFAULT_LIMIT := 100
  const MAX_LIMIT := 10000
  const DEFAULT_MAX_DEPTH := 10
  const HARD_MAX_DEPTH := 20
  const MAX_TOTAL_ROWS := 10000
  const MAX_RELATION_BLOCKS := 10

  const SORT_FIELDS: seq<string> := ["name", "namespace", "kind", "apiGroup", "cluster", "creationTimestamp"]

  datatype Outcome =
    | Valid | LimitTooLarge | DepthTooLarge | UnknownField(field: string) | BadDirection | NegativeOffset
    | TooManyBlocks(count: nat)

  predicate OrderOk(o: OrderSpec) {
    o.field in SORT_FIELDS && o.direction != OtherDirection
  }

  function DefaultedLimit(limit: int): int {
    if limit <= 0 then DEFAULT_LIMIT else limit
  }

  function DefaultedDepth(depth: int): int {
    if depth <= 0 then DEFAULT_MAX_DEPTH else depth
  }

  function Defaulted(q: QuerySpec): QuerySpec {
    q.(limit := DefaultedLimit(q.limit), maxDepth := DefaultedDepth(q.maxDepth))
  }

  /** What a query must satisfy to be run. */
  ghost predicate Acceptable(q: QuerySpec) {
    && q.limit <= MAX_LIMIT && q.maxDepth <= HARD_MAX_DEPTH
    && (forall i :: 0 <= i < |q.order| ==> OrderOk(q.order[i]))
    && (q.page.Some? ==> q.page.value.first >= 0)
    && BlockCount(q.objects) <= MAX_RELATION_BLOCKS
  }

  /** The complaint about the first order entry that has one. */
  function OrderVerdict(order: seq<OrderSpec>): Outcome {
    if order == [] then Valid
    else if order[0].field !in SORT_FIELDS then UnknownField(order[0].field)
    else if order[0].direction == OtherDirection then BadDirection
    else OrderVerdict(order[1..])
  }

  /** The first complaint about a query, in the order of the checks. */
  ghost function Verdict(q: QuerySpec): Outcome {
    if q.limit > MAX_LIMIT then LimitTooLarge
    else if q.maxDepth > HARD_MAX_DEPTH then DepthTooLarge
    else if OrderVerdict(q.order) != Valid then OrderVerdict(q.order)
    else if q.page.Some? && q.page.value.first < 0 then NegativeOffset
    else if BlockCount(q.objects) > MAX_RELATION_BLOCKS then TooManyBlocks(BlockCount(q.objects))
    else Valid
  }

  lemma {:induction false} OrderValidIff(order: seq<OrderSpec>)
    ensures OrderVerdict(order) == Valid <==> forall i :: 0 <= i < |order| ==> OrderOk(order[i])
  {
    if order != [] {
      OrderValidIff(order[1..]);
      assert forall i :: 0 < i < |order| ==> order[i] == order[1..][i - 1];
    }
  }

  /** There is no complaint about exactly the acceptable queries: at most 10000 roots, depth at most 20, known
      sort fields and directions, no negative offset, at most 10 relation blocks. */
  lemma AcceptedIff(q: QuerySpec)
    ensures Verdict(q) == Valid <==> Acceptable(q)
    ensures Acceptable(q)
       <==> && q.limit <= 10000 && q.maxDepth <= 20
            && (forall o :: o in q.order
                  ==> o.field in ["name", "namespace", "kind", "apiGroup", "cluster", "creationTimestamp"]
                      && (o.direction.Unset? || o.direction.Asc? || o.direction.Desc?))
            && (q.page.Some? ==> q.page.value.first >= 0)
            && BlockCount(q.objects) <= 10
  {
    hide BlockCount;
    OrderValidIff(q.order);
    if Acceptable(q) {
      forall o | o in q.order
        ensures OrderOk(o)
      {
        var i :| 0 <= i < |q.order| && q.order[i] == o;
      }
    }
  }

  /** The order entry at `i` is the first with a complaint. */
  ghost predicate FirstBad(order: seq<OrderSpec>, i: nat) {
    i < |order| && !OrderOk(order[i]) && forall j :: 0 <= j < i ==> OrderOk(order[j])
  }

  lemma {:induction false} OrderVerdictIsFirst(order: seq<OrderSpec>, i: nat)
    requires FirstBad(order, i)
    ensures OrderVerdict(order)
            == if order[i].field in SORT_FIELDS then BadDirection else UnknownField(order[i].field)
  {
    if i > 0 {
      assert forall j :: 0 <= j < |order| - 1 ==> order[1..][j] == order[j + 1];
      OrderVerdictIsFirst(order[1..], i - 1);
    } else {
      assert order[0] == order[i];
    }
  }

  /** Limit, depth, order, offset and block count are complained about in this order. */
  lemma VerdictIsFirst(q: QuerySpec)
    ensures Verdict(q) == LimitTooLarge <==> q.limit > 10000
    ensures Verdict(q) == DepthTooLarge <==> q.limit <= 10000 && q.maxDepth > 20
    ensures q.limit <= 10000 && q.maxDepth <= 20 ==> forall i: nat :: FirstBad(q.order, i) ==>
              Verdict(q) == if q.order[i].field in SORT_FIELDS then BadDirection else UnknownField(q.order[i].field)
    ensures Verdict(q) == NegativeOffset
       <==> && q.limit <= 10000 && q.maxDepth <= 20 && (forall o :: o in q.order ==> OrderOk(o))
            && q.page.Some? && q.page.value.first < 0
    ensures Verdict(q).TooManyBlocks?
       <==> && q.limit <= 10000 && q.maxDepth <= 20 && (forall o :: o in q.order ==> OrderOk(o))
            && (q.page.Some? ==> q.page.value.first >= 0) && BlockCount(q.objects) > 10
  {
    hide BlockCount, OrderVerdict;
    OrderValidIff(q.order);
    OrderVerdictKinds(q.order);
    forall i: nat | FirstBad(q.order, i)
      ensures OrderVerdict(q.order)
              == if q.order[i].field in SORT_FIELDS then BadDirection else UnknownField(q.order[i].field)
    {
      OrderVerdictIsFirst(q.order, i);
    }
    assert (forall i :: 0 <= i < |q.order| ==> OrderOk(q.order[i])) <==> forall o :: o in q.order ==> OrderOk(o);
  }

  lemma {:induction false} OrderVerdictKinds(order: seq<OrderSpec>)
    ensures OrderVerdict(order).Valid? || OrderVerdict(order).UnknownField? || OrderVerdict(order).BadDirection?
  {
    if order != [] {
      OrderVerdictKinds(order[1..]);
    }
  }

  /** The number of relation blocks, nested ones included, counted by recursion and a running sum. */
  method CountRelationBlocks(shape: Option<ObjectsSpec>) returns (count: nat)
    ensures count == BlockCount(shape)
    decreases shape, 1
  {
    if shape.None? || |shape.value.relations| == 0 {
      assert shape.Some? ==> Sorted(shape.value.relations.Keys) == [];
      return 0;
    }
    var names := SortKeys(shape.value.relations.Keys);
    var nested := CountNested(shape.value, names);
    count := |shape.value.relations| + nested;
  }

  method CountNested(shape: ObjectsSpec, names: seq<string>) returns (count: nat)
    requires forall k :: k in names ==> k in shape.relations
    ensures count == NestedCount(shape, names)
    decreases shape, 0
  {
    count := 0;
    var i := |names|;
    while i > 0
      invariant 0 <= i <= |names|
      invariant count == NestedCount(shape, names[i..])
    {
      i := i - 1;
      assert names[i] in names;
      assert names[i..][1..] == names[i + 1..];
      var more := CountRelationBlocks(shape.relations[names[i]].objects);
      count := count + more;
    }
    assert names[0..] == names;
  }

  method CheckOrder(order: seq<OrderSpec>) returns (outcome: Outcome)
    ensures outcome == OrderVerdict(order) && (outcome.Valid? || outcome.UnknownField? || outcome.BadDirection?)
  {
    var i := 0;
    assert order[0..] == order;
    while i < |order|
      invariant 0 <= i <= |order|
      invariant OrderVerdict(order) == OrderVerdict(order[i..])
    {
      assert order[i..][1..] == order[i + 1..];
      if order[i].field !in SORT_FIELDS {
        return UnknownField(order[i].field);
      }
      if order[i].direction == OtherDirection {
        return BadDirection;
      }
      i := i + 1;
    }
    outcome := Valid;
  }

  /** A submitted query, whose spec validation completes in place. */
  class Query {
    var spec: QuerySpec

    constructor (spec: QuerySpec)
      ensures this.spec == spec
    {
      this.spec := spec;
    }

    /** Gives the first complaint, and fills in the default limit and, unless the limit is too large,
        the default depth. */
    method Validate() returns (outcome: Outcome)
      modifies this
      ensures outcome == Verdict(old(spec))
      ensures outcome == Valid <==> Acceptable(old(spec))
      ensures spec == if outcome.LimitTooLarge? then old(spec) else Defaulted(old(spec))
    {
      AcceptedIff(spec);
      assert BlockCount(None) == 0;
      hide OrderVerdict, BlockCount, Acceptable;
      if spec.limit <= 0 {
        spec := spec.(limit := DEFAULT_LIMIT);
      }
      if spec.limit > MAX_LIMIT {
        return LimitTooLarge;
      }
      if spec.maxDepth <= 0 {
        spec := spec.(maxDepth := DEFAULT_MAX_DEPTH);
      }
      if spec.maxDepth > HARD_MAX_DEPTH {
        return DepthTooLarge;
      }
      var order := CheckOrder(spec.order);
      if order != Valid {
        return order;
      }
      if spec.page.Some? && spec.page.value.first < 0 {
        return NegativeOffset;
      }
      if spec.objects.Some? {
        var count := CountRelationBlocks(spec.objects);
        if count > MAX_RELATION_BLOCKS {
          return TooManyBlocks(count);
        }
      }
      outcome := Valid;
    }
  }

  /** Bounds that hold of every query that runs. */
  lemma Bounds(q: QuerySpec)
    requires Acceptable(q)
    ensures 1 <= Defaulted(q).limit <= 10000 && 1 <= Defaulted(q).maxDepth <= 20
    ensures Defaulted(q) == q.(limit := if q.limit <= 0 then 100 else q.limit,
                               maxDepth := if q.maxDepth <= 0 then 10 else q.maxDepth)
    ensures Defaulted(Defaulted(q)) == Defaulted(q) && Acceptable(Defaulted(q))
  {
  }

  // ----- the size of the plan -----

  lemma {:induction false} AttachedAtMost(cte: Cte, shape: ObjectsSpec, names: seq<string>, level: nat)
    requires forall k :: k in names ==> k in shape.relations
    ensures |AttachedFor(cte, shape, names, level)| <= |names|
  {
    if names != [] {
      AttachedAtMost(cte, shape, names[1..], level);
    }
  }

  lemma EmittedAtMost(q: Pending, n: nat, maxDepth: int)
    requires !Stuck(q)
    ensures |Emitted(q, n, maxDepth).selects| + Weight(Successors(q, n)) <= 1 + BlockCount(q.spec.objects)
  {
    hide AttachedFor, Blocks, IsTransitive, JoinedFor, InnerClauses, Ascending, CteFor, NestedCount;
    if IsTransitive(q.name) {
      if q.spec.objects.Some? {
        var shape := q.spec.objects.value;
        var cte := CteFor(q, BaseOf(BaseRelation(q.name)).value, n, maxDepth);
        AttachedAtMost(cte, shape, Sorted(shape.relations.Keys), q.level + 1);
      }
    } else {
      BlocksWeight(q.spec.objects, q.level + 1, q.ancestors + [StepFor(q, n)]);
    }
  }

  lemma {:induction false} PassAtMost(queue: seq<Pending>, n: nat, maxDepth: int)
    requires Pass(queue, n, maxDepth).Generated?
    ensures |Pass(queue, n, maxDepth).plan.selects| <= Weight(queue)
    decreases Weight(queue)
  {
    if queue != [] {
      hide Emitted, Successors, BlockCount, Stuck;
      var q, rest := queue[0], queue[1..];
      assert queue == [q] + rest;
      WeightTail(queue);
      if q.level > maxDepth {
        PassAtMost(rest, n, maxDepth);
      } else {
        SuccessorsLighter(q, n, rest);
        PassAtMost(rest + Successors(q, n), n + 1, maxDepth);
        WeightConcat(rest, Successors(q, n));
        EmittedAtMost(q, n, maxDepth);
      }
    }
  }

  /** Every plan generated for an accepted query is a UNION ALL of at most 11 branches. */
  lemma AtMostElevenBranches(q: QuerySpec)
    requires Acceptable(q) && PlanFor(q.objects, Defaulted(q).maxDepth).Generated?
    ensures 1 + |PlanFor(q.objects, Defaulted(q).maxDepth).plan.selects| <= 11
  {
    hide Blocks, BlockCount, Pass;
    PassAtMost(Blocks(q.objects, 1, []), 1, Defaulted(q).maxDepth);
    BlocksWeight(q.objects, 1, []);
  }
}
