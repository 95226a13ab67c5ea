/** The breadth-first pass that turns a relation spec into the branches of one UNION ALL. */
module Generator {
  import opened Options
  import opened Text
  import opened Spec
  import opened Relations
  import opened Filters
  import opened Plans
  import opened Arguments
  import opened Reordering

  /** A relation block waiting in the queue, with the join chain that leads to its parent. */
  datatype Pending = Pending(level: nat, name: string, spec: RelationSpec, ancestors: seq<Step>)

  datatype Generated = Unsupported(relation: string) | Generated(plan: Plan)

  predicate IsTransitive(name: string) {
    name != "" && name[|name| - 1] == '+'
  }

  function BaseRelation(name: string): string {
    if IsTransitive(name) then name[..|name| - 1] else name
  }

  /** What a transitive relation follows, if it is one of the supported ones. */
  function BaseOf(relation: string): Option<Base> {
    match relation
    case "descendants" => Some(OwnedBy)
    case "owners" => Some(OwnerOf)
    case "linked" => Some(LinkedFrom)
    case _ => None
  }

  function ShapeProjection(shape: Option<ObjectsSpec>): Option<Projection> {
    if shape.Some? then shape.value.projection else None
  }

  // ----- what one block emits -----

  function ParentAlias(q: Pending): nat {
    if q.ancestors == [] then 0 else q.ancestors[|q.ancestors| - 1].child
  }

  /** `l0` and the alias of every step. */
  function PathAliases(steps: seq<Step>): seq<nat> {
    if steps == [] then [0] else PathAliases(steps[..|steps| - 1]) + [steps[|steps| - 1].child]
  }

  function StepFor(q: Pending, n: nat): Step {
    Step(JoinFor(BaseRelation(q.name), q.spec.filters), ParentAlias(q), n)
  }

  /** A reference join with target kinds also restricts the child's kind. */
  function JoinClauses(j: JoinKind): seq<Clause> {
    if j.References? && j.kinds != [] then [InList(KindColumn, j.kinds)] else []
  }

  ghost function AllFilterClauses(fs: seq<ObjectFilter>): seq<Clause> {
    if fs == [] then [] else FilterClauses(fs[0]) + AllFilterClauses(fs[1..])
  }

  /** The WHERE of a relation branch; filter entries of a relation are all required. */
  ghost function BlockClauses(name: string, spec: RelationSpec): seq<Clause> {
    JoinClauses(JoinFor(BaseRelation(name), spec.filters)) + AllFilterClauses(spec.filters)
  }

  /** The filters of a transitive block: kind, name and namespace, written for the alias inside the CTE. */
  function InnerClauses(fs: seq<ObjectFilter>): seq<Clause> {
    if fs == [] then [] else InnerOne(fs[0]) + InnerClauses(fs[1..])
  }

  function InnerOne(f: ObjectFilter): seq<Clause> {
    TextClause(KindColumn, if f.groupKind.Some? then f.groupKind.value.kind else "")
    + TextClause(NameColumn, f.name) + TextClause(NamespaceColumn, f.namespace)
  }

  ghost function JoinedFor(q: Pending, n: nat): Select {
    var steps := q.ancestors + [StepFor(q, n)];
    Joined(steps, n, PathAliases(q.ancestors) + [n], BlockClauses(q.name, q.spec),
           ShapeProjection(q.spec.objects), q.spec.limit, q.level, q.name)
  }

  function CteFor(q: Pending, base: Base, n: nat, maxDepth: int): Cte {
    Cte(n, base, q.ancestors, ParentAlias(q), PathAliases(q.ancestors), maxDepth,
        ShapeProjection(q.spec.objects), q.level, q.name)
  }

  /** Sub-relations of a transitive block: one branch each, nested transitive ones passed over. */
  ghost function AttachedFor(cte: Cte, shape: ObjectsSpec, names: seq<string>, level: nat): seq<Select>
    requires forall k :: k in names ==> k in shape.relations
  {
    if names == [] then []
    else AttachedOne(cte, names[0], shape.relations[names[0]], level) + AttachedFor(cte, shape, names[1..], level)
  }

  ghost function AttachedOne(cte: Cte, name: string, spec: RelationSpec, level: nat): seq<Select> {
    if IsTransitive(name) then []
    else
      [Attached(cte, JoinFor(BaseRelation(name), spec.filters), BlockClauses(name, spec),
                ShapeProjection(spec.objects), level, name)]
  }

  ghost function SubSelects(cte: Cte, shape: Option<ObjectsSpec>, level: nat): seq<Select> {
    if shape.None? then [] else AttachedFor(cte, shape.value, Sorted(shape.value.relations.Keys), level)
  }

  ghost function PendingFor(shape: ObjectsSpec, names: seq<string>, level: nat,
                            ancestors: seq<Step>): (ps: seq<Pending>)
    requires forall k :: k in names ==> k in shape.relations
    ensures |ps| == |names|
  {
    if names == [] then []
    else
      [Pending(level, names[0], shape.relations[names[0]], ancestors)] + PendingFor(shape, names[1..], level, ancestors)
  }

  /** The relation blocks of a shape in ascending order of name. */
  ghost function Blocks(shape: Option<ObjectsSpec>, level: nat, ancestors: seq<Step>): seq<Pending> {
    if shape.None? then [] else PendingFor(shape.value, Sorted(shape.value.relations.Keys), level, ancestors)
  }

  /** A transitive block whose relation no CTE can follow. */
  predicate Stuck(q: Pending) {
    IsTransitive(q.name) && BaseOf(BaseRelation(q.name)).None?
  }

  ghost function Emitted(q: Pending, n: nat, maxDepth: int): Plan
    requires !Stuck(q)
  {
    if IsTransitive(q.name) then
      var cte := CteFor(q, BaseOf(BaseRelation(q.name)).value, n, maxDepth);
      Plan([cte], [Walked(cte, InnerClauses(q.spec.filters), q.spec.limit)]
                  + SubSelects(cte, q.spec.objects, q.level + 1))
    else Plan([], [JoinedFor(q, n)])
  }

  /** The blocks that a processed block adds to the queue. */
  ghost function Successors(q: Pending, n: nat): seq<Pending> {
    if IsTransitive(q.name) then [] else Blocks(q.spec.objects, q.level + 1, q.ancestors + [StepFor(q, n)])
  }

  /** No block of the shape, at any depth, is transitive. */
  ghost predicate NoTransitive(shape: Option<ObjectsSpec>)
    decreases shape
  {
    shape.Some? ==> forall k :: k in shape.value.relations
                      ==> !IsTransitive(k) && NoTransitive(shape.value.relations[k].objects)
  }

  // ----- block counts -----

  /** The number of relation blocks in a shape, nested ones included. */
  ghost function BlockCount(shape: Option<ObjectsSpec>): nat
    decreases shape
  {
    if shape.None? then 0
    else |shape.value.relations| + NestedCount(shape.value, Sorted(shape.value.relations.Keys))
  }

  ghost function NestedCount(shape: ObjectsSpec, names: seq<string>): nat
    requires forall k :: k in names ==> k in shape.relations
    decreases shape, |names|
  {
    if names == [] then 0 else BlockCount(shape.relations[names[0]].objects) + NestedCount(shape, names[1..])
  }

  ghost function Weight(queue: seq<Pending>): nat {
    if queue == [] then 0 else 1 + BlockCount(queue[0].spec.objects) + Weight(queue[1..])
  }

  lemma {:induction false} WeightConcat(a: seq<Pending>, b: seq<Pending>)
    ensures Weight(a + b) == Weight(a) + Weight(b)
  {
    if a == [] {
      assert a + b == b;
    } else {
      WeightConcat(a[1..], b);
      assert (a + b)[1..] == a[1..] + b;
    }
  }

  lemma {:induction false} PendingWeight(shape: ObjectsSpec, names: seq<string>, level: nat, ancestors: seq<Step>)
    requires forall k :: k in names ==> k in shape.relations
    ensures Weight(PendingFor(shape, names, level, ancestors)) == |names| + NestedCount(shape, names)
  {
    if names != [] {
      PendingWeight(shape, names[1..], level, ancestors);
      var rest := PendingFor(shape, names[1..], level, ancestors);
      assert PendingFor(shape, names, level, ancestors)[1..] == rest;
    }
  }

  lemma BlocksWeight(shape: Option<ObjectsSpec>, level: nat, ancestors: seq<Step>)
    ensures Weight(Blocks(shape, level, ancestors)) == BlockCount(shape)
  {
    if shape.Some? {
      PendingWeight(shape.value, Sorted(shape.value.relations.Keys), level, ancestors);
    }
  }

  lemma SuccessorsLighter(q: Pending, n: nat, rest: seq<Pending>)
    ensures Weight(rest + Successors(q, n)) < Weight([q] + rest)
  {
    hide Weight, Blocks, BlockCount, IsTransitive;
    WeightConcat(rest, Successors(q, n));
    BlocksWeight(q.spec.objects, q.level + 1, q.ancestors + [StepFor(q, n)]);
    WeightNone();
    WeightCons(q, rest);
  }

  lemma WeightNone()
    ensures Weight([]) == 0
  {
  }

  lemma WeightCons(q: Pending, rest: seq<Pending>)
    ensures Weight([q] + rest) == 1 + BlockCount(q.spec.objects) + Weight(rest)
  {
    hide BlockCount;
    assert ([q] + rest)[1..] == rest;
  }

  // ----- the pass -----

  function Before(first: Plan, rest: Generated): Generated {
    if rest.Unsupported? then rest
    else Generated(Plan(first.ctes + rest.plan.ctes, first.selects + rest.plan.selects))
  }

  /** Processing the queue front to back; `n` numbers the next alias. */
  ghost function Pass(queue: seq<Pending>, n: nat, maxDepth: int): Generated
    decreases Weight(queue)
  {
    if queue == [] then Generated(Plan([], []))
    else
      var q, rest := queue[0], queue[1..];
      assert queue == [q] + rest;
      if q.level > maxDepth then Pass(rest, n, maxDepth)
      else if Stuck(q) then Unsupported(BaseRelation(q.name))
      else
        SuccessorsLighter(q, n, rest);
        Before(Emitted(q, n, maxDepth), Pass(rest + Successors(q, n), n + 1, maxDepth))
  }

  lemma PassStep(queue: seq<Pending>, n: nat, maxDepth: int)
    requires queue != []
    ensures var q, rest := queue[0], queue[1..];
      Pass(queue, n, maxDepth)
      == if q.level > maxDepth then Pass(rest, n, maxDepth)
         else if Stuck(q) then Unsupported(BaseRelation(q.name))
         else Before(Emitted(q, n, maxDepth), Pass(rest + Successors(q, n), n + 1, maxDepth))
  {
    hide Emitted, Successors, Weight, Stuck;
  }

  /** The plan for a query's response shape. */
  ghost function PlanFor(shape: Option<ObjectsSpec>, maxDepth: int): Generated {
    Pass(Blocks(shape, 1, []), 1, maxDepth)
  }

  // ----- the generator itself -----

  /** The keys of a Go map, visited in any order and then sorted. */
  method SortKeys(keys: set<string>) returns (sorted: seq<string>)
    ensures sorted == Sorted(keys)
  {
    sorted := [];
    var todo := keys;
    while todo != {}
      invariant todo <= keys
      invariant Ascending(sorted)
      invariant forall k :: k in sorted <==> k in keys - todo
      decreases |todo|
    {
      var k :| k in todo;
      sorted := InsertKey(k, sorted);
      todo := todo - {k};
    }
    AscendingUnique(sorted, Sorted(keys));
  }

  method InsertKey(k: string, sorted: seq<string>) returns (more: seq<string>)
    requires Ascending(sorted) && k !in sorted
    ensures Ascending(more)
    ensures forall x :: x in more <==> x == k || x in sorted
  {
    var i := 0;
    while i < |sorted| && Less(sorted[i], k)
      invariant 0 <= i <= |sorted|
      invariant forall j :: 0 <= j < i ==> Less(sorted[j], k)
    {
      i := i + 1;
    }
    forall j | i <= j < |sorted|
      ensures Less(k, sorted[j])
    {
      LessTotal(sorted[i], k);
      assert sorted[i] in sorted;
      if i < j {
        LessTransitive(k, sorted[i], sorted[j]);
      }
    }
    more := sorted[..i] + [k] + sorted[i..];
    assert forall x :: x in sorted <==> x in sorted[..i] || x in sorted[i..];
  }

  /** Ranging over a map visits its keys in any order. */
  method VisitKeys(keys: set<string>) returns (visited: seq<string>)
    ensures Enumerates(visited, keys)
  {
    visited := [];
    var todo := keys;
    while todo != {}
      invariant todo <= keys && |visited| + |todo| == |keys|
      invariant forall k :: k in visited <==> k in keys - todo
      decreases |todo|
    {
      var k :| k in todo;
      visited := visited + [k];
      todo := todo - {k};
    }
  }

  /** Required labels, visited in the order given by `keys`. */
  method BuildLabelClauses(labels: map<string, string>, keys: seq<string>)
      returns (clauses: seq<Clause>, args: seq<Arg>)
    requires forall k :: k in keys ==> k in labels
    ensures clauses == LabelClauses(labels, keys) && args == ClausesArgs(clauses)
  {
    clauses, args := [], [];
    ghost var total := LabelClauses(labels, keys);
    assert keys[0..] == keys;
    var i := 0;
    while i < |keys|
      invariant 0 <= i <= |keys|
      invariant clauses + LabelClauses(labels, keys[i..]) == total && args == ClausesArgs(clauses)
    {
      hide ClausesArgs;
      assert keys[i] in keys;
      ghost var rest := LabelClauses(labels, keys[i + 1..]);
      assert keys[i..][1..] == keys[i + 1..];
      var c := Equals(LabelAt(keys[i]), labels[keys[i]]);
      ClausesArgsAppend(clauses, c);
      Regrouped(clauses, [c], rest);
      clauses := clauses + [c];
      args := args + [TextArg(labels[keys[i]])];
      i := i + 1;
    }
    NothingAdded(clauses);
  }

  method BuildConditions(conditions: seq<ConditionFilter>) returns (clauses: seq<Clause>, args: seq<Arg>)
    ensures clauses == ConditionClauses(conditions) && args == ClausesArgs(clauses)
  {
    clauses, args := [], [];
    ghost var total := ConditionClauses(conditions);
    assert conditions[0..] == conditions;
    var i := 0;
    while i < |conditions|
      invariant 0 <= i <= |conditions|
      invariant clauses + ConditionClauses(conditions[i..]) == total && args == ClausesArgs(clauses)
    {
      hide ClausesArgs, ConditionTests, TestArgs;
      var cond := conditions[i];
      ghost var rest := ConditionClauses(conditions[i + 1..]);
      assert conditions[i..][1..] == conditions[i + 1..];
      var c := HasCondition(ConditionTests(cond));
      ClausesArgsAppend(clauses, c);
      ConditionTestArgs(cond);
      Regrouped(clauses, [c], rest);
      var condArgs := [TextArg(cond.kind)];
      if cond.status != "" {
        condArgs := condArgs + [TextArg(cond.status)];
      }
      if cond.reason != "" {
        condArgs := condArgs + [TextArg(cond.reason)];
      }
      clauses := clauses + [c];
      args := args + condArgs;
      i := i + 1;
    }
    NothingAdded(clauses);
  }

  lemma ConditionTestArgs(c: ConditionFilter)
    ensures TestArgs(ConditionTests(c))
         == [TextArg(c.kind)] + (if c.status != "" then [TextArg(c.status)] else [])
                                   + (if c.reason != "" then [TextArg(c.reason)] else [])
  {
    var a := [ConditionTest(TypeField, c.kind)];
    var b := if c.status != "" then [ConditionTest(StatusField, c.status)] else [];
    var d := if c.reason != "" then [ConditionTest(ReasonField, c.reason)] else [];
    TestArgsConcat(a + b, d);
    TestArgsConcat(a, b);
  }

  method BuildCategories(categories: seq<string>) returns (clauses: seq<Clause>, args: seq<Arg>)
    ensures clauses == CategoryClauses(categories) && args == ClausesArgs(clauses)
  {
    clauses, args := [], [];
    ghost var total := CategoryClauses(categories);
    assert categories[0..] == categories;
    var i := 0;
    while i < |categories|
      invariant 0 <= i <= |categories|
      invariant clauses + CategoryClauses(categories[i..]) == total && args == ClausesArgs(clauses)
    {
      hide ClausesArgs;
      ghost var rest := CategoryClauses(categories[i + 1..]);
      assert categories[i..][1..] == categories[i + 1..];
      var c := HasCategory(categories[i]);
      ClausesArgsAppend(clauses, c);
      Regrouped(clauses, [c], rest);
      clauses := clauses + [c];
      args := args + [TextArg(categories[i])];
      i := i + 1;
    }
    NothingAdded(clauses);
  }

  method BuildExpression(e: LabelExpression) returns (clauses: seq<Clause>, args: seq<Arg>)
    ensures clauses == ExpressionClause(e) && args == ClausesArgs(clauses)
  {
    clauses, args := [], [];
    var x := LabelAt(e.key);
    match e.op
    case In =>
      if e.values != [] {
        args := BuildValues(e.values);
        clauses := [InList(x, e.values)];
        ClausesArgsOne(clauses[0]);
      }
    case NotIn =>
      if e.values != [] {
        args := BuildValues(e.values);
        var absent, outside := IsNull(x), NotInList(x, e.values);
        clauses := [AnyOf([absent, outside])];
        ClausesArgsOne(clauses[0]);
        ClausesArgsCons(absent, [outside]);
        ClausesArgsOne(outside);
        assert [absent, outside] == [absent] + [outside];
      }
    case Exists =>
      clauses := [IsNotNull(x)];
      ClausesArgsOne(clauses[0]);
    case DoesNotExist =>
      clauses := [IsNull(x)];
      ClausesArgsOne(clauses[0]);
    case UnknownOp =>
  }

  method BuildValues(values: seq<string>) returns (args: seq<Arg>)
    ensures args == TextArgs(values)
  {
    args := [];
    ghost var total := TextArgs(values);
    assert values[0..] == values;
    var i := 0;
    while i < |values|
      invariant 0 <= i <= |values|
      invariant args + TextArgs(values[i..]) == total
    {
      ghost var rest := TextArgs(values[i + 1..]);
      assert values[i..][1..] == values[i + 1..];
      Regrouped(args, [TextArg(values[i])], rest);
      args := args + [TextArg(values[i])];
      i := i + 1;
    }
    NothingAdded(args);
  }

  method BuildExpressions(es: seq<LabelExpression>) returns (clauses: seq<Clause>, args: seq<Arg>)
    ensures clauses == ExpressionClauses(es) && args == ClausesArgs(clauses)
  {
    clauses, args := [], [];
    ghost var total := ExpressionClauses(es);
    assert es[0..] == es;
    var i := 0;
    while i < |es|
      invariant 0 <= i <= |es|
      invariant clauses + ExpressionClauses(es[i..]) == total && args == ClausesArgs(clauses)
    {
      hide ClausesArgs, ExpressionClause;
      ghost var rest := ExpressionClauses(es[i + 1..]);
      assert es[i..][1..] == es[i + 1..];
      var more, moreArgs := BuildExpression(es[i]);
      ClausesArgsConcat(clauses, more);
      Regrouped(clauses, more, rest);
      clauses := clauses + more;
      args := args + moreArgs;
      i := i + 1;
    }
    NothingAdded(clauses);
  }

  method BuildKind(g: Option<GroupKind>) returns (clauses: seq<Clause>, args: seq<Arg>)
    ensures clauses == KindClauses(g) && args == ClausesArgs(clauses)
  {
    clauses, args := [], [];
    if g.Some? {
      if g.value.apiGroup != "" {
        clauses := clauses + [Equals(GroupColumn, g.value.apiGroup)];
        args := args + [TextArg(g.value.apiGroup)];
      }
      if g.value.kind != "" {
        ClausesArgsAppend(clauses, KindResolves(g.value.kind));
        clauses := clauses + [KindResolves(g.value.kind)];
        args := args + KindArgs(g.value.kind);
      }
    }
  }

  method BuildText(x: Scalar, value: string) returns (clauses: seq<Clause>, args: seq<Arg>)
    ensures clauses == TextClause(x, value) && args == ClausesArgs(clauses)
  {
    clauses, args := [], [];
    if value != "" {
      clauses := [Equals(x, value)];
      args := [TextArg(value)];
    }
  }

  method BuildTimes(after: Option<int>, before: Option<int>) returns (clauses: seq<Clause>, args: seq<Arg>)
    ensures clauses == TimeClauses(after, before) && args == ClausesArgs(clauses)
  {
    clauses, args := [], [];
    if after.Some? {
      clauses := clauses + [CreatedAfter(after.value)];
      args := args + [TimeArg(after.value)];
    }
    if before.Some? {
      ClausesArgsAppend(clauses, CreatedBefore(before.value));
      clauses := clauses + [CreatedBefore(before.value)];
      args := args + [TimeArg(before.value)];
    }
  }

  /** One filter entry, its labels visited in any order. */
  method BuildObjectFilter(f: ObjectFilter) returns (clauses: seq<Clause>, args: seq<Arg>)
    ensures SameClauses(clauses, FilterClauses(f)) && args == ClausesArgs(clauses)
  {
    hide ClausesArgs, KindClauses, TextClause, LabelClauses, ConditionClauses, TimeClauses, CategoryClauses,
         ExpressionClauses,
         Ascending, SameClauses;
    var keys := VisitKeys(f.labels.Keys);
    LabelsAnyOrder(f.labels, keys);
    FilterAnyOrder(f, LabelClauses(f.labels, keys));
    var more, moreArgs;
    clauses, args := BuildKind(f.groupKind);
    more, moreArgs := BuildText(NameColumn, f.name);
    clauses, args := AppendClauses(clauses, args, more, moreArgs);
    more, moreArgs := BuildText(NamespaceColumn, f.namespace);
    clauses, args := AppendClauses(clauses, args, more, moreArgs);
    more, moreArgs := BuildLabelClauses(f.labels, keys);
    clauses, args := AppendClauses(clauses, args, more, moreArgs);
    more, moreArgs := BuildConditions(f.conditions);
    clauses, args := AppendClauses(clauses, args, more, moreArgs);
    more, moreArgs := BuildTimes(f.after, f.before);
    clauses, args := AppendClauses(clauses, args, more, moreArgs);
    more, moreArgs := BuildText(IdColumn, f.id);
    clauses, args := AppendClauses(clauses, args, more, moreArgs);
    more, moreArgs := BuildCategories(f.categories);
    clauses, args := AppendClauses(clauses, args, more, moreArgs);
    more, moreArgs := BuildExpressions(f.labelExpressions);
    clauses, args := AppendClauses(clauses, args, more, moreArgs);
  }

  method AppendClauses(clauses: seq<Clause>, args: seq<Arg>, more: seq<Clause>, moreArgs: seq<Arg>)
      returns (all: seq<Clause>, allArgs: seq<Arg>)
    requires args == ClausesArgs(clauses) && moreArgs == ClausesArgs(more)
    ensures all == clauses + more && allArgs == ClausesArgs(all)
  {
    ClausesArgsConcat(clauses, more);
    all, allArgs := clauses + more, args + moreArgs;
  }

  method BuildBlockClauses(name: string, spec: RelationSpec) returns (clauses: seq<Clause>, args: seq<Arg>)
    ensures SameClauses(clauses, BlockClauses(name, spec)) && args == ClausesArgs(clauses)
  {
    hide AllFilterClauses, ClausesArgs, JoinFor, SameClauses;
    var join, joinArgs := BuildJoinClauses(JoinFor(BaseRelation(name), spec.filters));
    var filters, filterArgs := BuildFilters(spec.filters);
    SameClausesSelf(join);
    SameClausesConcat(join, join, filters, AllFilterClauses(spec.filters));
    clauses, args := AppendClauses(join, joinArgs, filters, filterArgs);
  }

  method BuildJoinClauses(j: JoinKind) returns (clauses: seq<Clause>, args: seq<Arg>)
    ensures clauses == JoinClauses(j) && args == ClausesArgs(clauses)
  {
    clauses, args := [], [];
    if j.References? && j.kinds != [] {
      args := BuildValues(j.kinds);
      clauses := [InList(KindColumn, j.kinds)];
      ClausesArgsOne(clauses[0]);
    }
  }

  method BuildFilters(fs: seq<ObjectFilter>) returns (clauses: seq<Clause>, args: seq<Arg>)
    ensures SameClauses(clauses, AllFilterClauses(fs)) && args == ClausesArgs(clauses)
  {
    ghost var total := AllFilterClauses(fs);
    ghost var sorted: seq<Clause> := [];
    clauses, args := [], [];
    assert fs[0..] == fs && args == ClausesArgs(clauses) && AllFilterClauses([]) == [];
    SameClausesSelf([]);
    hide FilterClauses, ClausesArgs, AllFilterClauses, SameClauses;
    var i := 0;
    while i < |fs|
      invariant 0 <= i <= |fs|
      invariant sorted + AllFilterClauses(fs[i..]) == total && SameClauses(clauses, sorted)
                && args == ClausesArgs(clauses)
    {
      var more, moreArgs := BuildObjectFilter(fs[i]);
      AllFilterClausesStep(fs, i);
      Regrouped(sorted, FilterClauses(fs[i]), AllFilterClauses(fs[i + 1..]));
      SameClausesConcat(clauses, sorted, more, FilterClauses(fs[i]));
      sorted := sorted + FilterClauses(fs[i]);
      clauses, args := AppendClauses(clauses, args, more, moreArgs);
      i := i + 1;
    }
    NothingAdded(sorted);
  }

  lemma AllFilterClausesStep(fs: seq<ObjectFilter>, i: nat)
    requires i < |fs|
    ensures AllFilterClauses(fs[i..]) == FilterClauses(fs[i]) + AllFilterClauses(fs[i + 1..])
  {
    hide FilterClauses;
    assert fs[i..][1..] == fs[i + 1..];
  }

  method BuildInner(fs: seq<ObjectFilter>) returns (clauses: seq<Clause>, args: seq<Arg>)
    ensures clauses == InnerClauses(fs) && args == ClausesArgs(clauses)
  {
    ghost var total := InnerClauses(fs);
    clauses, args := [], [];
    assert fs[0..] == fs;
    var i := 0;
    while i < |fs|
      invariant 0 <= i <= |fs|
      invariant clauses + InnerClauses(fs[i..]) == total && args == ClausesArgs(clauses)
    {
      hide ClausesArgs, TextClause;
      ghost var rest := InnerClauses(fs[i + 1..]);
      assert fs[i..][1..] == fs[i + 1..];
      var more, moreArgs := BuildInnerOne(fs[i]);
      Regrouped(clauses, more, rest);
      clauses, args := AppendClauses(clauses, args, more, moreArgs);
      i := i + 1;
    }
    NothingAdded(clauses);
  }

  method BuildInnerOne(f: ObjectFilter) returns (clauses: seq<Clause>, args: seq<Arg>)
    ensures clauses == InnerOne(f) && args == ClausesArgs(clauses)
  {
    hide ClausesArgs, TextClause;
    var more, moreArgs;
    clauses, args := BuildText(KindColumn, if f.groupKind.Some? then f.groupKind.value.kind else "");
    more, moreArgs := BuildText(NameColumn, f.name);
    clauses, args := AppendClauses(clauses, args, more, moreArgs);
    more, moreArgs := BuildText(NamespaceColumn, f.namespace);
    clauses, args := AppendClauses(clauses, args, more, moreArgs);
  }

  method BuildJoined(q: Pending, n: nat) returns (s: Select, args: seq<Arg>)
    ensures SelectAlike(s, JoinedFor(q, n)) && args == SelectArgs(s)
  {
    hide BlockClauses, ClausesArgs, SameClauses;
    var where;
    where, args := BuildBlockClauses(q.name, q.spec);
    var path := [0];
    var i := 0;
    while i < |q.ancestors|
      invariant 0 <= i <= |q.ancestors|
      invariant path == PathAliases(q.ancestors[..i])
    {
      path := path + [q.ancestors[i].child];
      assert q.ancestors[..i + 1][..i] == q.ancestors[..i];
      i := i + 1;
    }
    assert q.ancestors[..i] == q.ancestors;
    s := Joined(q.ancestors + [StepFor(q, n)], n, path + [n], where,
                ShapeProjection(q.spec.objects), q.spec.limit, q.level, q.name);
  }

  method BuildAttached(cte: Cte, shape: Option<ObjectsSpec>, level: nat) returns (selects: seq<Select>, args: seq<Arg>)
    ensures SelectsAlike(selects, SubSelects(cte, shape, level)) && args == SelectsArgs(selects)
  {
    if shape.None? {
      NoneAlike();
      return [], [];
    }
    hide Ascending, AttachedFor, SelectsArgs, SelectsAlike;
    var names := VisitKeys(shape.value.relations.Keys);
    selects, args := BuildAttachedAll(cte, shape.value, names, level);
    AttachedAnyOrder(cte, shape.value, names, level);
    AlikePermuted(selects, AttachedFor(cte, shape.value, names, level), SubSelects(cte, shape, level));
  }

  method BuildAttachedAll(cte: Cte, shape: ObjectsSpec, names: seq<string>, level: nat)
      returns (selects: seq<Select>, args: seq<Arg>)
    requires forall k :: k in names ==> k in shape.relations
    ensures SelectsAlike(selects, AttachedFor(cte, shape, names, level)) && args == SelectsArgs(selects)
  {
    selects, args := [], [];
    ghost var total := AttachedFor(cte, shape, names, level);
    ghost var plain: seq<Select> := [];
    assert names[0..] == names && args == SelectsArgs(selects) && AttachedFor(cte, shape, [], level) == [];
    NoneAlike();
    hide AttachedOne, SelectsArgs, AttachedFor, SelectsAlike;
    var i := 0;
    while i < |names|
      invariant 0 <= i <= |names|
      invariant plain + AttachedFor(cte, shape, names[i..], level) == total
      invariant SelectsAlike(selects, plain) && args == SelectsArgs(selects)
    {
      assert names[i] in names;
      ghost var one := AttachedOne(cte, names[i], shape.relations[names[i]], level);
      AttachedForStep(cte, shape, names, i, level);
      var more, moreArgs := BuildAttachedOne(cte, names[i], shape.relations[names[i]], level);
      SelectsArgsConcat(selects, more);
      SelectsAlikeConcat(selects, plain, more, one);
      Regrouped(plain, one, AttachedFor(cte, shape, names[i + 1..], level));
      plain := plain + one;
      selects := selects + more;
      args := args + moreArgs;
      i := i + 1;
    }
    NothingAdded(plain);
  }

  lemma {:induction false} AttachedConcat(cte: Cte, shape: ObjectsSpec, a: seq<string>, b: seq<string>, level: nat)
    requires forall k :: k in a + b ==> k in shape.relations
    ensures (forall k :: k in a ==> k in a + b) && (forall k :: k in b ==> k in a + b)
    ensures AttachedFor(cte, shape, a + b, level)
            == AttachedFor(cte, shape, a, level) + AttachedFor(cte, shape, b, level)
  {
    hide AttachedOne;
    if a == [] {
      assert a + b == b;
    } else {
      assert (a + b)[1..] == a[1..] + b;
      AttachedConcat(cte, shape, a[1..], b, level);
      Regrouped(AttachedOne(cte, a[0], shape.relations[a[0]], level), AttachedFor(cte, shape, a[1..], level),
                AttachedFor(cte, shape, b, level));
    }
  }

  lemma AttachedMiddle(cte: Cte, shape: ObjectsSpec, left: seq<string>, k: string, right: seq<string>, level: nat)
    requires forall x :: x in left + [k] + right ==> x in shape.relations
    ensures k in shape.relations && forall x :: x in left + right ==> x in shape.relations
    ensures multiset(AttachedFor(cte, shape, left + [k] + right, level))
         == multiset(AttachedFor(cte, shape, [k], level)) + multiset(AttachedFor(cte, shape, left + right, level))
  {
    hide AttachedFor;
    assert k in left + [k] + right;
    assert forall x :: x in left + right ==> x in left + [k] + right;
    AttachedConcat(cte, shape, left, right, level);
    AttachedConcat(cte, shape, left + [k], right, level);
    AttachedConcat(cte, shape, left, [k], level);
  }

  lemma {:induction false} AttachedPermute(cte: Cte, shape: ObjectsSpec, a: seq<string>, b: seq<string>, level: nat)
    requires multiset(a) == multiset(b) && forall k :: k in a ==> k in shape.relations
    ensures forall k :: k in b ==> k in shape.relations
    ensures multiset(AttachedFor(cte, shape, a, level)) == multiset(AttachedFor(cte, shape, b, level))
    decreases |a|
  {
    SameMembersIn(a, b);
    hide AttachedFor;
    if a == [] {
      assert b == [] by { assert |multiset(a)| == 0 && |multiset(b)| == |b|; }
    } else {
      var k, rest := a[0], a[1..];
      assert a == [k] + rest;
      var left, right := TakeOut(k, rest, b);
      assert forall x :: x in left + right ==> x in b;
      AttachedPermute(cte, shape, rest, left + right, level);
      AttachedConcat(cte, shape, [k], rest, level);
      AttachedMiddle(cte, shape, left, k, right, level);
    }
  }

  /** Whatever order the sub-relations are visited in, the branches are the same. */
  lemma AttachedAnyOrder(cte: Cte, shape: ObjectsSpec, names: seq<string>, level: nat)
    requires Enumerates(names, shape.relations.Keys)
    ensures multiset(AttachedFor(cte, shape, names, level))
            == multiset(AttachedFor(cte, shape, Sorted(shape.relations.Keys), level))
  {
    hide AttachedFor;
    SortedEnumerates(shape.relations.Keys);
    EnumerationsPermute(names, Sorted(shape.relations.Keys), shape.relations.Keys);
    AttachedPermute(cte, shape, names, Sorted(shape.relations.Keys), level);
  }

  lemma AttachedForStep(cte: Cte, shape: ObjectsSpec, names: seq<string>, i: nat, level: nat)
    requires i < |names| && forall k :: k in names ==> k in shape.relations
    ensures AttachedFor(cte, shape, names[i..], level)
         == AttachedOne(cte, names[i], shape.relations[names[i]], level)
            + AttachedFor(cte, shape, names[i + 1..], level)
  {
    hide AttachedOne;
    assert names[i..][1..] == names[i + 1..];
  }

  method BuildAttachedOne(cte: Cte, name: string, spec: RelationSpec, level: nat)
      returns (selects: seq<Select>, args: seq<Arg>)
    ensures SelectsAlike(selects, AttachedOne(cte, name, spec, level)) && args == SelectsArgs(selects)
  {
    if IsTransitive(name) {
      NoneAlike();
      return [], [];
    }
    hide BlockClauses, ClausesArgs, JoinFor, SelectsAlike, SameClauses;
    var where;
    where, args := BuildBlockClauses(name, spec);
    selects := [Attached(cte, JoinFor(BaseRelation(name), spec.filters), where, ShapeProjection(spec.objects), level,
                         name)];
    SelectsArgsOne(selects[0]);
    OneAlike(selects[0], AttachedOne(cte, name, spec, level)[0]);
  }

  method Enqueue(shape: Option<ObjectsSpec>, level: nat, ancestors: seq<Step>) returns (blocks: seq<Pending>)
    ensures blocks == Blocks(shape, level, ancestors)
  {
    if shape.None? {
      return [];
    }
    hide Ascending, PendingFor;
    var names := SortKeys(shape.value.relations.Keys);
    blocks := PendingAll(shape.value, names, level, ancestors);
  }

  method PendingAll(shape: ObjectsSpec, names: seq<string>, level: nat, ancestors: seq<Step>)
      returns (blocks: seq<Pending>)
    requires forall k :: k in names ==> k in shape.relations
    ensures blocks == PendingFor(shape, names, level, ancestors)
  {
    ghost var total := PendingFor(shape, names, level, ancestors);
    blocks := [];
    var i := 0;
    while i < |names|
      invariant 0 <= i <= |names| == |total|
      invariant blocks == total[..i]
    {
      PendingIndex(shape, names, level, ancestors, i);
      blocks := blocks + [Pending(level, names[i], shape.relations[names[i]], ancestors)];
      i := i + 1;
    }
  }

  lemma {:induction false} PendingIndex(shape: ObjectsSpec, names: seq<string>, level: nat, ancestors: seq<Step>,
                                        i: nat)
    requires i < |names| && forall k :: k in names ==> k in shape.relations
    ensures PendingFor(shape, names, level, ancestors)[i]
            == Pending(level, names[i], shape.relations[names[i]], ancestors)
  {
    if i > 0 {
      PendingIndex(shape, names[1..], level, ancestors, i - 1);
    }
  }

  /** One block: its branches, and the blocks it adds to the queue. */
  method Process(q: Pending, n: nat, maxDepth: int) returns (plan: Plan, args: seq<Arg>, more: seq<Pending>)
    requires !Stuck(q)
    ensures PlanAlike(plan, Emitted(q, n, maxDepth)) && args == SelectsArgs(plan.selects)
    ensures more == Successors(q, n)
  {
    hide SelectsArgs, ClausesArgs, JoinedFor, SubSelects, CteFor, IsTransitive, InnerClauses, SelectsAlike;
    if IsTransitive(q.name) {
      var cte := CteFor(q, BaseOf(BaseRelation(q.name)).value, n, maxDepth);
      var inner, attached, attachedArgs;
      inner, args := BuildInner(q.spec.filters);
      attached, attachedArgs := BuildAttached(cte, q.spec.objects, q.level + 1);
      var walked := Walked(cte, inner, q.spec.limit);
      SelectsArgsCons(walked, attached);
      OneAlike(walked, walked);
      SelectsAlikeConcat([walked], [walked], attached, SubSelects(cte, q.spec.objects, q.level + 1));
      plan := Plan([cte], [walked] + attached);
      args := args + attachedArgs;
      more := [];
    } else {
      var joined;
      joined, args := BuildJoined(q, n);
      SelectsArgsOne(joined);
      OneAlike(joined, JoinedFor(q, n));
      plan := Plan([], [joined]);
      more := Enqueue(q.spec.objects, q.level + 1, q.ancestors + [StepFor(q, n)]);
    }
  }

  lemma BeforeTwice(a: Plan, b: Plan, g: Generated)
    ensures Before(a, Before(b, g)) == Before(Plan(a.ctes + b.ctes, a.selects + b.selects), g)
  {
    if g.Generated? {
      assert a.ctes + (b.ctes + g.plan.ctes) == (a.ctes + b.ctes) + g.plan.ctes;
      assert a.selects + (b.selects + g.plan.selects) == (a.selects + b.selects) + g.plan.selects;
    }
  }

  /** The same error, or the same plan up to map iteration order. */
  ghost predicate GeneratedAlike(g: Generated, h: Generated) {
    if g.Unsupported? then g == h else h.Generated? && PlanAlike(g.plan, h.plan)
  }

  lemma PlanAlikeConcat(a: Plan, b: Plan, x: Plan, y: Plan)
    requires PlanAlike(a, b) && PlanAlike(x, y)
    ensures PlanAlike(Plan(a.ctes + x.ctes, a.selects + x.selects), Plan(b.ctes + y.ctes, b.selects + y.selects))
  {
    hide SelectsAlike;
    SelectsAlikeConcat(a.selects, b.selects, x.selects, y.selects);
  }

  /** In whatever order maps are visited, the queue loop produces the plan of the breadth-first pass up
      to that order, and collects the arguments of its branches in the order of its branches. */
  method GenerateWithRelations(shape: Option<ObjectsSpec>, maxDepth: int) returns (g: Generated, args: seq<Arg>)
    ensures GeneratedAlike(g, PlanFor(shape, maxDepth))
    ensures g.Generated? ==> args == SelectsArgs(g.plan.selects)
  {
    args := [];
    NoneAlike();
    var queue := Enqueue(shape, 1, []);
    var done := Plan([], []);
    ghost var plain := Plan([], []);
    var n := 1;
    while queue != []
      invariant Before(plain, Pass(queue, n, maxDepth)) == PlanFor(shape, maxDepth) && PlanAlike(done, plain)
      invariant args == SelectsArgs(done.selects)
      decreases Weight(queue)
    {
      hide Weight, Emitted, Successors, Stuck, SelectsArgs, PlanAlike;
      var q, rest := queue[0], queue[1..];
      WeightTail(queue);
      if q.level > maxDepth {
        queue := rest;
      } else if Stuck(q) {
        return Unsupported(BaseRelation(q.name)), [];
      } else {
        SuccessorsLighter(q, n, rest);
        var plan, planArgs, more := Process(q, n, maxDepth);
        SelectsArgsConcat(done.selects, plan.selects);
        ghost var emitted := Emitted(q, n, maxDepth);
        BeforeTwice(plain, emitted, Pass(rest + more, n + 1, maxDepth));
        PlanAlikeConcat(done, plain, plan, emitted);
        plain := Plan(plain.ctes + emitted.ctes, plain.selects + emitted.selects);
        done := Plan(done.ctes + plan.ctes, done.selects + plan.selects);
        args := args + planArgs;
        queue := rest + more;
        n := n + 1;
      }
    }
    g := Generated(done);
  }

  lemma WeightTail(queue: seq<Pending>)
    requires queue != []
    ensures Weight(queue[1..]) < Weight(queue) == Weight([queue[0]] + queue[1..])
  {
    assert queue == [queue[0]] + queue[1..];
  }
}
