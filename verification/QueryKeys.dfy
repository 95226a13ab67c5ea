/** The keys that a query copies into its SQL text: if none of them has a question mark, the
    database reads the query as it is meant. */
module QueryKeys {
  import opened Options
  import opened Text
  import opened Spec
  import opened Relations
  import opened Filters
  import opened Projections
  import opened Plans
  import opened Arguments
  import opened Reordering
  import opened Generator
  import opened Paging
  import opened Pages
  import opened SqlText
  import opened Placeholders

  ghost predicate Clean(ts: seq<Tok>) {
    forall i :: 0 <= i < |ts| && ts[i].Key? ==> Free(ts[i].text, '?')
  }

  ghost predicate AllClean(parts: seq<seq<Tok>>) {
    forall i :: 0 <= i < |parts| ==> Clean(parts[i])
  }

  lemma {:induction false} CleanIsSafe(ts: seq<Tok>)
    requires Clean(ts)
    ensures KeysSafe(ts)
  {
    hide Holes, Free;
    if ts != [] {
      CleanIsSafe(ts[1..]);
    }
  }

  lemma {:induction false} JoinClean(parts: seq<seq<Tok>>, separator: string)
    requires AllClean(parts)
    ensures Clean(JoinToks(parts, separator))
  {
    hide Free;
    if parts != [] {
      JoinClean(parts[1..], separator);
    }
  }

  // ----- clauses -----

  predicate CleanScalar(x: Scalar) {
    match x
    case LabelAt(path) => Free(path, '?')
    case ClusterLabelAt(path) => Free(path, '?')
    case _ => true
  }

  predicate CleanClause(c: Clause) {
    match c
    case Equals(x, _) => CleanScalar(x)
    case IsNull(x) => CleanScalar(x)
    case IsNotNull(x) => CleanScalar(x)
    case InList(x, _) => CleanScalar(x)
    case NotInList(x, _) => CleanScalar(x)
    case AllOf(cs) => CleanClauses(cs)
    case AnyOf(cs) => CleanClauses(cs)
    case _ => true
  }

  predicate CleanClauses(cs: seq<Clause>) {
    cs == [] || (CleanClause(cs[0]) && CleanClauses(cs[1..]))
  }

  lemma {:induction false} CleanClausesConcat(a: seq<Clause>, b: seq<Clause>)
    ensures CleanClauses(a + b) <==> CleanClauses(a) && CleanClauses(b)
  {
    hide CleanClause;
    if a == [] {
      assert a + b == b;
    } else {
      CleanClausesConcat(a[1..], b);
      assert (a + b)[1..] == a[1..] + b;
    }
  }

  lemma {:induction false} CleanEach(cs: seq<Clause>)
    ensures CleanClauses(cs) <==> forall c :: c in cs ==> CleanClause(c)
  {
    hide CleanClause;
    if cs != [] {
      var c, rest := cs[0], cs[1..];
      CleanEach(rest);
      assert c in cs && forall x :: x in rest ==> x in cs;
      assert forall x :: x in cs ==> x == c || x in rest;
    }
  }

  lemma CleanAnyOrder(a: seq<Clause>, b: seq<Clause>)
    requires SameClauses(a, b) && CleanClauses(b)
    ensures CleanClauses(a)
  {
    hide CleanClause, CleanClauses;
    CleanEach(a);
    CleanEach(b);
    SameMembersIn(a, b);
  }

  lemma {:induction false} MarksKeyless(args: seq<Arg>)
    ensures forall i :: 0 <= i < |Marks(args)| ==> Keyless(Marks(args)[i])
  {
    if args != [] {
      MarksKeyless(args[1..]);
    }
  }

  lemma MarkListClean(args: seq<Arg>)
    ensures Clean(MarkList(args))
  {
    hide Marks, JoinToks;
    MarksKeyless(args);
    JoinClean(Marks(args), ", ");
  }

  lemma {:induction false} TestsClean(tests: seq<ConditionTest>)
    ensures AllClean(TestTexts(tests))
  {
    if tests != [] {
      TestsClean(tests[1..]);
    }
  }

  lemma {:induction false} SlotsKeyless(fragments: seq<string>, args: seq<Arg>)
    ensures Keyless(Slots(fragments, args))
  {
    if fragments != [] {
      SlotsKeyless(fragments[1..], if args == [] then [] else args[1..]);
    }
  }

  lemma LookupsClean(kind: string, category: string, a: Name)
    ensures Clean(KindText(kind, a)) && Clean(CategoryText(category, a))
  {
    hide Slots, Format;
    SlotsKeyless(KIND_TESTS, KindArgs(kind));
    SlotsKeyless(["EXISTS (SELECT 1 FROM json_each(rt.categories) WHERE json_each.value = ", "))"],
                 [TextArg(category)]);
  }

  lemma ScalarClean(x: Scalar, a: Name)
    requires CleanScalar(x)
    ensures Clean(ScalarText(x, a))
  {
    hide Free;
  }

  lemma ListClean(x: Scalar, a: Name, word: string, values: seq<string>)
    requires CleanScalar(x)
    ensures Clean(ScalarText(x, a) + [Sql(word)] + MarkList(TextArgs(values)))
  {
    hide ScalarText, MarkList, Free, CleanScalar;
    ScalarClean(x, a);
    MarkListClean(TextArgs(values));
  }

  lemma {:induction false} ClauseClean(c: Clause, a: Name)
    requires CleanClause(c)
    ensures Clean(ClauseText(c, a))
  {
    hide ScalarText, CleanScalar, MarkList, KindText, CategoryText, TestTexts, JoinToks, Free;
    match c
    case Equals(x, _) => ScalarClean(x, a);
    case IsNull(x) => ScalarClean(x, a);
    case IsNotNull(x) => ScalarClean(x, a);
    case InList(x, values) => ListClean(x, a, " IN ", values);
    case NotInList(x, values) => ListClean(x, a, " NOT IN ", values);
    case KindResolves(kind) => LookupsClean(kind, "", a);
    case HasCategory(category) => LookupsClean("", category, a);
    case HasCondition(tests) => TestsClean(tests); JoinClean(TestTexts(tests), " AND ");
    case AllOf(cs) => ClausesClean(cs, a); JoinClean(ClauseTexts(cs, a), " AND ");
    case AnyOf(cs) => ClausesClean(cs, a); JoinClean(ClauseTexts(cs, a), " OR ");
    case _ =>
  }

  lemma {:induction false} ClausesClean(cs: seq<Clause>, a: Name)
    requires CleanClauses(cs)
    ensures AllClean(ClauseTexts(cs, a))
  {
    if cs != [] {
      hide ClauseText, CleanClause, Clean;
      ClauseClean(cs[0], a);
      ClausesClean(cs[1..], a);
    }
  }

  lemma WhereClean(parts: seq<seq<Tok>>)
    requires AllClean(parts)
    ensures Clean(WhereText(parts))
  {
    JoinClean(parts, " AND ");
  }

  // ----- projections -----

  ghost predicate CleanProjection(p: Projection) {
    p.Fields? ==> forall k :: k in p.fields ==> Free(k, '?') && CleanProjection(p.fields[k])
  }

  ghost predicate CleanExpr(e: Expr) {
    match e
    case JsonExtract(path) => Free(path, '?')
    case BuildObject(m) => forall k :: k in m ==> Free(k, '?') && CleanExpr(m[k])
    case _ => true
  }

  lemma {:induction false} BuiltClean(p: Projection, path: string)
    requires CleanProjection(p) && Free(path, '?')
    ensures CleanExpr(BuildSqlite(p, path))
    decreases p
  {
    if p.Fields? {
      forall k | k in p.fields
        ensures CleanExpr(BuildSqlite(p.fields[k], ChildPath(path, k)))
      {
        BuiltClean(p.fields[k], ChildPath(path, k));
      }
    }
  }

  lemma {:induction false} ExprClean(e: Expr, a: Name)
    requires CleanExpr(e)
    ensures Clean(ExprText(e, a))
    decreases e
  {
    if e.BuildObject? {
      MembersClean(e, Sorted(e.fields.Keys), a);
    }
  }

  lemma {:induction false} MembersClean(e: Expr, keys: seq<string>, a: Name)
    requires e.BuildObject? && CleanExpr(e) && forall k :: k in keys ==> k in e.fields
    ensures Clean(MembersText(e, keys, a))
    decreases e, |keys|
  {
    if keys != [] {
      hide ExprText;
      ExprClean(e.fields[keys[0]], a);
      MembersClean(e, keys[1..], a);
    }
  }

  ghost predicate CleanOption(p: Option<Projection>) {
    p.Some? ==> CleanProjection(p.value)
  }

  lemma ProjectionClean(p: Option<Projection>, a: Name)
    requires CleanOption(p)
    ensures Clean(ProjectionText(p, a))
  {
    hide ExprText, CleanExpr, CleanProjection, BuildSqlite;
    if p.Some? {
      BuiltClean(p.value, "");
      ExprClean(BuildSqlite(p.value, ""), a);
    }
  }

  lemma {:induction false} ColumnsKeyless(columns: seq<string>, a: Name)
    ensures Keyless(ColumnsText(columns, a))
  {
    if columns != [] {
      ColumnsKeyless(columns[1..], a);
    }
  }

  lemma SelectColsClean(a: Name, p: Option<Projection>, path: seq<Tok>)
    requires CleanOption(p) && Keyless(path)
    ensures Clean(SelectCols(a, p, path))
  {
    hide ColumnsText, ProjectionText, Free;
    ColumnsKeyless(COLUMNS, a);
    ProjectionClean(p, a);
  }

  lemma {:induction false} PathKeyless(path: seq<nat>)
    ensures Keyless(PathToks(path))
  {
    if |path| > 1 {
      PathKeyless(path[..|path| - 1]);
    }
  }

  // ----- branches -----

  lemma JoinKeyless(j: JoinKind, p: Name, c: Name)
    ensures Keyless(JoinText(j, p, c))
  {
  }

  lemma FollowKeyless(base: Base, p: Name, c: Name)
    ensures Keyless(FollowText(base, p, c))
  {
  }

  lemma {:induction false} StepsKeyless(steps: seq<Step>)
    ensures Keyless(StepsText(steps))
  {
    if steps != [] {
      hide JoinText;
      var last := steps[|steps| - 1];
      StepsKeyless(steps[..|steps| - 1]);
      JoinKeyless(last.join, RowName(last.parent), RowName(last.child));
    }
  }

  ghost predicate CleanCte(c: Cte) {
    CleanOption(c.projection) && Free(c.rel, '?')
  }

  ghost predicate CleanSelect(s: Select) {
    && CleanClauses(FilterClausesOf(s))
    && match s
       case Joined(_, _, _, _, projection, _, _, rel) => CleanOption(projection) && Free(rel, '?')
       case Walked(_, _, _) => true
       case Attached(_, _, _, projection, _, rel) => CleanOption(projection) && Free(rel, '?')
  }

  ghost predicate CleanPlan(plan: Plan) {
    && (forall i :: 0 <= i < |plan.ctes| ==> CleanCte(plan.ctes[i]))
    && (forall i :: 0 <= i < |plan.selects| ==> CleanSelect(plan.selects[i]))
  }

  lemma HeadClean(s: Select)
    requires CleanSelect(s)
    ensures Clean(HeadText(s))
  {
    hide SelectCols, ColumnsText, StepsText, JoinText, PathToks, Free, CleanClauses, CleanOption;
    match s
    case Joined(steps, child, path, _, projection, _, level, rel) =>
      PathKeyless(path);
      SelectColsClean(RowName(child), projection, PathToks(path));
      StepsKeyless(steps);
    case Walked(cte, _, _) =>
      ColumnsKeyless(COLUMNS, CteName(cte.number));
    case Attached(cte, join, _, projection, level, rel) =>
      var child := RowName(cte.number + 1);
      SelectColsClean(child, projection, [Alias(CteName(cte.number)), Sql(".path || ")] + SegmentText(child));
      JoinKeyless(join, CteName(cte.number), child);
  }

  lemma SelectClean(s: Select)
    requires CleanSelect(s)
    ensures Clean(SelectText(s))
  {
    hide HeadText, WhereText, ClauseTexts, Free, CleanClauses, CleanOption;
    HeadClean(s);
    ClausesClean(FilterClausesOf(s), FilterAlias(s));
    WhereClean(ClauseTexts(FilterClausesOf(s), FilterAlias(s)));
  }

  lemma {:induction false} UnionClean(ss: seq<Select>)
    requires forall i :: 0 <= i < |ss| ==> CleanSelect(ss[i])
    ensures Clean(UnionText(ss))
  {
    if ss != [] {
      hide SelectText, CleanSelect, Clean;
      SelectClean(ss[0]);
      UnionClean(ss[1..]);
      CleanTwo(" UNION ALL ", SelectText(ss[0]), UnionText(ss[1..]));
    }
  }

  lemma CteColsClean(a: Name, cte: Cte, path: seq<Tok>, depth: seq<Tok>, visited: seq<Tok>)
    requires CleanCte(cte) && Keyless(path) && Keyless(depth) && Keyless(visited)
    ensures Clean(CteCols(a, cte, path, depth, visited))
  {
    hide ColumnsText, ProjectionText, Free, CleanOption;
    ColumnsKeyless(COLUMNS + ["object"], a);
    ProjectionClean(cte.projection, a);
  }

  lemma BaseClean(cte: Cte)
    requires CleanCte(cte)
    ensures Clean(BaseText(cte))
  {
    hide CteCols, StepsText, FollowText, PathToks, CleanCte, Free;
    PathKeyless(cte.path);
    CteColsClean(CurrName, cte, PathToks(cte.path) + [Sql(" || ")] + SegmentText(CurrName), [Sql("1 AS depth")],
                 [Sql("',' || "), Alias(CurrName), Sql(".uid || ','")]);
    StepsKeyless(cte.steps);
    FollowKeyless(cte.base, RowName(cte.parent), CurrName);
  }

  lemma StepClean(cte: Cte)
    requires CleanCte(cte)
    ensures Clean(StepText(cte))
  {
    hide CteCols, FollowText, CleanCte, Free;
    var me := CteName(cte.number);
    CteColsClean(NextName, cte, [Alias(me), Sql(".path || ")] + SegmentText(NextName), [Alias(me), Sql(".depth + 1")],
                 [Alias(me), Sql(".visited || "), Alias(NextName), Sql(".uid || ','")]);
    FollowKeyless(cte.base, me, NextName);
  }

  lemma CteClean(cte: Cte)
    requires CleanCte(cte)
    ensures Clean(CteText(cte))
  {
    hide BaseText, StepText, CleanCte, Free;
    BaseClean(cte);
    StepClean(cte);
  }

  lemma CleanTwo(separator: string, a: seq<Tok>, b: seq<Tok>)
    requires Clean(a) && Clean(b)
    ensures Clean([Sql(separator)] + a + b)
  {
    hide Free;
  }

  lemma {:induction false} CtesClean(ctes: seq<Cte>)
    requires forall i :: 0 <= i < |ctes| ==> CleanCte(ctes[i])
    ensures Clean(CtesText(ctes))
  {
    if ctes != [] {
      hide CteText, CleanCte, Clean;
      CteClean(ctes[0]);
      CtesClean(ctes[1..]);
      CleanTwo(", ", CteText(ctes[0]), CtesText(ctes[1..]));
    }
  }

  // ----- from the query to its clauses -----

  ghost predicate CleanFilter(f: ObjectFilter) {
    && (forall k :: k in f.labels ==> Free(k, '?'))
    && (forall e :: e in f.labelExpressions ==> Free(e.key, '?'))
  }

  ghost predicate CleanFilters(fs: seq<ObjectFilter>) {
    forall f :: f in fs ==> CleanFilter(f)
  }

  lemma {:induction false} LabelsClean(labels: map<string, string>, keys: seq<string>)
    requires forall k :: k in keys ==> k in labels && Free(k, '?')
    ensures CleanClauses(LabelClauses(labels, keys)) && CleanClauses(ClusterLabelClauses(labels, keys))
  {
    if keys != [] {
      LabelsClean(labels, keys[1..]);
      assert keys[0] in keys;
    }
  }

  lemma {:induction false} ConditionsClean(cs: seq<ConditionFilter>)
    ensures CleanClauses(ConditionClauses(cs))
  {
    if cs != [] {
      ConditionsClean(cs[1..]);
    }
  }

  lemma {:induction false} CategoriesClean(cs: seq<string>)
    ensures CleanClauses(CategoryClauses(cs))
  {
    if cs != [] {
      CategoriesClean(cs[1..]);
    }
  }

  lemma ExpressionClean(e: LabelExpression)
    requires Free(e.key, '?')
    ensures CleanClauses(ExpressionClause(e))
  {
    var absent, outside := IsNull(LabelAt(e.key)), NotInList(LabelAt(e.key), e.values);
    assert [absent, outside][1..] == [outside] && [outside][1..] == [];
    assert CleanClauses([outside]) && CleanClauses([absent, outside]);
  }

  lemma {:induction false} ExpressionsClean(es: seq<LabelExpression>)
    requires forall e :: e in es ==> Free(e.key, '?')
    ensures CleanClauses(ExpressionClauses(es))
  {
    hide ExpressionClause, Free;
    if es != [] {
      assert es[0] in es;
      ExpressionClean(es[0]);
      ExpressionsClean(es[1..]);
      CleanClausesConcat(ExpressionClause(es[0]), ExpressionClauses(es[1..]));
    }
  }

  lemma SimpleClean(g: Option<GroupKind>, x: Scalar, value: string, after: Option<int>, before: Option<int>)
    requires CleanScalar(x)
    ensures CleanClauses(KindClauses(g)) && CleanClauses(TextClause(x, value))
            && CleanClauses(TimeClauses(after, before))
  {
    if g.Some? {
      CleanClausesConcat(if g.value.apiGroup != "" then [Equals(GroupColumn, g.value.apiGroup)] else [],
                         if g.value.kind != "" then [KindResolves(g.value.kind)] else []);
    }
    CleanClausesConcat(if after.Some? then [CreatedAfter(after.value)]
                         else [], if before.Some? then [CreatedBefore(before.value)] else []);
  }

  lemma FilterClean(f: ObjectFilter)
    requires CleanFilter(f)
    ensures CleanClauses(FilterClauses(f))
  {
    hide CleanClauses, KindClauses, TextClause, LabelClauses, ConditionClauses, TimeClauses, CategoryClauses,
         ExpressionClauses;
    var a := KindClauses(f.groupKind);
    var b := a + TextClause(NameColumn, f.name);
    var c := b + TextClause(NamespaceColumn, f.namespace);
    var d := c + LabelClauses(f.labels, Sorted(f.labels.Keys));
    var e := d + ConditionClauses(f.conditions);
    var g := e + TimeClauses(f.after, f.before);
    var h := g + TextClause(IdColumn, f.id);
    var i := h + CategoryClauses(f.categories);
    SimpleClean(f.groupKind, NameColumn, f.name, f.after, f.before);
    SimpleClean(None, NamespaceColumn, f.namespace, None, None);
    SimpleClean(None, IdColumn, f.id, None, None);
    LabelsClean(f.labels, Sorted(f.labels.Keys));
    ConditionsClean(f.conditions);
    CategoriesClean(f.categories);
    ExpressionsClean(f.labelExpressions);
    CleanClausesConcat(a, TextClause(NameColumn, f.name));
    CleanClausesConcat(b, TextClause(NamespaceColumn, f.namespace));
    CleanClausesConcat(c, LabelClauses(f.labels, Sorted(f.labels.Keys)));
    CleanClausesConcat(d, ConditionClauses(f.conditions));
    CleanClausesConcat(e, TimeClauses(f.after, f.before));
    CleanClausesConcat(g, TextClause(IdColumn, f.id));
    CleanClausesConcat(h, CategoryClauses(f.categories));
    CleanClausesConcat(i, ExpressionClauses(f.labelExpressions));
  }

  lemma {:induction false} FiltersClean(fs: seq<ObjectFilter>)
    requires CleanFilters(fs)
    ensures CleanClauses(AllFilterClauses(fs))
  {
    hide FilterClauses, CleanFilter;
    if fs != [] {
      assert fs[0] in fs;
      FilterClean(fs[0]);
      FiltersClean(fs[1..]);
      CleanClausesConcat(FilterClauses(fs[0]), AllFilterClauses(fs[1..]));
    }
  }

  lemma {:induction false} InnerClean(fs: seq<ObjectFilter>)
    ensures CleanClauses(InnerClauses(fs))
  {
    if fs != [] {
      hide InnerOne;
      InnerOneClean(fs[0]);
      InnerClean(fs[1..]);
      CleanClausesConcat(InnerOne(fs[0]), InnerClauses(fs[1..]));
    }
  }

  lemma {:induction false} GroupsClean(fs: seq<ObjectFilter>)
    requires CleanFilters(fs)
    ensures CleanClauses(EntryGroups(fs))
  {
    if fs != [] {
      hide CleanFilter, EntryGroup, EntryGroups, CleanClauses;
      assert fs[0] in fs;
      EntryGroupClean(fs[0]);
      GroupsClean(fs[1..]);
      CleanClausesConcat(EntryGroup(fs[0]), EntryGroups(fs[1..]));
      EntryGroupsStep(fs, 0);
      assert fs[0..] == fs;
    }
  }

  lemma EntryGroupClean(f: ObjectFilter)
    requires CleanFilter(f)
    ensures CleanClauses(EntryGroup(f))
  {
    hide FilterClauses, CleanFilter;
    FilterClean(f);
    assert [AllOf(FilterClauses(f))][1..] == [];
  }

  lemma InnerOneClean(f: ObjectFilter)
    ensures CleanClauses(InnerOne(f))
  {
    hide TextClause;
    var kind := if f.groupKind.Some? then f.groupKind.value.kind else "";
    SimpleClean(None, KindColumn, kind, None, None);
    SimpleClean(None, NameColumn, f.name, None, None);
    SimpleClean(None, NamespaceColumn, f.namespace, None, None);
    CleanClausesConcat(TextClause(KindColumn, kind), TextClause(NameColumn, f.name));
    CleanClausesConcat(TextClause(KindColumn, kind) + TextClause(NameColumn, f.name),
                       TextClause(NamespaceColumn, f.namespace));
  }

  lemma BlockClean(name: string, spec: RelationSpec)
    requires CleanFilters(spec.filters)
    ensures CleanClauses(BlockClauses(name, spec))
  {
    hide AllFilterClauses, JoinFor;
    FiltersClean(spec.filters);
    CleanClausesConcat(JoinClauses(JoinFor(BaseRelation(name), spec.filters)), AllFilterClauses(spec.filters));
  }

  /** No label key, projection key or relation name in the shape has a question mark. */
  ghost predicate CleanShape(shape: Option<ObjectsSpec>)
    decreases shape
  {
    shape.Some? ==>
      && CleanOption(shape.value.projection)
      && forall k :: k in shape.value.relations ==> CleanBlock(k, shape.value.relations[k])
  }

  ghost predicate CleanBlock(name: string, spec: RelationSpec)
    decreases spec
  {
    Free(name, '?') && CleanFilters(spec.filters) && CleanShape(spec.objects)
  }

  ghost predicate CleanQueue(queue: seq<Pending>) {
    forall i :: 0 <= i < |queue| ==> CleanBlock(queue[i].name, queue[i].spec)
  }

  lemma ShapeProjectionClean(shape: Option<ObjectsSpec>)
    requires CleanShape(shape)
    ensures CleanOption(ShapeProjection(shape))
  {
  }

  lemma {:induction false} AttachedClean(cte: Cte, shape: ObjectsSpec, names: seq<string>, level: nat)
    requires forall k :: k in names ==> k in shape.relations && CleanBlock(k, shape.relations[k])
    ensures forall i :: 0 <= i < |AttachedFor(cte, shape, names, level)|
              ==> CleanSelect(AttachedFor(cte, shape, names, level)[i])
  {
    if names != [] {
      hide BlockClauses, CleanOption, CleanClauses, Free, CleanFilters, ShapeProjection;
      var name := names[0];
      assert name in names;
      AttachedClean(cte, shape, names[1..], level);
      BlockClean(name, shape.relations[name]);
      ShapeProjectionClean(shape.relations[name].objects);
    }
  }

  lemma EmittedClean(q: Pending, n: nat, maxDepth: int)
    requires !Stuck(q) && CleanBlock(q.name, q.spec)
    ensures CleanPlan(Emitted(q, n, maxDepth))
  {
    hide BlockClauses, CleanOption, CleanClauses, Free, CleanFilters, ShapeProjection, InnerClauses, AttachedFor,
         IsTransitive;
    ShapeProjectionClean(q.spec.objects);
    if IsTransitive(q.name) {
      var cte := CteFor(q, BaseOf(BaseRelation(q.name)).value, n, maxDepth);
      InnerClean(q.spec.filters);
      if q.spec.objects.Some? {
        var shape := q.spec.objects.value;
        AttachedClean(cte, shape, Sorted(shape.relations.Keys), q.level + 1);
      }
    } else {
      BlockClean(q.name, q.spec);
    }
  }

  lemma BlocksClean(shape: Option<ObjectsSpec>, level: nat, ancestors: seq<Step>)
    requires CleanShape(shape)
    ensures CleanQueue(Blocks(shape, level, ancestors))
  {
    if shape.Some? {
      var names := Sorted(shape.value.relations.Keys);
      forall i | 0 <= i < |names|
        ensures CleanBlock(Blocks(shape, level, ancestors)[i].name, Blocks(shape, level, ancestors)[i].spec)
      {
        PendingIndex(shape.value, names, level, ancestors, i);
        assert names[i] in names;
      }
    }
  }

  lemma NextQueueClean(q: Pending, rest: seq<Pending>, n: nat)
    requires CleanBlock(q.name, q.spec) && CleanQueue(rest)
    ensures CleanQueue(rest + Successors(q, n))
  {
    if !IsTransitive(q.name) {
      hide Blocks;
      BlocksClean(q.spec.objects, q.level + 1, q.ancestors + [StepFor(q, n)]);
    }
  }

  lemma {:induction false} PassClean(queue: seq<Pending>, n: nat, maxDepth: int)
    requires CleanQueue(queue) && Pass(queue, n, maxDepth).Generated?
    ensures CleanPlan(Pass(queue, n, maxDepth).plan)
    decreases Weight(queue)
  {
    if queue != [] {
      hide Emitted, Successors, Weight, Stuck, CleanBlock, CleanSelect, CleanCte;
      var q, rest := queue[0], queue[1..];
      assert queue == [q] + rest;
      WeightTail(queue);
      if q.level > maxDepth {
        PassClean(rest, n, maxDepth);
      } else {
        SuccessorsLighter(q, n, rest);
        NextQueueClean(q, rest, n);
        PassClean(rest + Successors(q, n), n + 1, maxDepth);
        EmittedClean(q, n, maxDepth);
      }
    }
  }

  // ----- the whole query -----

  /** No key that the query copies into its text has a question mark. */
  ghost predicate CleanQuery(q: QuerySpec) {
    && (forall k :: k in q.clusterLabels ==> Free(k, '?'))
    && CleanFilters(q.filters)
    && CleanShape(q.objects)
  }

  lemma ClusterClean(q: QuerySpec)
    requires CleanQuery(q)
    ensures CleanClauses(ClusterClauses(q))
  {
    hide CleanClauses, TextClause, ClusterLabelClauses;
    SimpleClean(None, ClusterColumn, q.clusterName, None, None);
    LabelsClean(q.clusterLabels, Sorted(q.clusterLabels.Keys));
    CleanClausesConcat(TextClause(ClusterColumn, q.clusterName),
                       ClusterLabelClauses(q.clusterLabels, Sorted(q.clusterLabels.Keys)));
  }

  lemma GroupsCleanAnyOrder(a: seq<Clause>, b: seq<Clause>)
    requires GroupsAlike(a, b) && CleanClauses(b)
    ensures CleanClauses(a)
  {
    hide CleanClauses;
    CleanEach(a);
    CleanEach(b);
    forall c | c in a
      ensures CleanClause(c)
    {
      var i :| 0 <= i < |a| && a[i] == c;
      assert b[i] in b && GroupAlike(a[i], b[i]);
      CleanAnyOrder(a[i].clauses, b[i].clauses);
    }
  }

  lemma RootClean(q: QuerySpec, where: seq<Clause>)
    requires CleanQuery(q) && RootReordered(q, where)
    ensures CleanClauses(where)
  {
    hide CleanClauses, SameClauses, GroupsAlike, EntryGroups, ClusterClauses, CleanFilters, CleanShape;
    var head, groups :| SameClauses(head, ClusterClauses(q)) && GroupsAlike(groups, EntryGroups(q.filters))
                        && where == head + GroupedClause(groups);
    ClusterClean(q);
    CleanAnyOrder(head, ClusterClauses(q));
    GroupsClean(q.filters);
    GroupsCleanAnyOrder(groups, EntryGroups(q.filters));
    EntriesClean(groups);
    CleanClausesConcat(head, GroupedClause(groups));
  }

  lemma EntriesClean(groups: seq<Clause>)
    requires CleanClauses(groups)
    ensures CleanClauses(if groups != [] then [AnyOf(groups)] else [])
  {
    assert [AnyOf(groups)][1..] == [];
  }

  lemma CursorClean(q: QuerySpec)
    ensures AllClean(CursorTexts(q))
  {
    var cursor := CursorOf(q.page);
    if cursor.Values? {
      hide MarkList, FieldParts, CursorArgs, CursorFields, JoinToks;
      FieldsKeyless(CursorFields(q.order));
      JoinClean(FieldParts(CursorFields(q.order)), ", ");
      MarkListClean(CursorArgs(CursorFields(q.order), cursor.values));
    }
  }

  lemma {:induction false} FieldsKeyless(fields: seq<string>)
    ensures AllClean(FieldParts(fields))
  {
    if fields != [] {
      FieldsKeyless(fields[1..]);
    }
  }

  lemma {:induction false} OrderKeyless(cols: seq<Column>, a: Name)
    ensures AllClean(OrderParts(cols, a))
  {
    if cols != [] {
      OrderKeyless(cols[1..], a);
    }
  }

  lemma EndsClean(q: QuerySpec, a: Name)
    ensures Clean(FromText(q, a)) && Clean(TailText(q, a))
  {
    hide OrderParts, JoinToks, OrderColumns, Offset;
    OrderKeyless(OrderColumns(q.order), a);
    JoinClean(OrderParts(OrderColumns(q.order), a), ", ");
  }

  lemma RootTextClean(q: QuerySpec, where: seq<Clause>, cols: seq<Tok>, a: Name)
    requires CleanClauses(where) && Clean(cols)
    ensures Clean(RootText(q, where, cols, a))
  {
    hide WhereText, ClauseTexts, CursorTexts, FromText, TailText, Free, CleanClauses;
    EndsClean(q, a);
    ClausesClean(where, a);
    CursorClean(q);
    WhereClean(ClauseTexts(where, a) + CursorTexts(q));
  }

  lemma FullTextClean(q: QuerySpec, where: seq<Clause>, plan: Plan)
    requires CleanQuery(q) && RootReordered(q, where) && CleanPlan(plan)
    ensures Clean(FullText(q, where, plan))
  {
    hide RootText, CtesText, SelectCols, UnionText, Free, CleanClauses, CleanSelect, CleanCte, CleanShape,
         CleanFilters, CleanOption,
         RootReordered;
    RootClean(q, where);
    ShapeProjectionClean(q.objects);
    if HasRelations(q) {
      RootTextClean(q, where, [Sql("*")], RowName(0));
      CtesClean(plan.ctes);
      SelectColsClean(RowName(0), ShapeProjection(q.objects), SegmentText(RowName(0)));
      UnionClean(plan.selects);
    } else {
      var cols := SelectCols(ObjName, ShapeProjection(q.objects), SegmentText(ObjName))
                  + [Sql(", 0 AS level, '' AS relation_name")];
      SelectColsClean(ObjName, ShapeProjection(q.objects), SegmentText(ObjName));
      RootTextClean(q, where, cols, ObjName);
    }
  }

  lemma SelectCleanAlike(s: Select, t: Select)
    requires SelectAlike(s, t) && CleanSelect(t)
    ensures CleanSelect(s)
  {
    hide CleanClauses, SameClauses, CleanOption, Free;
    match s
    case Joined(_, _, _, where, _, _, _, _) => CleanAnyOrder(where, t.where);
    case Walked(_, _, _) =>
    case Attached(_, _, where, _, _, _) => CleanAnyOrder(where, t.where);
  }

  lemma PlanCleanAlike(p: Plan, q: Plan)
    requires PlanAlike(p, q) && CleanPlan(q)
    ensures CleanPlan(p)
  {
    hide CleanSelect, CleanCte, SelectAlike;
    var mid :| multiset(mid) == multiset(q.selects) && PairwiseAlike(p.selects, mid);
    SameMembersIn(mid, q.selects);
    forall i | 0 <= i < |p.selects|
      ensures CleanSelect(p.selects[i])
    {
      assert mid[i] in mid;
      assert mid[i] in q.selects;
      SelectCleanAlike(p.selects[i], mid[i]);
    }
  }

  /** Generating a query none of whose keys has a question mark, maps visited in any order, and putting
      its arguments in place of the question marks one after another, gives the query in which every
      argument stands where it was produced; the same holds of its count query. */
  method Send(q: QuerySpec) returns (where: seq<Clause>, g: Generated, args: seq<Arg>, countArgs: seq<Arg>)
    requires CleanQuery(q)
    ensures GeneratedFor(q, where, g)
    ensures g.Generated?
            ==> Substituted(Signs(FullText(q, where, g.plan)), args) == Intended(FullText(q, where, g.plan))
    ensures g.Generated? ==>
      Substituted(Signs(CountText(q, where, RootAlias(q))), countArgs) == Intended(CountText(q, where, RootAlias(q)))
  {
    hide FullText, CountText, PlanFor, Holes, Substituted, Signs, Intended, CleanQuery, RootReordered, GeneratedAlike;
    where, g, args, countArgs := Generate(q);
    if g.Generated? {
      PlanIsClean(q, where, g);
      FullTextClean(q, where, g.plan);
      CleanIsSafe(FullText(q, where, g.plan));
      ReadAsIntendedIff(FullText(q, where, g.plan));
      CountTextClean(q, where, RootAlias(q));
      CleanIsSafe(CountText(q, where, RootAlias(q)));
      ReadAsIntendedIff(CountText(q, where, RootAlias(q)));
    }
  }

  lemma PlanIsClean(q: QuerySpec, where: seq<Clause>, g: Generated)
    requires CleanQuery(q) && g.Generated? && GeneratedFor(q, where, g)
    ensures CleanPlan(g.plan)
  {
    hide CleanShape, CleanSelect, CleanCte, Pass, Blocks, PlanAlike, RootReordered;
    if HasRelations(q) {
      BlocksClean(q.objects, 1, []);
      PassClean(Blocks(q.objects, 1, []), 1, q.maxDepth);
      PlanCleanAlike(g.plan, PlanFor(q.objects, q.maxDepth).plan);
    }
  }

  lemma CountTextClean(q: QuerySpec, where: seq<Clause>, a: Name)
    requires CleanQuery(q) && RootReordered(q, where)
    ensures Clean(CountText(q, where, a))
  {
    hide WhereText, ClauseTexts, FromText, Free, CleanClauses, RootReordered, CleanQuery;
    RootClean(q, where);
    EndsClean(q, a);
    ClausesClean(where, a);
    WhereClean(ClauseTexts(where, a));
  }
}
