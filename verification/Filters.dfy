/** WHERE clauses under three-valued logic, and what the object filters mean. */
module Filters {
  import opened Options
  import opened Text
  import opened Objects
  import opened Spec
  import opened Relations

  // ----- clauses -----

  datatype Scalar = IdColumn | ClusterColumn | GroupColumn | KindColumn | NamespaceColumn | NameColumn
                  | LabelAt(path: string) | ClusterLabelAt(path: string)

  datatype ConditionField = TypeField | StatusField | ReasonField

  datatype ConditionTest = ConditionTest(field: ConditionField, value: string)

  /** A condition on one object row. The argument values stand where the SQL has placeholders. */
  datatype Clause =
    | Equals(x: Scalar, value: string)
    | IsNull(x: Scalar)
    | IsNotNull(x: Scalar)
    | InList(x: Scalar, values: seq<string>)
    | NotInList(x: Scalar, values: seq<string>)
    | CreatedAfter(time: int)
    | CreatedBefore(time: int)
    | KindResolves(kind: string)
    | HasCategory(category: string)
    | HasCondition(tests: seq<ConditionTest>)
    | AllOf(clauses: seq<Clause>)
    | AnyOf(clauses: seq<Clause>)

  /** The rows a clause can see besides the object: resource types, and cluster labels by name. */
  datatype Catalog = Catalog(types: seq<ResourceType>, clusters: map<string, map<string, string>>)

  function ScalarValue(x: Scalar, o: Obj, cat: Catalog): Option<string> {
    match x
    case IdColumn => Some(o.id)
    case ClusterColumn => Some(o.cluster)
    case GroupColumn => Some(o.apiGroup)
    case KindColumn => Some(o.kind)
    case NamespaceColumn => Some(o.namespace)
    case NameColumn => Some(o.name)
    case LabelAt(path) => ExtractLabel(o.labels, path)
    case ClusterLabelAt(path) => if o.cluster in cat.clusters then ExtractLabel(cat.clusters[o.cluster], path) else None
  }

  function Not3(a: Truth): Truth {
    match a case True => False case False => True case Unknown => Unknown
  }

  function Equal3(x: Option<string>, value: string): Truth {
    if x.None? then Unknown else Known(x.value == value)
  }

  /** `x IN (values)`; NULL is neither in nor out of a non-empty list. */
  function In3(x: Option<string>, values: seq<string>): Truth {
    if values == [] then False else Or3(Equal3(x, values[0]), In3(x, values[1..]))
  }

  /** A row of `resource_types` that describes the object's kind. */
  predicate Describes(t: ResourceType, o: Obj) {
    t.cluster == o.cluster && t.apiGroup == o.apiGroup && t.kind == o.kind
  }

  predicate Names(t: ResourceType, kind: string) {
    || Lower(t.kind) == Lower(kind) || Lower(t.resource) == Lower(kind) || Lower(t.singular) == Lower(kind)
    || Lower(kind) in t.shortNames
  }

  function ConditionText(c: Condition, field: ConditionField): Option<string> {
    match field case TypeField => Some(c.kind) case StatusField => c.status case ReasonField => c.reason
  }

  function Passes(c: Condition, tests: seq<ConditionTest>): Truth {
    if tests == [] then True
    else And3(Equal3(ConditionText(c, tests[0].field), tests[0].value), Passes(c, tests[1..]))
  }

  predicate KindKnown(kind: string, o: Obj, cat: Catalog) {
    exists t :: t in cat.types && Describes(t, o) && Names(t, kind)
  }

  predicate InCategory(category: string, o: Obj, cat: Catalog) {
    exists t :: t in cat.types && Describes(t, o) && category in t.categories
  }

  predicate SomeConditionPasses(o: Obj, tests: seq<ConditionTest>) {
    exists k :: k in o.conditions && Passes(k, tests) == True
  }

  function EvalAtom(c: Clause, o: Obj, cat: Catalog): Truth
    requires !c.AllOf? && !c.AnyOf?
  {
    match c
    case Equals(x, value) => Equal3(ScalarValue(x, o, cat), value)
    case IsNull(x) => Known(ScalarValue(x, o, cat).None?)
    case IsNotNull(x) => Known(ScalarValue(x, o, cat).Some?)
    case InList(x, values) => In3(ScalarValue(x, o, cat), values)
    case NotInList(x, values) => Not3(In3(ScalarValue(x, o, cat), values))
    case CreatedAfter(t) => if o.createdAt.None? then Unknown else Known(o.createdAt.value > t)
    case CreatedBefore(t) => if o.createdAt.None? then Unknown else Known(o.createdAt.value < t)
    case KindResolves(kind) => Known(KindKnown(kind, o, cat))
    case HasCategory(category) => Known(InCategory(category, o, cat))
    case HasCondition(tests) => Known(SomeConditionPasses(o, tests))
  }

  function Eval(c: Clause, o: Obj, cat: Catalog): Truth {
    match c
    case AllOf(clauses) => EvalAll(clauses, o, cat)
    case AnyOf(clauses) => EvalAny(clauses, o, cat)
    case _ => EvalAtom(c, o, cat)
  }

  function EvalAll(cs: seq<Clause>, o: Obj, cat: Catalog): Truth {
    if cs == [] then True else And3(Eval(cs[0], o, cat), EvalAll(cs[1..], o, cat))
  }

  function EvalAny(cs: seq<Clause>, o: Obj, cat: Catalog): Truth {
    if cs == [] then False else Or3(Eval(cs[0], o, cat), EvalAny(cs[1..], o, cat))
  }

  /** A row passes a WHERE when the conjunction of its clauses is true, not unknown. */
  predicate Accepts(cs: seq<Clause>, o: Obj, cat: Catalog) {
    EvalAll(cs, o, cat) == True
  }

  lemma AcceptsCons(c: Clause, cs: seq<Clause>, o: Obj, cat: Catalog)
    ensures Accepts([c] + cs, o, cat) <==> Eval(c, o, cat) == True && Accepts(cs, o, cat)
  {
    assert ([c] + cs)[1..] == cs;
  }

  lemma AcceptsOne(c: Clause, o: Obj, cat: Catalog)
    ensures Accepts([c], o, cat) <==> Eval(c, o, cat) == True
  {
    AcceptsCons(c, [], o, cat);
    assert [c] + [] == [c];
  }

  /** A clause list that may be empty. */
  lemma AcceptsOptional(given: bool, c: Clause, o: Obj, cat: Catalog)
    ensures Accepts(if given then [c] else [], o, cat) <==> (given ==> Eval(c, o, cat) == True)
  {
    AcceptsOne(c, o, cat);
  }

  lemma {:induction false} AcceptsConcat(a: seq<Clause>, b: seq<Clause>, o: Obj, cat: Catalog)
    ensures Accepts(a + b, o, cat) <==> Accepts(a, o, cat) && Accepts(b, o, cat)
  {
    if a == [] {
      assert a + b == b;
    } else {
      AcceptsConcat(a[1..], b, o, cat);
      assert (a + b)[1..] == a[1..] + b;
    }
  }

  // ----- building the clauses of one filter entry -----

  function KindClauses(g: Option<GroupKind>): seq<Clause> {
    if g.None? then []
    else
      (if g.value.apiGroup != "" then [Equals(GroupColumn, g.value.apiGroup)] else [])
      + (if g.value.kind != "" then [KindResolves(g.value.kind)] else [])
  }

  function TextClause(x: Scalar, value: string): seq<Clause> {
    if value != "" then [Equals(x, value)] else []
  }

  /** One equality per required label, in the order the keys are listed. */
  function LabelClauses(labels: map<string, string>, keys: seq<string>): seq<Clause>
    requires forall k :: k in keys ==> k in labels
  {
    if keys == [] then [] else [Equals(LabelAt(keys[0]), labels[keys[0]])] + LabelClauses(labels, keys[1..])
  }

  function ConditionTests(c: ConditionFilter): seq<ConditionTest> {
    [ConditionTest(TypeField, c.kind)]
    + (if c.status != "" then [ConditionTest(StatusField, c.status)] else [])
    + (if c.reason != "" then [ConditionTest(ReasonField, c.reason)] else [])
  }

  function ConditionClauses(cs: seq<ConditionFilter>): seq<Clause> {
    if cs == [] then []
    else
      [HasCondition(ConditionTests(cs[0]))] + ConditionClauses(cs[1..])
  }

  function TimeClauses(after: Option<int>, before: Option<int>): seq<Clause> {
    (if after.Some? then [CreatedAfter(after.value)] else [])
    + (if before.Some? then [CreatedBefore(before.value)] else [])
  }

  function CategoryClauses(cs: seq<string>): seq<Clause> {
    if cs == [] then [] else [HasCategory(cs[0])] + CategoryClauses(cs[1..])
  }

  /** The clause of one label expression; lists without values and unknown operators add none. */
  function ExpressionClause(e: LabelExpression): seq<Clause> {
    var x := LabelAt(e.key);
    match e.op
    case In => if e.values != [] then [InList(x, e.values)] else []
    case NotIn => if e.values != [] then [AnyOf([IsNull(x), NotInList(x, e.values)])] else []
    case Exists => [IsNotNull(x)]
    case DoesNotExist => [IsNull(x)]
    case UnknownOp => []
  }

  function ExpressionClauses(es: seq<LabelExpression>): seq<Clause> {
    if es == [] then [] else ExpressionClause(es[0]) + ExpressionClauses(es[1..])
  }

  /** All clauses of one filter entry, its required labels in ascending key order. */
  ghost function FilterClauses(f: ObjectFilter): seq<Clause> {
    KindClauses(f.groupKind) + TextClause(NameColumn, f.name) + TextClause(NamespaceColumn, f.namespace)
    + LabelClauses(f.labels, Sorted(f.labels.Keys)) + ConditionClauses(f.conditions)
    + TimeClauses(f.after, f.before) + TextClause(IdColumn, f.id) + CategoryClauses(f.categories)
    + ExpressionClauses(f.labelExpressions)
  }

  // ----- what a filter entry means -----

  /** A resource type of the object's cluster, group and kind is called this, by its kind, plural or singular
      in whatever case, or by a short name. */
  predicate KindNamed(kind: string, o: Obj, cat: Catalog) {
    exists t :: t in cat.types && t.cluster == o.cluster && t.apiGroup == o.apiGroup && t.kind == o.kind
      && (Lower(kind) in [Lower(t.kind), Lower(t.resource), Lower(t.singular)] || Lower(kind) in t.shortNames)
  }

  predicate Categorised(category: string, o: Obj, cat: Catalog) {
    exists t :: t in cat.types && t.cluster == o.cluster && t.apiGroup == o.apiGroup && t.kind == o.kind
      && category in t.categories
  }

  lemma CatalogMeaning(text: string, o: Obj, cat: Catalog)
    ensures KindKnown(text, o, cat) <==> KindNamed(text, o, cat)
    ensures InCategory(text, o, cat) <==> Categorised(text, o, cat)
  {
    hide Lower;
  }

  predicate KindMatches(g: Option<GroupKind>, o: Obj, cat: Catalog) {
    g.Some? ==>
      && (g.value.apiGroup != "" ==> o.apiGroup == g.value.apiGroup)
      && (g.value.kind != "" ==> KindNamed(g.value.kind, o, cat))
  }

  predicate ConditionIs(k: Condition, c: ConditionFilter) {
    && k.kind == c.kind
    && (c.status != "" ==> k.status == Some(c.status))
    && (c.reason != "" ==> k.reason == Some(c.reason))
  }

  predicate ConditionMatches(c: ConditionFilter, o: Obj) {
    exists k :: k in o.conditions && ConditionIs(k, c)
  }

  /** The Kubernetes meaning of a label expression; lists without values restrict nothing. */
  predicate ExpressionMatches(e: LabelExpression, o: Obj) {
    match e.op
    case In => e.values != [] ==> e.key in o.labels && o.labels[e.key] in e.values
    case NotIn => e.values != [] ==> e.key in o.labels ==> o.labels[e.key] !in e.values
    case Exists => e.key in o.labels
    case DoesNotExist => e.key !in o.labels
    case UnknownOp => true
  }

  /** The expression has a known operator and, if it needs values, some. */
  predicate ExpressionRestricts(e: LabelExpression) {
    e.op.Exists? || e.op.DoesNotExist? || ((e.op.In? || e.op.NotIn?) && e.values != [])
  }

  predicate InTime(after: Option<int>, before: Option<int>, o: Obj) {
    && (after.Some? ==> o.createdAt.Some? && o.createdAt.value > after.value)
    && (before.Some? ==> o.createdAt.Some? && o.createdAt.value < before.value)
  }

  /** The object meets every criterion of the entry. */
  predicate FilterMatches(f: ObjectFilter, o: Obj, cat: Catalog) {
    && KindMatches(f.groupKind, o, cat)
    && (f.name != "" ==> o.name == f.name)
    && (f.namespace != "" ==> o.namespace == f.namespace)
    && (forall k :: k in f.labels ==> k in o.labels && o.labels[k] == f.labels[k])
    && (forall c :: c in f.conditions ==> ConditionMatches(c, o))
    && InTime(f.after, f.before, o)
    && (f.id != "" ==> o.id == f.id)
    && (forall c :: c in f.categories ==> Categorised(c, o, cat))
    && (forall e :: e in f.labelExpressions ==> ExpressionMatches(e, o))
  }

  /** No label key that the entry mentions is empty or has a dot. */
  ghost predicate PlainKeys(f: ObjectFilter) {
    && (forall k :: k in f.labels ==> PlainKey(k))
    && (forall e :: e in f.labelExpressions ==> PlainKey(e.key))
  }

  /** The labels that a SQLite query can read: those whose key is not empty and has no dot. */
  function Visible(labels: map<string, string>): map<string, string> {
    map k | k in labels && PlainKey(k) :: labels[k]
  }

  function VisibleObj(o: Obj): Obj {
    o.(labels := Visible(o.labels))
  }

  function VisibleCatalog(cat: Catalog): Catalog {
    cat.(clusters := map c | c in cat.clusters :: Visible(cat.clusters[c]))
  }

  lemma ExtractVisible(labels: map<string, string>, key: string)
    ensures ExtractLabel(labels, key) == if key in Visible(labels) then Some(Visible(labels)[key]) else None
  {
    ExtractLabelMeaning(labels, key);
  }

  // ----- proofs, clause by clause -----

  lemma {:induction false} In3Meaning(x: Option<string>, values: seq<string>)
    ensures values != [] ==> (In3(x, values) == True <==> x.Some? && x.value in values)
    ensures values != [] ==> (In3(x, values) == False <==> x.Some? && x.value !in values)
  {
    if values != [] {
      In3Meaning(x, values[1..]);
    }
  }

  lemma NotInMeaning(key: string, values: seq<string>, o: Obj, cat: Catalog)
    requires values != []
    ensures Eval(AnyOf([IsNull(LabelAt(key)), NotInList(LabelAt(key), values)]), o, cat) == True
       <==> key in Visible(o.labels) ==> Visible(o.labels)[key] !in values
  {
    ExtractVisible(o.labels, key);
    In3Meaning(ExtractLabel(o.labels, key), values);
    var absent, outside := IsNull(LabelAt(key)), NotInList(LabelAt(key), values);
    assert [absent, outside][1..] == [outside] && [outside][1..] == [];
    calc {
      Eval(AnyOf([absent, outside]), o, cat);
      EvalAny([absent, outside], o, cat);
      Or3(Eval(absent, o, cat), EvalAny([outside], o, cat));
      Or3(Eval(absent, o, cat), Or3(Eval(outside, o, cat), False));
      Or3(EvalAtom(absent, o, cat), Or3(EvalAtom(outside, o, cat), False));
    }
  }

  /** Each label expression, under three-valued logic, is true exactly when it holds of the visible labels. */
  lemma ExpressionMeaning(e: LabelExpression, o: Obj, cat: Catalog)
    ensures Accepts(ExpressionClause(e), o, cat) <==> ExpressionMatches(e, VisibleObj(o))
  {
    hide Visible;
    ExtractVisible(o.labels, e.key);
    In3Meaning(ExtractLabel(o.labels, e.key), e.values);
    if e.op == NotIn && e.values != [] {
      NotInMeaning(e.key, e.values, o, cat);
    }
    if ExpressionClause(e) != [] {
      AcceptsOne(ExpressionClause(e)[0], o, cat);
      assert ExpressionClause(e) == [ExpressionClause(e)[0]];
    }
  }

  lemma {:induction false} ExpressionsMeaning(es: seq<LabelExpression>, o: Obj, cat: Catalog)
    ensures Accepts(ExpressionClauses(es), o, cat) <==> forall e :: e in es ==> ExpressionMatches(e, VisibleObj(o))
  {
    if es != [] {
      ExpressionMeaning(es[0], o, cat);
      ExpressionsMeaning(es[1..], o, cat);
      AcceptsConcat(ExpressionClause(es[0]), ExpressionClauses(es[1..]), o, cat);
      assert forall e :: e in es <==> e == es[0] || e in es[1..];
    }
  }

  lemma {:induction false} LabelsMeaning(labels: map<string, string>, keys: seq<string>, o: Obj, cat: Catalog)
    requires forall k :: k in keys ==> k in labels
    ensures Accepts(LabelClauses(labels, keys), o, cat)
       <==> forall k :: k in keys ==> k in Visible(o.labels) && Visible(o.labels)[k] == labels[k]
  {
    if keys != [] {
      var k := keys[0];
      hide Visible;
      LabelsMeaning(labels, keys[1..], o, cat);
      ExtractVisible(o.labels, k);
      AcceptsCons(Equals(LabelAt(k), labels[k]), LabelClauses(labels, keys[1..]), o, cat);
      assert forall x :: x in keys <==> x == k || x in keys[1..];
    }
  }

  lemma {:induction false} PassesConcat(k: Condition, a: seq<ConditionTest>, b: seq<ConditionTest>)
    ensures Passes(k, a + b) == True <==> Passes(k, a) == True && Passes(k, b) == True
  {
    if a == [] {
      assert a + b == b;
    } else {
      PassesConcat(k, a[1..], b);
      assert (a + b)[1..] == a[1..] + b;
    }
  }

  lemma PassesMeaning(k: Condition, c: ConditionFilter)
    ensures Passes(k, ConditionTests(c)) == True <==> ConditionIs(k, c)
  {
    var kind := [ConditionTest(TypeField, c.kind)];
    var status := if c.status != "" then [ConditionTest(StatusField, c.status)] else [];
    var reason := if c.reason != "" then [ConditionTest(ReasonField, c.reason)] else [];
    PassesConcat(k, kind + status, reason);
    PassesConcat(k, kind, status);
  }

  lemma ConditionMeaning(c: ConditionFilter, o: Obj)
    ensures SomeConditionPasses(o, ConditionTests(c)) <==> ConditionMatches(c, o)
  {
    forall k | k in o.conditions
      ensures Passes(k, ConditionTests(c)) == True <==> ConditionIs(k, c)
    {
      PassesMeaning(k, c);
    }
  }

  lemma {:induction false} ConditionsMeaning(cs: seq<ConditionFilter>, o: Obj, cat: Catalog)
    ensures Accepts(ConditionClauses(cs), o, cat) <==> forall c :: c in cs ==> ConditionMatches(c, o)
  {
    if cs != [] {
      ConditionsMeaning(cs[1..], o, cat);
      ConditionMeaning(cs[0], o);
      AcceptsCons(HasCondition(ConditionTests(cs[0])), ConditionClauses(cs[1..]), o, cat);
      assert forall c :: c in cs <==> c == cs[0] || c in cs[1..];
    }
  }

  lemma {:induction false} CategoriesMeaning(cs: seq<string>, o: Obj, cat: Catalog)
    ensures Accepts(CategoryClauses(cs), o, cat) <==> forall c :: c in cs ==> Categorised(c, o, cat)
  {
    if cs != [] {
      hide InCategory, Categorised;
      CatalogMeaning(cs[0], o, cat);
      CategoriesMeaning(cs[1..], o, cat);
      AcceptsCons(HasCategory(cs[0]), CategoryClauses(cs[1..]), o, cat);
      assert forall c :: c in cs <==> c == cs[0] || c in cs[1..];
    }
  }

  lemma TextMeaning(x: Scalar, value: string, o: Obj, cat: Catalog)
    ensures Accepts(TextClause(x, value), o, cat) <==> (value != "" ==> ScalarValue(x, o, cat) == Some(value))
  {
    AcceptsOptional(value != "", Equals(x, value), o, cat);
  }

  lemma KindMeaning(g: Option<GroupKind>, o: Obj, cat: Catalog)
    ensures Accepts(KindClauses(g), o, cat) <==> KindMatches(g, o, cat)
  {
    if g.Some? {
      hide KindKnown, KindNamed;
      var group, kind := g.value.apiGroup, g.value.kind;
      CatalogMeaning(kind, o, cat);
      AcceptsOptional(group != "", Equals(GroupColumn, group), o, cat);
      AcceptsOptional(kind != "", KindResolves(kind), o, cat);
      AcceptsConcat(if group != "" then [Equals(GroupColumn, group)] else [],
                    if kind != "" then [KindResolves(kind)] else [], o, cat);
    }
  }

  lemma TimeMeaning(after: Option<int>, before: Option<int>, o: Obj, cat: Catalog)
    ensures Accepts(TimeClauses(after, before), o, cat) <==> InTime(after, before, o)
  {
    if after.Some? {
      AcceptsOne(CreatedAfter(after.value), o, cat);
    }
    if before.Some? {
      AcceptsOne(CreatedBefore(before.value), o, cat);
    }
    AcceptsConcat(if after.Some? then [CreatedAfter(after.value)] else [],
                  if before.Some? then [CreatedBefore(before.value)] else [], o, cat);
  }

  lemma SameButLabels(o: Obj, cat: Catalog, g: Option<GroupKind>)
    ensures KindMatches(g, VisibleObj(o), cat) == KindMatches(g, o, cat)
    ensures forall category :: Categorised(category, VisibleObj(o), cat) == Categorised(category, o, cat)
    ensures forall c :: ConditionMatches(c, VisibleObj(o)) == ConditionMatches(c, o)
  {
    hide Visible, Lower;
  }

  /** A filter entry's WHERE clauses are true of an object exactly when the object, its labels cut
      down to those with a plain key, meets every criterion. This holds of every entry. */
  lemma FilterMeaning(f: ObjectFilter, o: Obj, cat: Catalog)
    ensures Accepts(FilterClauses(f), o, cat) <==> FilterMatches(f, VisibleObj(o), cat)
  {
    FilterMeaningParts(f, o, cat);
    hide FilterClauses, KindMatches, Categorised, ConditionMatches, ExpressionMatches, Visible, Accepts;
    SameButLabels(o, cat, f.groupKind);
  }

  /** If no label key in the entry has a dot, cutting the labels down changes nothing. */
  lemma PlainKeysSuffice(f: ObjectFilter, o: Obj, cat: Catalog)
    requires PlainKeys(f)
    ensures FilterMatches(f, VisibleObj(o), cat) <==> FilterMatches(f, o, cat)
  {
    hide KindMatches, Categorised, ConditionMatches;
    SameButLabels(o, cat, f.groupKind);
  }

  const NO_FILTER := ObjectFilter(None, "", "", map[], [], [], None, None, "", [])

  /** The entry's WHERE raises nothing on the object and is true of it if it meets the criteria. */
  ghost predicate EntryRight(f: ObjectFilter, o: Obj, cat: Catalog) {
    !WhereRaises(FilterClauses(f), o, cat) && (Accepts(FilterClauses(f), o, cat) <==> FilterMatches(f, o, cat))
  }

  /** An entry that only requires labels is right on every object exactly when none of its keys is empty
      or has a dot. */
  lemma LabelFilterRightIff(labels: map<string, string>, cat: Catalog)
    ensures var f := NO_FILTER.(labels := labels);
      (forall k :: k in labels ==> PlainKey(k)) <==> forall o :: EntryRight(f, o, cat)
  {
    var f := NO_FILTER.(labels := labels);
    hide FilterClauses, Accepts, WhereRaises;
    if PlainKeys(f) {
      forall o
        ensures EntryRight(f, o, cat)
      {
        FilterMeaning(f, o, cat);
        PlainKeysSuffice(f, o, cat);
        PlainNeverRaises(f, o, cat);
      }
    } else {
      var o := Obj("", "", "", "", "", "", "", "", "", labels, [], [], [], [], None, JNull);
      assert FilterMatches(f, o, cat);
      var k :| k in labels && !PlainKey(k);
      assert k !in Visible(o.labels);
      FilterMeaning(f, o, cat);
      assert !EntryRight(f, o, cat);
    }
  }

  // ----- paths that raise -----

  /** The columns and labels that a clause reads. */
  function ClauseScalars(c: Clause): seq<Scalar> {
    match c
    case Equals(x, _) => [x]
    case IsNull(x) => [x]
    case IsNotNull(x) => [x]
    case InList(x, _) => [x]
    case NotInList(x, _) => [x]
    case AllOf(cs) => ClausesScalars(cs)
    case AnyOf(cs) => ClausesScalars(cs)
    case _ => []
  }

  function ClausesScalars(cs: seq<Clause>): seq<Scalar> {
    if cs == [] then [] else ClauseScalars(cs[0]) + ClausesScalars(cs[1..])
  }

  predicate ScalarReadable(x: Scalar) {
    match x
    case LabelAt(path) => NoEmptyPart(path)
    case ClusterLabelAt(path) => NoEmptyPart(path)
    case _ => true
  }

  predicate ScalarRaises(x: Scalar, o: Obj, cat: Catalog) {
    match x
    case LabelAt(path) => LabelRaises(o.labels, path)
    case ClusterLabelAt(path) => o.cluster in cat.clusters && LabelRaises(cat.clusters[o.cluster], path)
    case _ => false
  }

  /** No label path in the WHERE has an empty part. */
  ghost predicate ClausesReadable(cs: seq<Clause>) {
    forall x :: x in ClausesScalars(cs) ==> ScalarReadable(x)
  }

  /** Evaluating the WHERE on the object can raise an error. Which parts are evaluated is up to the
      database; a part that is skipped does not change the truth value. */
  ghost predicate WhereRaises(cs: seq<Clause>, o: Obj, cat: Catalog) {
    exists x :: x in ClausesScalars(cs) && ScalarRaises(x, o, cat)
  }

  lemma ReadableNeverRaises(cs: seq<Clause>, o: Obj, cat: Catalog)
    requires ClausesReadable(cs)
    ensures !WhereRaises(cs, o, cat)
  {
    hide LabelRaises, NoEmptyPart;
    forall x | x in ClausesScalars(cs)
      ensures !ScalarRaises(x, o, cat)
    {
      match x
      case LabelAt(path) => WhenLabelRaises(o.labels, path);
      case ClusterLabelAt(path) =>
        if o.cluster in cat.clusters {
          WhenLabelRaises(cat.clusters[o.cluster], path);
        }
      case _ =>
    }
  }

  lemma {:induction false} ScalarsConcat(a: seq<Clause>, b: seq<Clause>)
    ensures ClausesScalars(a + b) == ClausesScalars(a) + ClausesScalars(b)
  {
    hide ClauseScalars;
    if a == [] {
      assert a + b == b;
    } else {
      ScalarsConcat(a[1..], b);
      assert (a + b)[1..] == a[1..] + b;
      Regrouped(ClauseScalars(a[0]), ClausesScalars(a[1..]), ClausesScalars(b));
    }
  }

  lemma ReadableConcat(a: seq<Clause>, b: seq<Clause>)
    ensures ClausesReadable(a + b) <==> ClausesReadable(a) && ClausesReadable(b)
  {
    hide ClausesScalars, ScalarReadable;
    ScalarsConcat(a, b);
    assert forall x :: x in ClausesScalars(a) + ClausesScalars(b) <==> x in ClausesScalars(a) || x in ClausesScalars(b);
  }

  lemma ReadableOne(c: Clause)
    ensures ClausesReadable([c]) <==> forall x :: x in ClauseScalars(c) ==> ScalarReadable(x)
  {
    hide ClauseScalars, ScalarReadable;
    assert ClausesScalars([c]) == ClauseScalars(c) + ClausesScalars([c][1..]);
    NothingAdded(ClauseScalars(c));
  }

  lemma ReadableSingle(c: Clause, x: Scalar)
    requires ClauseScalars(c) == [x]
    ensures ClausesReadable([c]) <==> ScalarReadable(x)
  {
    hide ScalarReadable, ClausesReadable;
    ReadableOne(c);
    assert x in [x];
  }

  lemma {:induction false} ReadableEach(cs: seq<Clause>)
    ensures ClausesReadable(cs) <==> forall c :: c in cs ==> ClausesReadable([c])
  {
    hide ClausesReadable;
    if cs == [] {
      NothingReadable();
    } else {
      assert cs == [cs[0]] + cs[1..];
      ReadableConcat([cs[0]], cs[1..]);
      ReadableEach(cs[1..]);
      assert forall c :: c in cs <==> c == cs[0] || c in cs[1..];
    }
  }

  /** No label key that the entry puts into its WHERE has an empty part. */
  ghost predicate EntryReadable(f: ObjectFilter) {
    && (forall k :: k in f.labels ==> NoEmptyPart(k))
    && (forall e :: e in f.labelExpressions && ExpressionRestricts(e) ==> NoEmptyPart(e.key))
  }

  lemma {:induction false} LabelsReadIff(labels: map<string, string>, keys: seq<string>)
    requires forall k :: k in keys ==> k in labels
    ensures ClausesReadable(LabelClauses(labels, keys)) <==> forall k :: k in keys ==> NoEmptyPart(k)
  {
    hide NoEmptyPart, ClausesReadable;
    if keys == [] {
      NothingReadable();
    } else {
      var c := Equals(LabelAt(keys[0]), labels[keys[0]]);
      LabelsReadIff(labels, keys[1..]);
      ReadableConcat([c], LabelClauses(labels, keys[1..]));
      ReadableSingle(c, LabelAt(keys[0]));
      assert forall k :: k in keys <==> k == keys[0] || k in keys[1..];
    }
  }

  lemma ExpressionReadIff(e: LabelExpression)
    ensures ClausesReadable(ExpressionClause(e)) <==> (ExpressionClause(e) != [] ==> NoEmptyPart(e.key))
  {
    hide NoEmptyPart;
    if ExpressionClause(e) != [] {
      var c := ExpressionClause(e)[0];
      assert ExpressionClause(e) == [c];
      var x := LabelAt(e.key);
      if e.op == NotIn {
        var absent, outside := IsNull(x), NotInList(x, e.values);
        ReadableSingle(absent, x);
        ReadableSingle(outside, x);
        ReadableConcat([absent], [outside]);
        assert [absent] + [outside] == [absent, outside];
        ReadableOne(c);
      } else {
        ReadableSingle(c, x);
      }
    }
  }

  lemma ExpressionRestrictsIff(e: LabelExpression)
    ensures ExpressionRestricts(e) <==> ExpressionClause(e) != []
  {
  }

  lemma {:induction false} ExpressionsReadIff(es: seq<LabelExpression>)
    ensures ClausesReadable(ExpressionClauses(es))
            <==> forall e :: e in es && ExpressionRestricts(e) ==> NoEmptyPart(e.key)
  {
    hide NoEmptyPart, ExpressionClause, ClausesReadable, ExpressionRestricts;
    if es == [] {
      assert ClausesReadable([]) by { NothingReadable(); }
    } else {
      ExpressionsReadIff(es[1..]);
      ExpressionReadIff(es[0]);
      ExpressionRestrictsIff(es[0]);
      NothingReadable();
      ReadableConcat(ExpressionClause(es[0]), ExpressionClauses(es[1..]));
      assert forall e :: e in es <==> e == es[0] || e in es[1..];
    }
  }

  lemma NothingReadable()
    ensures ClausesReadable([])
  {
  }

  lemma {:induction false} ConditionsReadable(cs: seq<ConditionFilter>)
    ensures ClausesReadable(ConditionClauses(cs))
  {
    if cs != [] {
      var c := HasCondition(ConditionTests(cs[0]));
      ConditionsReadable(cs[1..]);
      ReadableConcat([c], ConditionClauses(cs[1..]));
      ReadableOne(c);
    }
  }

  lemma {:induction false} CategoriesReadable(cs: seq<string>)
    ensures ClausesReadable(CategoryClauses(cs))
  {
    if cs != [] {
      var c := HasCategory(cs[0]);
      CategoriesReadable(cs[1..]);
      ReadableConcat([c], CategoryClauses(cs[1..]));
      ReadableOne(c);
    }
  }

  lemma TextReadable(x: Scalar, value: string)
    requires ScalarReadable(x)
    ensures ClausesReadable(TextClause(x, value))
  {
    ReadableOne(Equals(x, value));
  }

  lemma KindReadable(g: Option<GroupKind>)
    ensures ClausesReadable(KindClauses(g))
  {
    if g.Some? {
      var a := if g.value.apiGroup != "" then [Equals(GroupColumn, g.value.apiGroup)] else [];
      var b := if g.value.kind != "" then [KindResolves(g.value.kind)] else [];
      ReadableOne(Equals(GroupColumn, g.value.apiGroup));
      ReadableOne(KindResolves(g.value.kind));
      ReadableConcat(a, b);
    }
  }

  lemma TimesReadable(after: Option<int>, before: Option<int>)
    ensures ClausesReadable(TimeClauses(after, before))
  {
    var a := if after.Some? then [CreatedAfter(after.value)] else [];
    var b := if before.Some? then [CreatedBefore(before.value)] else [];
    if after.Some? {
      ReadableOne(CreatedAfter(after.value));
    }
    if before.Some? {
      ReadableOne(CreatedBefore(before.value));
    }
    ReadableConcat(a, b);
  }

  /** The WHERE of an entry has no path that could raise exactly when no label key it uses has an empty part. */
  lemma EntryReadableIff(f: ObjectFilter)
    ensures ClausesReadable(FilterClauses(f)) <==> EntryReadable(f)
  {
    hide ClausesReadable, KindClauses, TextClause, LabelClauses, ConditionClauses, TimeClauses, CategoryClauses,
         ExpressionClauses, ExpressionRestricts, NoEmptyPart;
    var a := KindClauses(f.groupKind);
    var b := a + TextClause(NameColumn, f.name);
    var c := b + TextClause(NamespaceColumn, f.namespace);
    var d := c + LabelClauses(f.labels, Sorted(f.labels.Keys));
    var e := d + ConditionClauses(f.conditions);
    var g := e + TimeClauses(f.after, f.before);
    var h := g + TextClause(IdColumn, f.id);
    var i := h + CategoryClauses(f.categories);
    ReadableConcat(a, TextClause(NameColumn, f.name));
    ReadableConcat(b, TextClause(NamespaceColumn, f.namespace));
    ReadableConcat(c, LabelClauses(f.labels, Sorted(f.labels.Keys)));
    ReadableConcat(d, ConditionClauses(f.conditions));
    ReadableConcat(e, TimeClauses(f.after, f.before));
    ReadableConcat(g, TextClause(IdColumn, f.id));
    ReadableConcat(h, CategoryClauses(f.categories));
    ReadableConcat(i, ExpressionClauses(f.labelExpressions));
    KindReadable(f.groupKind);
    TextReadable(NameColumn, f.name);
    TextReadable(NamespaceColumn, f.namespace);
    TextReadable(IdColumn, f.id);
    LabelsReadIff(f.labels, Sorted(f.labels.Keys));
    ConditionsReadable(f.conditions);
    TimesReadable(f.after, f.before);
    CategoriesReadable(f.categories);
    ExpressionsReadIff(f.labelExpressions);
  }

  lemma PlainNeverRaises(f: ObjectFilter, o: Obj, cat: Catalog)
    requires PlainKeys(f)
    ensures !WhereRaises(FilterClauses(f), o, cat)
  {
    hide FilterClauses, WhereRaises, ClausesReadable, NoEmptyPart;
    forall k | k in f.labels
      ensures NoEmptyPart(k)
    {
      PlainKeyReadable(k);
    }
    forall e | e in f.labelExpressions
      ensures NoEmptyPart(e.key)
    {
      PlainKeyReadable(e.key);
    }
    EntryReadableIff(f);
    ReadableNeverRaises(FilterClauses(f), o, cat);
  }

  ghost predicate MeetsAll(f: ObjectFilter, o: Obj, cat: Catalog) {
    && KindMatches(f.groupKind, o, cat)
    && (f.name != "" ==> o.name == f.name)
    && (f.namespace != "" ==> o.namespace == f.namespace)
    && (forall k :: k in f.labels ==> k in Visible(o.labels) && Visible(o.labels)[k] == f.labels[k])
    && (forall c :: c in f.conditions ==> ConditionMatches(c, o))
    && InTime(f.after, f.before, o)
    && (f.id != "" ==> o.id == f.id)
    && (forall c :: c in f.categories ==> Categorised(c, o, cat))
    && (forall e :: e in f.labelExpressions ==> ExpressionMatches(e, VisibleObj(o)))
  }

  lemma FilterMeaningParts(f: ObjectFilter, o: Obj, cat: Catalog)
    ensures Accepts(FilterClauses(f), o, cat) <==> MeetsAll(f, o, cat)
  {
    hide Accepts, KindMatches, ConditionMatches, ExpressionMatches, Categorised, Visible, KindClauses, TextClause,
         LabelClauses,
         ConditionClauses, TimeClauses, CategoryClauses, ExpressionClauses;
    var a := KindClauses(f.groupKind);
    var b := a + TextClause(NameColumn, f.name);
    var c := b + TextClause(NamespaceColumn, f.namespace);
    var d := c + LabelClauses(f.labels, Sorted(f.labels.Keys));
    var e := d + ConditionClauses(f.conditions);
    var g := e + TimeClauses(f.after, f.before);
    var h := g + TextClause(IdColumn, f.id);
    var i := h + CategoryClauses(f.categories);
    AcceptsConcat(a, TextClause(NameColumn, f.name), o, cat);
    AcceptsConcat(b, TextClause(NamespaceColumn, f.namespace), o, cat);
    AcceptsConcat(c, LabelClauses(f.labels, Sorted(f.labels.Keys)), o, cat);
    AcceptsConcat(d, ConditionClauses(f.conditions), o, cat);
    AcceptsConcat(e, TimeClauses(f.after, f.before), o, cat);
    AcceptsConcat(g, TextClause(IdColumn, f.id), o, cat);
    AcceptsConcat(h, CategoryClauses(f.categories), o, cat);
    AcceptsConcat(i, ExpressionClauses(f.labelExpressions), o, cat);
    KindMeaning(f.groupKind, o, cat);
    TextMeaning(NameColumn, f.name, o, cat);
    TextMeaning(NamespaceColumn, f.namespace, o, cat);
    TextMeaning(IdColumn, f.id, o, cat);
    LabelsMeaning(f.labels, Sorted(f.labels.Keys), o, cat);
    ConditionsMeaning(f.conditions, o, cat);
    TimeMeaning(f.after, f.before, o, cat);
    CategoriesMeaning(f.categories, o, cat);
    ExpressionsMeaning(f.labelExpressions, o, cat);
  }

  /** In and NotIn over the same non-empty values split every set of objects in two, and so do
      Exists and DoesNotExist, for every key: no object is lost to an unknown comparison. */
  lemma ExpressionsPartition(key: string, values: seq<string>, o: Obj, cat: Catalog)
    requires values != []
    ensures Accepts(ExpressionClause(LabelExpression(key, NotIn, values)), o, cat)
       <==> !Accepts(ExpressionClause(LabelExpression(key, In, values)), o, cat)
    ensures Accepts(ExpressionClause(LabelExpression(key, DoesNotExist, values)), o, cat)
       <==> !Accepts(ExpressionClause(LabelExpression(key, Exists, values)), o, cat)
  {
    var x := LabelAt(key);
    In3Meaning(ScalarValue(x, o, cat), values);
    AcceptsOne(InList(x, values), o, cat);
    AcceptsOne(IsNull(x), o, cat);
    AcceptsOne(IsNotNull(x), o, cat);
    var absent, outside := IsNull(x), NotInList(x, values);
    AcceptsOne(AnyOf([absent, outside]), o, cat);
    AnyOfTwo(absent, outside, o, cat);
  }

  // ----- the root query -----

  function ClusterLabelClauses(labels: map<string, string>, keys: seq<string>): seq<Clause>
    requires forall k :: k in keys ==> k in labels
  {
    if keys == [] then []
    else [Equals(ClusterLabelAt(keys[0]), labels[keys[0]])] + ClusterLabelClauses(labels, keys[1..])
  }

  /** One conjunction per filter entry that has any clause; entries without clauses are passed over. */
  ghost function EntryGroups(fs: seq<ObjectFilter>): seq<Clause> {
    if fs == [] then []
    else (if FilterClauses(fs[0]) != [] then [AllOf(FilterClauses(fs[0]))] else []) + EntryGroups(fs[1..])
  }

  ghost function EntryClauses(fs: seq<ObjectFilter>): seq<Clause> {
    if EntryGroups(fs) != [] then [AnyOf(EntryGroups(fs))] else []
  }

  /** The WHERE of the root query and of the count query. */
  ghost function RootClauses(q: QuerySpec): seq<Clause> {
    TextClause(ClusterColumn, q.clusterName)
    + ClusterLabelClauses(q.clusterLabels, Sorted(q.clusterLabels.Keys))
    + EntryClauses(q.filters)
  }

  /** The entry restricts something. */
  ghost predicate Restricts(f: ObjectFilter) {
    || (f.groupKind.Some? && (f.groupKind.value.apiGroup != "" || f.groupKind.value.kind != ""))
    || f.name != "" || f.namespace != "" || f.labels != map[] || f.conditions != []
    || f.after.Some? || f.before.Some? || f.id != "" || f.categories != []
    || exists e :: e in f.labelExpressions && ExpressionRestricts(e)
  }

  ghost predicate ClusterMatches(q: QuerySpec, o: Obj, cat: Catalog) {
    && (q.clusterName != "" ==> o.cluster == q.clusterName)
    && (forall k :: k in q.clusterLabels ==>
          o.cluster in cat.clusters && k in cat.clusters[o.cluster] && cat.clusters[o.cluster][k] == q.clusterLabels[k])
  }

  /** The object is a root of the query: its cluster is asked for, and some restricting entry
      holds of it, or no entry restricts anything. */
  ghost predicate RootMatches(q: QuerySpec, o: Obj, cat: Catalog) {
    ClusterMatches(q, o, cat) && EntriesAsked(q.filters, o, cat)
  }

  ghost predicate EntriesAsked(fs: seq<ObjectFilter>, o: Obj, cat: Catalog) {
    (forall f :: f in fs ==> !Restricts(f)) || exists f :: f in fs && Restricts(f) && FilterMatches(f, o, cat)
  }

  ghost predicate PlainRootKeys(q: QuerySpec) {
    && (forall k :: k in q.clusterLabels ==> PlainKey(k))
    && (forall f :: f in q.filters ==> PlainKeys(f))
  }

  lemma AnyOfTwo(a: Clause, b: Clause, o: Obj, cat: Catalog)
    ensures Eval(AnyOf([a, b]), o, cat) == True <==> Eval(a, o, cat) == True || Eval(b, o, cat) == True
  {
    assert [a, b][1..] == [b] && [b][1..] == [];
    assert EvalAny([a, b], o, cat) == Or3(Eval(a, o, cat), EvalAny([b], o, cat));
    assert EvalAny([b], o, cat) == Or3(Eval(b, o, cat), False);
  }

  lemma {:induction false} ExpressionClausesEmpty(es: seq<LabelExpression>)
    ensures ExpressionClauses(es) == [] <==> forall e :: e in es ==> ExpressionClause(e) == []
  {
    if es != [] {
      ExpressionClausesEmpty(es[1..]);
      assert forall e :: e in es <==> e == es[0] || e in es[1..];
    }
  }

  lemma RestrictsIff(f: ObjectFilter)
    ensures FilterClauses(f) != [] <==> Restricts(f)
  {
    hide Ascending, Sorted, ExpressionClauses, ExpressionClause, ExpressionRestricts;
    ExpressionClausesEmpty(f.labelExpressions);
    forall e
      ensures ExpressionRestricts(e) <==> ExpressionClause(e) != []
    {
      ExpressionRestrictsIff(e);
    }
    NoLabels(f.labels);
  }

  lemma NoLabels(labels: map<string, string>)
    ensures labels == map[] <==> LabelClauses(labels, Sorted(labels.Keys)) == []
  {
    hide Ascending;
    assert labels == map[] <==> Sorted(labels.Keys) == [] by {
      assert labels == map[] <==> |labels.Keys| == 0;
    }
  }

  lemma {:induction false} ClusterLabelsMeaning(labels: map<string, string>, keys: seq<string>, o: Obj, cat: Catalog)
    requires forall k :: k in keys ==> k in labels
    ensures Accepts(ClusterLabelClauses(labels, keys), o, cat)
       <==> forall k :: k in keys ==>
              o.cluster in cat.clusters && k in Visible(cat.clusters[o.cluster])
                && Visible(cat.clusters[o.cluster])[k] == labels[k]
  {
    if keys != [] {
      hide Visible;
      var k := keys[0];
      ClusterLabelsMeaning(labels, keys[1..], o, cat);
      if o.cluster in cat.clusters {
        ExtractVisible(cat.clusters[o.cluster], k);
      }
      AcceptsCons(Equals(ClusterLabelAt(k), labels[k]), ClusterLabelClauses(labels, keys[1..]), o, cat);
      assert forall x :: x in keys <==> x == k || x in keys[1..];
    }
  }

  lemma AnyCons(c: Clause, cs: seq<Clause>, o: Obj, cat: Catalog)
    ensures EvalAny([c] + cs, o, cat) == True <==> Eval(c, o, cat) == True || EvalAny(cs, o, cat) == True
  {
    assert ([c] + cs)[1..] == cs;
  }

  lemma {:induction false} EntryGroupsMeaning(fs: seq<ObjectFilter>, o: Obj, cat: Catalog)
    ensures EvalAny(EntryGroups(fs), o, cat) == True
       <==> exists f :: f in fs && Restricts(f) && FilterMatches(f, VisibleObj(o), cat)
    ensures EntryGroups(fs) == [] <==> forall f :: f in fs ==> !Restricts(f)
  {
    hide FilterMatches, Restricts, FilterClauses, VisibleObj;
    if fs != [] {
      var f := fs[0];
      EntryGroupsMeaning(fs[1..], o, cat);
      FilterMeaning(f, o, cat);
      RestrictsIff(f);
      AnyCons(AllOf(FilterClauses(f)), EntryGroups(fs[1..]), o, cat);
      assert Eval(AllOf(FilterClauses(f)), o, cat) == EvalAll(FilterClauses(f), o, cat);
      assert [] + EntryGroups(fs[1..]) == EntryGroups(fs[1..]);
      assert forall g :: g in fs <==> g == f || g in fs[1..];
    }
  }

  lemma {:induction false} ClusterLabelsReadIff(labels: map<string, string>, keys: seq<string>)
    requires forall k :: k in keys ==> k in labels
    ensures ClausesReadable(ClusterLabelClauses(labels, keys)) <==> forall k :: k in keys ==> NoEmptyPart(k)
  {
    hide NoEmptyPart, ClausesReadable;
    if keys == [] {
      NothingReadable();
    } else {
      var c := Equals(ClusterLabelAt(keys[0]), labels[keys[0]]);
      ClusterLabelsReadIff(labels, keys[1..]);
      ReadableConcat([c], ClusterLabelClauses(labels, keys[1..]));
      ReadableSingle(c, ClusterLabelAt(keys[0]));
      assert forall k :: k in keys <==> k == keys[0] || k in keys[1..];
    }
  }

  lemma {:induction false} GroupsReadIff(fs: seq<ObjectFilter>)
    ensures ClausesReadable(EntryGroups(fs)) <==> forall f :: f in fs ==> EntryReadable(f)
  {
    hide ClausesReadable, EntryReadable, FilterClauses;
    if fs == [] {
      NothingReadable();
    } else {
      GroupsReadIff(fs[1..]);
      EntryReadableIff(fs[0]);
      NothingReadable();
      ReadableGroup(FilterClauses(fs[0]));
      ReadableConcat([AllOf(FilterClauses(fs[0]))], EntryGroups(fs[1..]));
      assert [] + EntryGroups(fs[1..]) == EntryGroups(fs[1..]);
      assert forall f :: f in fs <==> f == fs[0] || f in fs[1..];
    }
  }

  lemma ReadableGroup(cs: seq<Clause>)
    ensures ClausesReadable([AllOf(cs)]) <==> ClausesReadable(cs)
    ensures ClausesReadable([AnyOf(cs)]) <==> ClausesReadable(cs)
  {
    ReadableOne(AllOf(cs));
    ReadableOne(AnyOf(cs));
  }

  /** No path in the root WHERE can raise exactly when no label key of the query has an empty part. */
  lemma RootReadableIff(q: QuerySpec)
    ensures ClausesReadable(RootClauses(q))
       <==> && (forall k :: k in q.clusterLabels ==> NoEmptyPart(k))
            && (forall f :: f in q.filters ==> EntryReadable(f))
  {
    hide ClausesReadable, EntryReadable, NoEmptyPart, EntryGroups, ClusterLabelClauses;
    var a := TextClause(ClusterColumn, q.clusterName);
    var b := ClusterLabelClauses(q.clusterLabels, Sorted(q.clusterLabels.Keys));
    ReadableConcat(a, b);
    ReadableConcat(a + b, EntryClauses(q.filters));
    TextReadable(ClusterColumn, q.clusterName);
    ClusterLabelsReadIff(q.clusterLabels, Sorted(q.clusterLabels.Keys));
    GroupsReadIff(q.filters);
    ReadableGroup(EntryGroups(q.filters));
    NothingReadable();
  }

  /** The root WHERE is true of an object exactly when the query asks for that object, the labels of
      object and cluster cut down to those whose key is not empty and has no dot. This holds of every query. */
  lemma RootMeaning(q: QuerySpec, o: Obj, cat: Catalog)
    ensures Accepts(RootClauses(q), o, cat) <==> RootMatches(q, VisibleObj(o), VisibleCatalog(cat))
  {
    hide RootClauses, Accepts, ClusterAsked, ClusterMatches, EntriesAsked;
    RootMeaningParts(q, o, cat);
    ClusterVisible(q, o, cat);
    EntriesSameTypes(q.filters, VisibleObj(o), cat, VisibleCatalog(cat));
  }

  lemma ClusterVisible(q: QuerySpec, o: Obj, cat: Catalog)
    ensures ClusterAsked(q, o, cat) <==> ClusterMatches(q, VisibleObj(o), VisibleCatalog(cat))
  {
    hide Visible;
  }

  lemma EntriesSameTypes(fs: seq<ObjectFilter>, o: Obj, cat: Catalog, other: Catalog)
    requires cat.types == other.types
    ensures EntriesAsked(fs, o, cat) == EntriesAsked(fs, o, other)
  {
    hide Restricts, FilterMatches;
    forall f
      ensures FilterMatches(f, o, cat) == FilterMatches(f, o, other)
    {
      SameTypes(f, o, cat, other);
    }
  }

  /** Filter entries look at the resource types of the catalog only. */
  lemma SameTypes(f: ObjectFilter, o: Obj, cat: Catalog, other: Catalog)
    requires cat.types == other.types
    ensures FilterMatches(f, o, cat) == FilterMatches(f, o, other)
  {
    hide ConditionMatches, ExpressionMatches;
    assert forall c :: Categorised(c, o, cat) == Categorised(c, o, other);
    assert forall k :: KindNamed(k, o, cat) == KindNamed(k, o, other);
  }

  /** For a query without dots in its label keys, its WHERE is true of exactly the objects it asks for. */
  lemma PlainRootMeaning(q: QuerySpec, o: Obj, cat: Catalog)
    requires PlainRootKeys(q)
    ensures Accepts(RootClauses(q), o, cat) <==> RootMatches(q, o, cat)
  {
    hide RootClauses, Accepts, EntriesAsked, PlainKeys;
    RootMeaningParts(q, o, cat);
    assert ClusterAsked(q, o, cat) <==> ClusterMatches(q, o, cat);
    PlainEntries(q.filters, o, cat);
  }

  lemma PlainEntries(fs: seq<ObjectFilter>, o: Obj, cat: Catalog)
    requires forall f :: f in fs ==> PlainKeys(f)
    ensures EntriesAsked(fs, VisibleObj(o), cat) == EntriesAsked(fs, o, cat)
  {
    hide Restricts, FilterMatches, PlainKeys, VisibleObj;
    forall f | f in fs
      ensures FilterMatches(f, VisibleObj(o), cat) == FilterMatches(f, o, cat)
    {
      PlainKeysSuffice(f, o, cat);
    }
  }

  ghost predicate ClusterAsked(q: QuerySpec, o: Obj, cat: Catalog) {
    && (q.clusterName != "" ==> o.cluster == q.clusterName)
    && (forall k :: k in q.clusterLabels ==>
          o.cluster in cat.clusters && k in Visible(cat.clusters[o.cluster])
            && Visible(cat.clusters[o.cluster])[k] == q.clusterLabels[k])
  }

  lemma RootMeaningParts(q: QuerySpec, o: Obj, cat: Catalog)
    ensures Accepts(RootClauses(q), o, cat) <==> ClusterAsked(q, o, cat) && EntriesAsked(q.filters, VisibleObj(o), cat)
  {
    hide FilterMatches, Restricts, EntryGroups, Visible, VisibleObj;
    var a := TextClause(ClusterColumn, q.clusterName);
    var b := ClusterLabelClauses(q.clusterLabels, Sorted(q.clusterLabels.Keys));
    var groups := EntryGroups(q.filters);
    AcceptsConcat(a, b, o, cat);
    AcceptsConcat(a + b, EntryClauses(q.filters), o, cat);
    TextMeaning(ClusterColumn, q.clusterName, o, cat);
    ClusterLabelsMeaning(q.clusterLabels, Sorted(q.clusterLabels.Keys), o, cat);
    EntryGroupsMeaning(q.filters, o, cat);
    AcceptsOptional(groups != [], AnyOf(groups), o, cat);
    assert Eval(AnyOf(groups), o, cat) == EvalAny(groups, o, cat);
  }
}
