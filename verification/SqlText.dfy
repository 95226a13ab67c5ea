/** The SQLite text of a query and its argument list: the i-th placeholder is the one that the
    i-th argument was produced for. */
module SqlText {
  import opened Options
  import opened Text
  import opened Spec
  import opened Relations
  import opened Filters
  import opened Projections
  import opened Plans
  import opened Arguments
  import opened Generator
  import opened Paging
  import opened Pages

  /** A table alias. */
  datatype Name = RowName(n: nat) | ObjName | CurrName | NextName | CteName(n: nat)

  /** A piece of SQL text: a fixed fragment, an alias, a number, a key from the query copied into
      the text, or a `?` together with the argument it is written for. */
  datatype Tok = Sql(text: string) | Alias(name: Name) | Number(n: int) | Key(text: string) | Mark(arg: Arg)

  /** The arguments that the placeholders of a text are written for. */
  function Holes(ts: seq<Tok>): seq<Arg> {
    if ts == [] then [] else (if ts[0].Mark? then [ts[0].arg] else []) + Holes(ts[1..])
  }

  lemma HolesCons(t: Tok, ts: seq<Tok>)
    ensures Holes([t] + ts) == (if t.Mark? then [t.arg] else []) + Holes(ts)
  {
    assert ([t] + ts)[1..] == ts;
  }

  lemma {:induction false} HolesConcat(a: seq<Tok>, b: seq<Tok>)
    ensures Holes(a + b) == Holes(a) + Holes(b)
  {
    if a == [] {
      assert a + b == b;
    } else {
      hide Holes;
      var t, tail := a[0], a[1..];
      assert a == [t] + tail && a + b == [t] + (tail + b);
      HolesCons(t, tail + b);
      HolesCons(t, tail);
      HolesConcat(tail, b);
      Regrouped(if t.Mark? then [t.arg] else [], Holes(tail), Holes(b));
    }
  }

  ghost predicate Closed(ts: seq<Tok>) {
    forall i :: 0 <= i < |ts| ==> !ts[i].Mark?
  }

  ghost predicate Keyless(ts: seq<Tok>) {
    forall i :: 0 <= i < |ts| ==> !ts[i].Key?
  }

  lemma {:induction false} ClosedHoles(ts: seq<Tok>)
    requires Closed(ts)
    ensures Holes(ts) == []
  {
    if ts != [] {
      ClosedHoles(ts[1..]);
    }
  }

  /** Text around a middle part. */
  lemma Around(before: seq<Tok>, ts: seq<Tok>, after: seq<Tok>)
    requires Closed(before) && Closed(after)
    ensures Holes(before + ts + after) == Holes(ts)
  {
    hide Holes;
    ClosedHoles(before);
    ClosedHoles(after);
    HolesConcat(before + ts, after);
    HolesConcat(before, ts);
    NothingAdded(Holes(ts));
  }

  // ----- lists -----

  function JoinToks(parts: seq<seq<Tok>>, separator: string): seq<Tok> {
    if parts == [] then []
    else if |parts| == 1 then parts[0]
    else parts[0] + [Sql(separator)] + JoinToks(parts[1..], separator)
  }

  ghost predicate AllClosed(parts: seq<seq<Tok>>) {
    forall i :: 0 <= i < |parts| ==> Closed(parts[i])
  }

  lemma {:induction false} JoinClosedParts(parts: seq<seq<Tok>>, separator: string)
    requires AllClosed(parts)
    ensures Closed(JoinToks(parts, separator))
  {
    if parts != [] {
      JoinClosedParts(parts[1..], separator);
    }
  }

  function AllHoles(parts: seq<seq<Tok>>): seq<Arg> {
    if parts == [] then [] else Holes(parts[0]) + AllHoles(parts[1..])
  }

  lemma {:induction false} JoinHoles(parts: seq<seq<Tok>>, separator: string)
    ensures Holes(JoinToks(parts, separator)) == AllHoles(parts)
  {
    if |parts| == 1 {
      NothingAdded(Holes(parts[0]));
    } else if |parts| > 1 {
      JoinHoles(parts[1..], separator);
      SeparatedHoles(parts[0], separator, JoinToks(parts[1..], separator));
    }
  }

  lemma SeparatedHoles(a: seq<Tok>, separator: string, b: seq<Tok>)
    ensures Holes(a + [Sql(separator)] + b) == Holes(a) + Holes(b)
  {
    HolesConcat(a + [Sql(separator)], b);
    HolesConcat(a, [Sql(separator)]);
    assert Holes([Sql(separator)]) == [];
    NothingAdded(Holes(a));
  }

  /** Fragments with aliases between them. */
  function Format(fragments: seq<string>, names: seq<Name>): (ts: seq<Tok>)
    ensures Closed(ts) && Keyless(ts)
  {
    if fragments == [] then []
    else if names == [] then [Sql(fragments[0])] + Format(fragments[1..], [])
    else [Sql(fragments[0]), Alias(names[0])] + Format(fragments[1..], names[1..])
  }

  // ----- clauses -----

  function ScalarText(x: Scalar, a: Name): seq<Tok> {
    match x
    case IdColumn => [Alias(a), Sql(".id")]
    case ClusterColumn => [Alias(a), Sql(".cluster")]
    case GroupColumn => [Alias(a), Sql(".api_group")]
    case KindColumn => [Alias(a), Sql(".kind")]
    case NamespaceColumn => [Alias(a), Sql(".namespace")]
    case NameColumn => [Alias(a), Sql(".name")]
    case LabelAt(path) => [Sql("json_extract("), Alias(a), Sql(".labels, '$."), Key(path), Sql("')")]
    case ClusterLabelAt(path) => [Sql("json_extract(cl.labels, '$."), Key(path), Sql("')")]
  }

  function Marks(args: seq<Arg>): seq<seq<Tok>> {
    if args == [] then [] else [[Mark(args[0])]] + Marks(args[1..])
  }

  /** `(?, ?, ...)` */
  function MarkList(args: seq<Arg>): seq<Tok> {
    [Sql("(")] + JoinToks(Marks(args), ", ") + [Sql(")")]
  }

  function TestTexts(tests: seq<ConditionTest>): seq<seq<Tok>> {
    if tests == [] then []
    else
      [[Sql(match tests[0].field
            case TypeField => "json_extract(je.value, '$.type') = "
            case StatusField => "json_extract(je.value, '$.status') = "
            case ReasonField => "json_extract(je.value, '$.reason') = "), Mark(TextArg(tests[0].value))]]
      + TestTexts(tests[1..])
  }

  /** The resource types of an object's kind. */
  function TypesOf(a: Name): seq<Tok> {
    Format(["EXISTS (SELECT 1 FROM resource_types rt WHERE rt.cluster = ", ".cluster AND rt.api_group = ",
            ".api_group AND rt.kind = ", ".kind AND "], [a, a, a])
  }

  /** Fragments with placeholders between them. */
  function Slots(fragments: seq<string>, args: seq<Arg>): seq<Tok> {
    if fragments == [] then []
    else if args == [] then [Sql(fragments[0])] + Slots(fragments[1..], [])
    else [Sql(fragments[0])] + ([Mark(args[0])] + Slots(fragments[1..], args[1..]))
  }

  lemma SlotHoles(fragment: string, arg: Arg, rest: seq<Tok>)
    ensures Holes([Sql(fragment)] + ([Mark(arg)] + rest)) == [arg] + Holes(rest)
    ensures Holes([Sql(fragment)] + rest) == Holes(rest)
  {
    hide Holes;
    HolesCons(Sql(fragment), [Mark(arg)] + rest);
    HolesCons(Mark(arg), rest);
    HolesCons(Sql(fragment), rest);
  }

  lemma {:induction false} SlotsHoles(fragments: seq<string>, args: seq<Arg>)
    requires |args| <= |fragments|
    ensures Holes(Slots(fragments, args)) == args
  {
    if fragments != [] {
      hide Holes;
      if args == [] {
        SlotsHoles(fragments[1..], []);
        SlotHoles(fragments[0], TimeArg(0), Slots(fragments[1..], []));
      } else {
        SlotsHoles(fragments[1..], args[1..]);
        SlotHoles(fragments[0], args[0], Slots(fragments[1..], args[1..]));
      }
    }
  }

  const KIND_TESTS := ["(lower(rt.kind) = lower(", ") OR lower(rt.resource) = lower(",
                       ") OR lower(rt.singular) = lower(",
                       ") OR EXISTS (SELECT 1 FROM json_each(rt.short_names) WHERE json_each.value = lower(", "))))"]

  function KindText(kind: string, a: Name): seq<Tok> {
    TypesOf(a) + Slots(KIND_TESTS, KindArgs(kind))
  }

  function CategoryText(category: string, a: Name): seq<Tok> {
    TypesOf(a) + Slots(["EXISTS (SELECT 1 FROM json_each(rt.categories) WHERE json_each.value = ", "))"],
                       [TextArg(category)])
  }

  function ClauseText(c: Clause, a: Name): seq<Tok> {
    match c
    case Equals(x, value) => ScalarText(x, a) + [Sql(" = "), Mark(TextArg(value))]
    case IsNull(x) => ScalarText(x, a) + [Sql(" IS NULL")]
    case IsNotNull(x) => ScalarText(x, a) + [Sql(" IS NOT NULL")]
    case InList(x, values) => ScalarText(x, a) + [Sql(" IN ")] + MarkList(TextArgs(values))
    case NotInList(x, values) => ScalarText(x, a) + [Sql(" NOT IN ")] + MarkList(TextArgs(values))
    case CreatedAfter(t) => [Alias(a), Sql(".creation_ts > "), Mark(TimeArg(t))]
    case CreatedBefore(t) => [Alias(a), Sql(".creation_ts < "), Mark(TimeArg(t))]
    case KindResolves(kind) => KindText(kind, a)
    case HasCategory(category) => CategoryText(category, a)
    case HasCondition(tests) =>
      [Sql("EXISTS (SELECT 1 FROM json_each("), Alias(a), Sql(".conditions) je WHERE ")]
        + JoinToks(TestTexts(tests), " AND ") + [Sql(")")]
    case AllOf(cs) => [Sql("(")] + JoinToks(ClauseTexts(cs, a), " AND ") + [Sql(")")]
    case AnyOf(cs) => [Sql("(")] + JoinToks(ClauseTexts(cs, a), " OR ") + [Sql(")")]
  }

  function ClauseTexts(cs: seq<Clause>, a: Name): seq<seq<Tok>> {
    if cs == [] then [] else [ClauseText(cs[0], a)] + ClauseTexts(cs[1..], a)
  }

  lemma {:induction false} MarksHoles(args: seq<Arg>)
    ensures AllHoles(Marks(args)) == args
  {
    if args != [] {
      MarksHoles(args[1..]);
      assert Holes([Mark(args[0])]) == [args[0]];
    }
  }

  lemma MarkListHoles(args: seq<Arg>)
    ensures Holes(MarkList(args)) == args
  {
    JoinHoles(Marks(args), ", ");
    MarksHoles(args);
    Around([Sql("(")], JoinToks(Marks(args), ", "), [Sql(")")]);
  }

  lemma {:induction false} TestHoles(tests: seq<ConditionTest>)
    ensures AllHoles(TestTexts(tests)) == TestArgs(tests)
  {
    if tests != [] {
      TestHoles(tests[1..]);
      var t := TestTexts(tests)[0];
      assert t == [t[0]] + [t[1]];
      HolesCons(t[0], [t[1]]);
      assert Holes([t[1]]) == [TextArg(tests[0].value)];
    }
  }

  lemma OneMark(before: seq<Tok>, arg: Arg, after: seq<Tok>)
    requires Closed(before) && Closed(after)
    ensures Holes(before + [Mark(arg)] + after) == [arg]
  {
    Around(before, [Mark(arg)], after);
  }

  lemma AfterClosed(before: seq<Tok>, ts: seq<Tok>)
    requires Closed(before)
    ensures Holes(before + ts) == Holes(ts)
  {
    ClosedHoles(before);
    HolesConcat(before, ts);
  }

  lemma TypesClosed(a: Name)
    ensures Closed(TypesOf(a))
  {
  }

  lemma LookupHoles(kind: string, category: string, a: Name)
    ensures Holes(KindText(kind, a)) == KindArgs(kind)
    ensures Holes(CategoryText(category, a)) == [TextArg(category)]
  {
    hide TypesOf, Slots, Holes;
    assert Closed(TypesOf(a)) by { TypesClosed(a); }
    SlotsHoles(KIND_TESTS, KindArgs(kind));
    AfterClosed(TypesOf(a), Slots(KIND_TESTS, KindArgs(kind)));
    var test := ["EXISTS (SELECT 1 FROM json_each(rt.categories) WHERE json_each.value = ", "))"];
    SlotsHoles(test, [TextArg(category)]);
    AfterClosed(TypesOf(a), Slots(test, [TextArg(category)]));
  }

  lemma ScalarClosed(x: Scalar, a: Name)
    ensures Closed(ScalarText(x, a))
  {
  }

  lemma ListHoles(x: Scalar, a: Name, word: string, values: seq<string>)
    ensures Holes(ScalarText(x, a) + [Sql(word)] + MarkList(TextArgs(values))) == TextArgs(values)
  {
    hide ScalarText, MarkList, Holes, TextArgs;
    ScalarClosed(x, a);
    MarkListHoles(TextArgs(values));
    AfterClosed(ScalarText(x, a) + [Sql(word)], MarkList(TextArgs(values)));
  }

  lemma AtomHoles(c: Clause, a: Name)
    requires !c.AllOf? && !c.AnyOf?
    ensures Holes(ClauseText(c, a)) == ClauseArgs(c)
  {
    hide Holes, ScalarText, MarkList, KindText, CategoryText, TextArgs, TestArgs, TestTexts, JoinToks, KindArgs;
    match c
    case Equals(x, value) =>
      ScalarClosed(x, a);
      EndMark(ScalarText(x, a), " = ", TextArg(value));
    case IsNull(x) =>
      ScalarClosed(x, a);
      ClosedHoles(ClauseText(c, a));
    case IsNotNull(x) =>
      ScalarClosed(x, a);
      ClosedHoles(ClauseText(c, a));
    case InList(x, values) => ListHoles(x, a, " IN ", values);
    case NotInList(x, values) => ListHoles(x, a, " NOT IN ", values);
    case CreatedAfter(t) =>
      EndMark([Alias(a)], ".creation_ts > ", TimeArg(t));
      assert ClauseText(c, a) == [Alias(a)] + [Sql(".creation_ts > "), Mark(TimeArg(t))];
    case CreatedBefore(t) =>
      EndMark([Alias(a)], ".creation_ts < ", TimeArg(t));
      assert ClauseText(c, a) == [Alias(a)] + [Sql(".creation_ts < "), Mark(TimeArg(t))];
    case KindResolves(kind) => LookupHoles(kind, "", a);
    case HasCategory(category) => LookupHoles("", category, a);
    case HasCondition(tests) =>
      TestHoles(tests);
      JoinHoles(TestTexts(tests), " AND ");
      Around([Sql("EXISTS (SELECT 1 FROM json_each("), Alias(a), Sql(".conditions) je WHERE ")],
             JoinToks(TestTexts(tests), " AND "), [Sql(")")]);
  }

  lemma EndMark(before: seq<Tok>, word: string, arg: Arg)
    requires Closed(before)
    ensures Holes(before + [Sql(word), Mark(arg)]) == [arg]
  {
    OneMark(before + [Sql(word)], arg, []);
    assert before + [Sql(word)] + [Mark(arg)] + [] == before + [Sql(word), Mark(arg)];
  }

  /** The placeholders of a clause are written for its own arguments, in order. */
  lemma {:induction false} ClauseHoles(c: Clause, a: Name)
    ensures Holes(ClauseText(c, a)) == ClauseArgs(c)
  {
    hide Holes, JoinToks;
    match c
    case AllOf(cs) =>
      ClausesHoles(cs, a);
      JoinHoles(ClauseTexts(cs, a), " AND ");
      Around([Sql("(")], JoinToks(ClauseTexts(cs, a), " AND "), [Sql(")")]);
    case AnyOf(cs) =>
      ClausesHoles(cs, a);
      JoinHoles(ClauseTexts(cs, a), " OR ");
      Around([Sql("(")], JoinToks(ClauseTexts(cs, a), " OR "), [Sql(")")]);
    case _ => AtomHoles(c, a);
  }

  lemma {:induction false} ClausesHoles(cs: seq<Clause>, a: Name)
    ensures AllHoles(ClauseTexts(cs, a)) == ClausesArgs(cs)
  {
    if cs != [] {
      hide ClauseText, ClauseArgs, Holes;
      ClauseHoles(cs[0], a);
      ClausesHoles(cs[1..], a);
      assert ClauseTexts(cs, a)[1..] == ClauseTexts(cs[1..], a);
    }
  }

  function WhereText(parts: seq<seq<Tok>>): seq<Tok> {
    if parts == [] then [] else [Sql(" WHERE ")] + JoinToks(parts, " AND ")
  }

  lemma WhereHoles(parts: seq<seq<Tok>>)
    ensures Holes(WhereText(parts)) == AllHoles(parts)
  {
    if parts != [] {
      JoinHoles(parts, " AND ");
      AfterClosed([Sql(" WHERE ")], JoinToks(parts, " AND "));
    }
  }

  // ----- columns, paths and projections -----

  const COLUMNS := ["id", "uid", "cluster", "api_group", "api_version", "kind", "resource", "namespace", "name",
                    "labels",
                    "annotations", "owner_refs", "conditions", "creation_ts", "resource_version"]

  function ColumnsText(columns: seq<string>, a: Name): seq<Tok> {
    if columns == [] then [] else [Alias(a), Sql("."), Sql(columns[0]), Sql(", ")] + ColumnsText(columns[1..], a)
  }

  lemma {:induction false} ColumnsClosed(columns: seq<string>, a: Name)
    ensures Closed(ColumnsText(columns, a))
  {
    if columns != [] {
      ColumnsClosed(columns[1..], a);
    }
  }

  function SegmentText(a: Name): seq<Tok> {
    [Sql("'.' || lower("), Alias(a), Sql(".kind) || '.' || "), Alias(a), Sql(".namespace || '/' || "), Alias(a),
     Sql(".name")]
  }

  function PathToks(path: seq<nat>): seq<Tok> {
    if path == [] then []
    else if |path| == 1 then SegmentText(RowName(path[0]))
    else PathToks(path[..|path| - 1]) + [Sql(" || ")] + SegmentText(RowName(path[|path| - 1]))
  }

  lemma {:induction false} PathClosed(path: seq<nat>)
    ensures Closed(PathToks(path))
  {
    if |path| > 1 {
      PathClosed(path[..|path| - 1]);
    }
  }

  /** The projection expression; the members of an object in ascending order of key. */
  ghost function ExprText(e: Expr, a: Name): seq<Tok>
    decreases e
  {
    match e
    case Null => [Sql("NULL")]
    case JsonExtract(path) => [Sql("json_extract("), Alias(a), Sql(".object, '$."), Key(path), Sql("')")]
    case Arrows(_) => []
    case BuildObject(m) => [Sql("json_object(")] + MembersText(e, Sorted(m.Keys), a) + [Sql(")")]
  }

  ghost function MembersText(e: Expr, keys: seq<string>, a: Name): seq<Tok>
    requires e.BuildObject? && forall k :: k in keys ==> k in e.fields
    decreases e, |keys|
  {
    if keys == [] then []
    else
      [Sql("'"), Key(keys[0]), Sql("', ")] + ExprText(e.fields[keys[0]], a)
      + (if |keys| == 1 then [] else [Sql(", ")]) + MembersText(e, keys[1..], a)
  }

  lemma {:induction false} ExprClosed(e: Expr, a: Name)
    ensures Closed(ExprText(e, a))
    decreases e
  {
    if e.BuildObject? {
      MembersClosed(e, Sorted(e.fields.Keys), a);
    }
  }

  lemma {:induction false} MembersClosed(e: Expr, keys: seq<string>, a: Name)
    requires e.BuildObject? && forall k :: k in keys ==> k in e.fields
    ensures Closed(MembersText(e, keys, a))
    decreases e, |keys|
  {
    if keys != [] {
      hide ExprText;
      ExprClosed(e.fields[keys[0]], a);
      MembersClosed(e, keys[1..], a);
    }
  }

  ghost function ProjectionText(p: Option<Projection>, a: Name): seq<Tok> {
    if p.None? then [Alias(a), Sql(".object")] else ExprText(BuildSqlite(p.value, ""), a)
  }

  ghost function SelectCols(a: Name, p: Option<Projection>, path: seq<Tok>): seq<Tok> {
    ColumnsText(COLUMNS, a) + ProjectionText(p, a) + [Sql(" AS projected_object, ")] + path + [Sql(" AS path")]
  }

  lemma SelectColsClosed(a: Name, p: Option<Projection>, path: seq<Tok>)
    requires Closed(path)
    ensures Closed(SelectCols(a, p, path))
  {
    hide ColumnsText, ExprText;
    ColumnsClosed(COLUMNS, a);
    if p.Some? {
      ExprClosed(BuildSqlite(p.value, ""), a);
    }
  }

  // ----- joins -----

  function JoinText(j: JoinKind, p: Name, c: Name): seq<Tok> {
    match j
    case Descendants =>
      Format(["JOIN objects ", " ON ", ".cluster = ", ".cluster AND EXISTS (SELECT 1 FROM json_each(",
              ".owner_refs) oref WHERE json_extract(oref.value, '$.uid') = ", ".uid)"], [c, c, p, c, p])
    case Owners =>
      Format(["JOIN objects ", " ON ", ".cluster = ", ".cluster AND ",
              ".uid IN (SELECT json_extract(oref.value, '$.uid') FROM json_each(", ".owner_refs) oref)"],
                  [c, c, p, c, p])
    case References(_) =>
      Format(["JOIN objects ", " ON ", ".cluster = ", ".cluster AND ", ".namespace = ", ".namespace AND ",
              ".name IN (names in the reference paths of ", ".object)"], [c, c, p, c, p, c, p])
    case Selects => SelectorText(p, c, p, c)
    case SelectedBy => SelectorText(p, c, c, p)
    case Events =>
      Format(["JOIN objects ", " ON ", ".cluster = ", ".cluster AND ", ".kind = 'Event' AND json_extract(",
              ".object, '$.involvedObject.uid') = ", ".uid"], [c, c, p, c, c, p])
    case Linked =>
      Format(["JOIN json_each(json_extract(", ".annotations, '$.\"kuery.io/relates-to\"')) ref ON 1=1 JOIN objects ",
              " ON ",
              ".cluster = COALESCE(json_extract(ref.value, '$.cluster'), ", ".cluster) AND ",
              ".api_group = COALESCE(json_extract(ref.value, '$.group'), '') AND ",
              ".kind = json_extract(ref.value, '$.kind') AND ",
              ".namespace = COALESCE(json_extract(ref.value, '$.namespace'), '') AND ",
              ".name = json_extract(ref.value, '$.name')"], [p, c, c, p, c, c, c, c])
    case Grouped =>
      Format(["JOIN objects ", " ON json_extract(", ".labels, '$.\"kuery.io/group\"') = json_extract(",
              ".labels, '$.\"kuery.io/group\"') AND ", ".id != ", ".id AND json_extract(",
              ".labels, '$.\"kuery.io/group\"') IS NOT NULL"], [c, c, p, c, p, p])
    case Never => Format(["JOIN objects ", " ON 1=0"], [c])
  }

  /** A selector held by `holder` must accept the labels of `target`. */
  function SelectorText(p: Name, c: Name, holder: Name, target: Name): seq<Tok> {
    Format(["JOIN objects ", " ON ", ".cluster = ", ".cluster AND ", ".namespace = ", ".namespace AND json_extract(",
            ".object, '$.spec.selector.matchLabels') IS NOT NULL AND ", ".id != ",
            ".id AND NOT EXISTS (SELECT 1 FROM json_each(json_extract(",
            ".object, '$.spec.selector.matchLabels')) sel WHERE json_extract(",
                ".labels, '$.' || sel.key) IS NULL OR json_extract(",
            ".labels, '$.' || sel.key) != sel.value)"], [c, c, p, c, p, holder, c, p, holder, target, target])
  }

  function FollowText(base: Base, p: Name, c: Name): seq<Tok> {
    match base
    case OwnedBy =>
      Format(["EXISTS (SELECT 1 FROM json_each(", ".owner_refs) oref WHERE json_extract(oref.value, '$.uid') = ",
              ".uid)"], [c, p])
    case OwnerOf =>
      Format(["", ".uid IN (SELECT json_extract(oref.value, '$.uid') FROM json_each(", ".owner_refs) oref)"], [c, p])
    case LinkedFrom =>
      Format(["EXISTS (SELECT 1 FROM json_each(json_extract(", ".annotations, '$.\"kuery.io/relates-to\"')) ref WHERE ",
              ".cluster = COALESCE(json_extract(ref.value, '$.cluster'), ", ".cluster) AND ",
              ".api_group = COALESCE(json_extract(ref.value, '$.group'), '') AND ",
              ".kind = json_extract(ref.value, '$.kind') AND ",
              ".namespace = COALESCE(json_extract(ref.value, '$.namespace'), '') AND ",
              ".name = json_extract(ref.value, '$.name'))"], [p, c, p, c, c, c, c])
  }

  function StepsText(steps: seq<Step>): seq<Tok> {
    if steps == [] then []
    else
      var last := steps[|steps| - 1];
      StepsText(steps[..|steps| - 1]) + [Sql(" ")] + JoinText(last.join, RowName(last.parent), RowName(last.child))
  }

  lemma {:induction false} StepsClosed(steps: seq<Step>)
    ensures Closed(StepsText(steps))
  {
    if steps != [] {
      hide JoinText;
      var last := steps[|steps| - 1];
      StepsClosed(steps[..|steps| - 1]);
      JoinClosed(last.join, RowName(last.parent), RowName(last.child));
    }
  }

  lemma JoinClosed(j: JoinKind, p: Name, c: Name)
    ensures Closed(JoinText(j, p, c))
  {
  }

  lemma FollowClosed(base: Base, p: Name, c: Name)
    ensures Closed(FollowText(base, p, c))
  {
  }

  // ----- branches -----

  ghost function Wrapped(body: seq<Tok>, limit: int): seq<Tok> {
    if limit > 0 then [Sql("SELECT * FROM (")] + body + [Sql(" LIMIT "), Number(limit), Sql(")")] else body
  }

  lemma WrappedHoles(body: seq<Tok>, limit: int)
    ensures Holes(Wrapped(body, limit)) == Holes(body)
  {
    if limit > 0 {
      Around([Sql("SELECT * FROM (")], body, [Sql(" LIMIT "), Number(limit), Sql(")")]);
    }
  }

  function LevelText(level: nat, rel: string): seq<Tok> {
    [Sql(", "), Number(level), Sql(" AS level, '"), Key(rel), Sql("' AS relation_name")]
  }

  /** Everything of a branch before its WHERE. */
  ghost function HeadText(s: Select): seq<Tok> {
    match s
    case Joined(steps, child, path, _, projection, _, level, rel) =>
      [Sql("SELECT ")] + SelectCols(RowName(child), projection, PathToks(path)) + LevelText(level, rel)
      + [Sql(" FROM root_objects "), Alias(RowName(0))] + StepsText(steps)
    case Walked(cte, _, _) =>
      [Sql("SELECT ")] + ColumnsText(COLUMNS, CteName(cte.number))
      + Format(["", ".projected_object, ", ".path, ", ".level, ", ".relation_name FROM ", ""],
               [CteName(cte.number), CteName(cte.number), CteName(cte.number), CteName(cte.number),
                CteName(cte.number)])
    case Attached(cte, join, _, projection, level, rel) =>
      var child := RowName(cte.number + 1);
      [Sql("SELECT ")]
        + SelectCols(child, projection, [Alias(CteName(cte.number)), Sql(".path || ")] + SegmentText(child))
      + LevelText(level, rel) + [Sql(" FROM "), Alias(CteName(cte.number)), Sql(" ")]
        + JoinText(join, CteName(cte.number), child)
  }

  /** The alias that a branch's filters are written for. */
  function FilterAlias(s: Select): Name {
    match s
    case Joined(_, child, _, _, _, _, _, _) => RowName(child)
    case Walked(_, _, _) => CurrName
    case Attached(cte, _, _, _, _, _) => RowName(cte.number + 1)
  }

  function FilterClausesOf(s: Select): seq<Clause> {
    match s
    case Joined(_, _, _, where, _, _, _, _) => where
    case Walked(_, whereInner, _) => whereInner
    case Attached(_, _, where, _, _, _) => where
  }

  function LimitOf(s: Select): int {
    match s
    case Joined(_, _, _, _, _, limit, _, _) => limit
    case Walked(_, _, limit) => limit
    case Attached(_, _, _, _, _, _) => 0
  }

  ghost function SelectText(s: Select): seq<Tok> {
    Wrapped(HeadText(s) + WhereText(ClauseTexts(FilterClausesOf(s), FilterAlias(s))), LimitOf(s))
  }

  lemma HeadClosed(s: Select)
    ensures Closed(HeadText(s))
  {
    hide SelectCols, ColumnsText, StepsText, JoinText, PathToks;
    match s
    case Joined(steps, child, path, _, projection, _, level, rel) =>
      PathClosed(path);
      SelectColsClosed(RowName(child), projection, PathToks(path));
      StepsClosed(steps);
    case Walked(cte, _, _) =>
      ColumnsClosed(COLUMNS, CteName(cte.number));
    case Attached(cte, join, _, projection, level, rel) =>
      var child := RowName(cte.number + 1);
      SelectColsClosed(child, projection, [Alias(CteName(cte.number)), Sql(".path || ")] + SegmentText(child));
      JoinClosed(join, CteName(cte.number), child);
  }

  lemma SelectHoles(s: Select)
    ensures Holes(SelectText(s)) == SelectArgs(s)
  {
    hide HeadText, WhereText, ClauseTexts, Wrapped, Holes, ClausesArgs;
    var parts := ClauseTexts(FilterClausesOf(s), FilterAlias(s));
    HeadClosed(s);
    ClausesHoles(FilterClausesOf(s), FilterAlias(s));
    WhereHoles(parts);
    AfterClosed(HeadText(s), WhereText(parts));
    WrappedHoles(HeadText(s) + WhereText(parts), LimitOf(s));
  }

  ghost function UnionText(ss: seq<Select>): seq<Tok> {
    if ss == [] then [] else [Sql(" UNION ALL ")] + SelectText(ss[0]) + UnionText(ss[1..])
  }

  lemma {:induction false} UnionHoles(ss: seq<Select>)
    ensures Holes(UnionText(ss)) == SelectsArgs(ss)
  {
    if ss != [] {
      hide SelectText, Holes, SelectArgs;
      SelectHoles(ss[0]);
      UnionHoles(ss[1..]);
      AfterClosed([Sql(" UNION ALL ")], SelectText(ss[0]));
      HolesConcat([Sql(" UNION ALL ")] + SelectText(ss[0]), UnionText(ss[1..]));
    }
  }

  // ----- recursive CTEs -----

  ghost function CteCols(a: Name, cte: Cte, path: seq<Tok>, depth: seq<Tok>, visited: seq<Tok>): seq<Tok> {
    ColumnsText(COLUMNS + ["object"], a) + ProjectionText(cte.projection, a) + [Sql(" AS projected_object, ")] + path
    + [Sql(" AS path, ")] + depth + [Sql(", ")] + visited + [Sql(" AS visited")] + LevelText(cte.level, cte.rel)
  }

  lemma CteColsClosed(a: Name, cte: Cte, path: seq<Tok>, depth: seq<Tok>, visited: seq<Tok>)
    requires Closed(path) && Closed(depth) && Closed(visited)
    ensures Closed(CteCols(a, cte, path, depth, visited))
  {
    hide ColumnsText, ExprText;
    ColumnsClosed(COLUMNS + ["object"], a);
    if cte.projection.Some? {
      ExprClosed(BuildSqlite(cte.projection.value, ""), a);
    }
  }

  ghost function BaseText(cte: Cte): seq<Tok> {
    var parent := RowName(cte.parent);
    [Sql("SELECT ")]
    + CteCols(CurrName, cte, PathToks(cte.path) + [Sql(" || ")] + SegmentText(CurrName), [Sql("1 AS depth")],
              [Sql("',' || "), Alias(CurrName), Sql(".uid || ','")])
    + [Sql(" FROM root_objects "), Alias(RowName(0))] + StepsText(cte.steps)
    + [Sql(" JOIN objects "), Alias(CurrName), Sql(" ON ")] + FollowText(cte.base, parent, CurrName)
    + [Sql(" AND "), Alias(CurrName), Sql(".cluster = "), Alias(parent), Sql(".cluster")]
  }

  ghost function StepText(cte: Cte): seq<Tok> {
    var me := CteName(cte.number);
    [Sql("SELECT ")]
    + CteCols(NextName, cte, [Alias(me), Sql(".path || ")] + SegmentText(NextName), [Alias(me), Sql(".depth + 1")],
              [Alias(me), Sql(".visited || "), Alias(NextName), Sql(".uid || ','")])
    + [Sql(" FROM objects "), Alias(NextName), Sql(" JOIN "), Alias(me), Sql(" ON ")]
      + FollowText(cte.base, me, NextName)
    + [Sql(" AND "), Alias(NextName), Sql(".cluster = "), Alias(me), Sql(".cluster WHERE "), Alias(me),
       Sql(".visited NOT LIKE '%,' || "), Alias(NextName), Sql(".uid || ',%' AND "), Alias(me), Sql(".depth < "),
           Number(cte.maxDepth)]
  }

  ghost function CteText(cte: Cte): seq<Tok> {
    [Alias(CteName(cte.number)), Sql(" AS (")] + BaseText(cte) + [Sql(" UNION ALL ")] + StepText(cte) + [Sql(")")]
  }

  lemma BaseClosed(cte: Cte)
    ensures Closed(BaseText(cte))
  {
    hide CteCols, StepsText, FollowText, PathToks;
    PathClosed(cte.path);
    CteColsClosed(CurrName, cte, PathToks(cte.path) + [Sql(" || ")] + SegmentText(CurrName), [Sql("1 AS depth")],
                  [Sql("',' || "), Alias(CurrName), Sql(".uid || ','")]);
    StepsClosed(cte.steps);
    FollowClosed(cte.base, RowName(cte.parent), CurrName);
  }

  lemma StepClosed(cte: Cte)
    ensures Closed(StepText(cte))
  {
    hide CteCols, FollowText;
    var me := CteName(cte.number);
    CteColsClosed(NextName, cte, [Alias(me), Sql(".path || ")] + SegmentText(NextName), [Alias(me), Sql(".depth + 1")],
                  [Alias(me), Sql(".visited || "), Alias(NextName), Sql(".uid || ','")]);
    FollowClosed(cte.base, me, NextName);
  }

  lemma CteClosed(cte: Cte)
    ensures Closed(CteText(cte))
  {
    hide BaseText, StepText;
    BaseClosed(cte);
    StepClosed(cte);
  }

  lemma ClosedTwo(a: seq<Tok>, b: seq<Tok>)
    requires Closed(a) && Closed(b)
    ensures Closed([Sql(", ")] + a + b)
  {
  }

  ghost function CtesText(ctes: seq<Cte>): seq<Tok> {
    if ctes == [] then [] else [Sql(", ")] + CteText(ctes[0]) + CtesText(ctes[1..])
  }

  lemma {:induction false} CtesClosed(ctes: seq<Cte>)
    ensures Closed(CtesText(ctes))
  {
    if ctes != [] {
      hide CteText, Closed;
      CteClosed(ctes[0]);
      CtesClosed(ctes[1..]);
      ClosedTwo(CteText(ctes[0]), CtesText(ctes[1..]));
    }
  }

  // ----- the root query -----

  function ColumnOf(field: string): string {
    match field
    case "apiGroup" => "api_group"
    case "creationTimestamp" => "creation_ts"
    case _ => field
  }

  function OrderParts(cols: seq<Column>, a: Name): seq<seq<Tok>> {
    if cols == [] then []
    else
      [[Alias(a), Sql("."), Sql(ColumnOf(cols[0].field)), Sql(if cols[0].descending then " DESC" else " ASC")]]
                                                                + OrderParts(cols[1..], a)
  }

  lemma {:induction false} OrderClosed(cols: seq<Column>, a: Name)
    ensures AllClosed(OrderParts(cols, a))
  {
    if cols != [] {
      OrderClosed(cols[1..], a);
    }
  }

  /** The key values of a token, in the order of the compared columns; a missing one is empty. */
  function CursorArgs(fields: seq<string>, values: map<string, string>): seq<Arg> {
    if fields == [] then []
    else [TextArg(if fields[0] in values then values[fields[0]] else "")] + CursorArgs(fields[1..], values)
  }

  function FieldParts(fields: seq<string>): seq<seq<Tok>> {
    if fields == [] then [] else [[Alias(ObjName), Sql("."), Sql(ColumnOf(fields[0]))]] + FieldParts(fields[1..])
  }

  lemma {:induction false} FieldsClosed(fields: seq<string>)
    ensures AllClosed(FieldParts(fields))
  {
    if fields != [] {
      FieldsClosed(fields[1..]);
    }
  }

  function FieldsText(fields: seq<string>): seq<Tok> {
    JoinToks(FieldParts(fields), ", ")
  }

  /** The cursor filter: the columns are compared with the values of the token. */
  function CursorTexts(q: QuerySpec): seq<seq<Tok>> {
    var cursor := CursorOf(q.page);
    if !cursor.Values? then []
    else
      [[Sql("(")] + FieldsText(CursorFields(q.order)) + [Sql(if CursorDescends(q.order) then ") < " else ") > ")]
       + MarkList(CursorArgs(CursorFields(q.order), cursor.values))]
  }

  function PageArgs(q: QuerySpec): seq<Arg> {
    var cursor := CursorOf(q.page);
    if cursor.Values? then CursorArgs(CursorFields(q.order), cursor.values) else []
  }

  lemma CursorHoles(q: QuerySpec)
    ensures AllHoles(CursorTexts(q)) == PageArgs(q)
  {
    var cursor := CursorOf(q.page);
    if cursor.Values? {
      hide FieldParts, JoinToks, MarkList, CursorArgs, Holes, CursorFields;
      var fields := CursorFields(q.order);
      var args := CursorArgs(fields, cursor.values);
      FieldsClosed(fields);
      JoinClosedParts(FieldParts(fields), ", ");
      assert Closed(FieldsText(fields)) by { assert FieldsText(fields) == JoinToks(FieldParts(fields), ", "); }
      MarkListHoles(args);
      var head := [Sql("(")] + FieldsText(fields) + [Sql(if CursorDescends(q.order) then ") < " else ") > ")];
      AfterClosed(head, MarkList(args));
      assert CursorTexts(q) == [head + MarkList(args)];
      NothingAdded(args);
    }
  }

  lemma {:induction false} AllHolesConcat(a: seq<seq<Tok>>, b: seq<seq<Tok>>)
    ensures AllHoles(a + b) == AllHoles(a) + AllHoles(b)
  {
    hide Holes;
    if a == [] {
      assert a + b == b;
    } else {
      AllHolesConcat(a[1..], b);
      assert (a + b)[1..] == a[1..] + b;
      Regrouped(Holes(a[0]), AllHoles(a[1..]), AllHoles(b));
    }
  }

  function FromText(q: QuerySpec, a: Name): seq<Tok> {
    [Sql(" FROM objects "), Alias(a)]
    + if q.clusterLabels == map[] then [] else [Sql(" JOIN clusters cl ON cl.name = "), Alias(a), Sql(".cluster")]
  }

  function TailText(q: QuerySpec, a: Name): seq<Tok> {
    [Sql(" ORDER BY ")] + JoinToks(OrderParts(OrderColumns(q.order), a), ", ") + [Sql(" LIMIT "), Number(q.limit)]
    + if Offset(q.page) > 0 then [Sql(" OFFSET "), Number(Offset(q.page))] else []
  }

  /** Selected columns, source, filters and page of the root objects. */
  function RootText(q: QuerySpec, where: seq<Clause>, cols: seq<Tok>, a: Name): seq<Tok> {
    [Sql("SELECT ")] + cols + FromText(q, a) + WhereText(ClauseTexts(where, a) + CursorTexts(q)) + TailText(q, a)
  }

  lemma EndsClosed(q: QuerySpec, a: Name)
    ensures Closed(FromText(q, a)) && Closed(TailText(q, a))
  {
    hide OrderParts, JoinToks, OrderColumns, Offset;
    OrderClosed(OrderColumns(q.order), a);
    JoinClosedParts(OrderParts(OrderColumns(q.order), a), ", ");
  }

  lemma RootHoles(q: QuerySpec, where: seq<Clause>, cols: seq<Tok>, a: Name)
    requires Closed(cols)
    ensures Holes(RootText(q, where, cols, a)) == ClausesArgs(where) + PageArgs(q)
  {
    hide Holes, WhereText, ClauseTexts, CursorTexts, ClausesArgs, PageArgs, FromText, TailText;
    EndsClosed(q, a);
    ClausesHoles(where, a);
    CursorHoles(q);
    AllHolesConcat(ClauseTexts(where, a), CursorTexts(q));
    WhereHoles(ClauseTexts(where, a) + CursorTexts(q));
    Around([Sql("SELECT ")] + cols + FromText(q, a), WhereText(ClauseTexts(where, a) + CursorTexts(q)), TailText(q, a));
  }

  // ----- whole queries -----

  /** A query without relations. */
  ghost function FlatText(q: QuerySpec, where: seq<Clause>): seq<Tok> {
    RootText(q, where,
             SelectCols(ObjName, ShapeProjection(q.objects), SegmentText(ObjName))
               + [Sql(", 0 AS level, '' AS relation_name")], ObjName)
  }

  function CountText(q: QuerySpec, where: seq<Clause>, a: Name): seq<Tok> {
    [Sql("SELECT COUNT(*)")] + FromText(q, a) + WhereText(ClauseTexts(where, a))
  }

  /** A query with relations: the roots and the recursive CTEs in the WITH clause, then the root
      branch and the relation branches. */
  ghost function QueryText(q: QuerySpec, where: seq<Clause>, plan: Plan): seq<Tok> {
    [Sql(if plan.ctes == [] then "WITH root_objects AS (" else "WITH RECURSIVE root_objects AS (")]
    + RootText(q, where, [Sql("*")], RowName(0)) + [Sql(")")] + CtesText(plan.ctes)
    + [Sql(" SELECT ")] + SelectCols(RowName(0), ShapeProjection(q.objects), SegmentText(RowName(0)))
    + [Sql(", 0 AS level, '' AS relation_name FROM root_objects "), Alias(RowName(0))]
    + UnionText(plan.selects) + [Sql(" ORDER BY path")]
  }

  lemma FlatAligned(q: QuerySpec, where: seq<Clause>)
    ensures Holes(FlatText(q, where)) == ClausesArgs(where) + PageArgs(q)
  {
    hide SelectCols, Holes, RootText, ClausesArgs, PageArgs;
    var cols := SelectCols(ObjName, ShapeProjection(q.objects), SegmentText(ObjName))
                + [Sql(", 0 AS level, '' AS relation_name")];
    SelectColsClosed(ObjName, ShapeProjection(q.objects), SegmentText(ObjName));
    RootHoles(q, where, cols, ObjName);
  }

  lemma CountAligned(q: QuerySpec, where: seq<Clause>, a: Name)
    ensures Holes(CountText(q, where, a)) == ClausesArgs(where)
  {
    hide Holes, WhereText, ClauseTexts, ClausesArgs;
    ClausesHoles(where, a);
    WhereHoles(ClauseTexts(where, a));
    AfterClosed([Sql("SELECT COUNT(*)")] + FromText(q, a), WhereText(ClauseTexts(where, a)));
  }

  /** Root arguments, then cursor values, then the branches' arguments in branch order: the order in
      which the text has the placeholders, although the CTEs and the root branch stand between them. */
  lemma QueryAligned(q: QuerySpec, where: seq<Clause>, plan: Plan)
    ensures Holes(QueryText(q, where, plan)) == ClausesArgs(where) + PageArgs(q) + SelectsArgs(plan.selects)
  {
    hide Holes, RootText, CtesText, SelectCols, UnionText, ClausesArgs, PageArgs, SelectsArgs;
    var root := RootText(q, where, [Sql("*")], RowName(0));
    var before := [Sql(if plan.ctes == [] then "WITH root_objects AS (" else "WITH RECURSIVE root_objects AS (")];
    var middle := [Sql(")")] + CtesText(plan.ctes) + [Sql(" SELECT ")]
      + SelectCols(RowName(0), ShapeProjection(q.objects), SegmentText(RowName(0)))
      + [Sql(", 0 AS level, '' AS relation_name FROM root_objects "), Alias(RowName(0))];
    var union := UnionText(plan.selects);
    CtesClosed(plan.ctes);
    SelectColsClosed(RowName(0), ShapeProjection(q.objects), SegmentText(RowName(0)));
    RootHoles(q, where, [Sql("*")], RowName(0));
    UnionHoles(plan.selects);
    Sandwich(before, root, middle, union, [Sql(" ORDER BY path")]);
    assert QueryText(q, where, plan) == before + root + middle + union + [Sql(" ORDER BY path")];
  }

  lemma Sandwich(a: seq<Tok>, x: seq<Tok>, b: seq<Tok>, y: seq<Tok>, c: seq<Tok>)
    requires Closed(a) && Closed(b) && Closed(c)
    ensures Holes(a + x + b + y + c) == Holes(x) + Holes(y)
  {
    hide Holes;
    ClosedHoles(a);
    ClosedHoles(b);
    ClosedHoles(c);
    HolesConcat(a + x + b + y, c);
    HolesConcat(a + x + b, y);
    HolesConcat(a + x, b);
    HolesConcat(a, x);
  }
}
