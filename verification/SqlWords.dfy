/** The words of the SQL text, read back: what its column comparisons, ORDER BY and cursor filter say of the
    stored columns is what the clauses, the sort columns and the cursor comparison mean. */
module SqlWords {
  import opened Options
  import opened Text
  import opened Objects
  import opened Spec
  import opened Relations
  import opened Filters
  import opened Plans
  import opened Arguments
  import opened Paging
  import opened Pages
  import opened SqlText

  // ----- comparisons -----

  /** The stored column that a column name stands for. */
  function ColumnNamed(word: string, o: Obj): Option<string> {
    match word
    case ".id" => Some(o.id)
    case ".cluster" => Some(o.cluster)
    case ".api_group" => Some(o.apiGroup)
    case ".kind" => Some(o.kind)
    case ".namespace" => Some(o.namespace)
    case ".name" => Some(o.name)
    case _ => None
  }

  /** A value read from the front of a text, NULL if it is None, and the rest of the text. */
  datatype Operand = Operand(value: Option<string>, rest: seq<Tok>)

  function ReadOperand(ts: seq<Tok>, o: Obj, cat: Catalog): Option<Operand> {
    if |ts| >= 2 && ts[0].Alias? && ts[1].Sql? && ColumnNamed(ts[1].text, o).Some? then
      Some(Operand(ColumnNamed(ts[1].text, o), ts[2..]))
    else if |ts| >= 5 && ts[0] == Sql("json_extract(") && ts[1].Alias? && ts[2] == Sql(".labels, '$.") && ts[3].Key?
            && ts[4] == Sql("')") then
      Some(Operand(ExtractLabel(o.labels, ts[3].text), ts[5..]))
    else if |ts| >= 3 && ts[0] == Sql("json_extract(cl.labels, '$.") && ts[1].Key? && ts[2] == Sql("')") then
      Some(Operand(if o.cluster in cat.clusters then ExtractLabel(cat.clusters[o.cluster], ts[1].text) else None,
                   ts[3..]))
    else None
  }

  /** The arguments of a list of placeholders, from after its opening parenthesis. */
  function ReadList(ts: seq<Tok>): Option<seq<string>>
    decreases |ts|
  {
    if |ts| < 2 || !ts[0].Mark? || !ts[0].arg.TextArg? then None
    else if ts[1..] == [Sql(")")] then Some([ts[0].arg.text])
    else if ts[1] == Sql(", ") then
      match ReadList(ts[2..])
      case None => None
      case Some(more) => Some([ts[0].arg.text] + more)
    else None
  }

  /** `x IN (values)` as SQL defines it: unknown for NULL. */
  function Among(x: Option<string>, values: seq<string>): Truth {
    if x.None? then Unknown else Known(x.value in values)
  }

  function ReadComparison(x: Option<string>, ts: seq<Tok>): Option<Truth> {
    if ts == [Sql(" IS NULL")] then Some(Known(x.None?))
    else if ts == [Sql(" IS NOT NULL")] then Some(Known(x.Some?))
    else if |ts| == 2 && ts[0] == Sql(" = ") && ts[1].Mark? && ts[1].arg.TextArg? then
      Some(if x.None? then Unknown else Known(x.value == ts[1].arg.text))
    else if |ts| >= 2 && ts[0] == Sql(" IN ") && ts[1] == Sql("(") then
      match ReadList(ts[2..])
      case None => None
      case Some(values) => Some(Among(x, values))
    else if |ts| >= 2 && ts[0] == Sql(" NOT IN ") && ts[1] == Sql("(") then
      match ReadList(ts[2..])
      case None => None
      case Some(values) => Some(Not3(Among(x, values)))
    else None
  }

  /** The truth of a comparison of the object's columns, read off its text. */
  function ReadClause(ts: seq<Tok>, o: Obj, cat: Catalog): Option<Truth> {
    if |ts| == 3 && ts[0].Alias? && ts[2].Mark? && ts[2].arg.TimeArg? then
      var t := ts[2].arg.time;
      if ts[1] == Sql(".creation_ts > ") then
        Some(if o.createdAt.None? then Unknown else Known(o.createdAt.value > t))
      else if ts[1] == Sql(".creation_ts < ") then
        Some(if o.createdAt.None? then Unknown else Known(o.createdAt.value < t))
      else None
    else
      match ReadOperand(ts, o, cat)
      case None => None
      case Some(operand) => ReadComparison(operand.value, operand.rest)
  }

  predicate Compares(c: Clause) {
    match c
    case Equals(_, _) => true
    case IsNull(_) => true
    case IsNotNull(_) => true
    case InList(_, values) => values != []
    case NotInList(_, values) => values != []
    case CreatedAfter(_) => true
    case CreatedBefore(_) => true
    case _ => false
  }

  lemma ScalarReads(x: Scalar, a: Name, rest: seq<Tok>, o: Obj, cat: Catalog)
    ensures ReadOperand(ScalarText(x, a) + rest, o, cat) == Some(Operand(ScalarValue(x, o, cat), rest))
    ensures ScalarText(x, a) + rest != [] && |ScalarText(x, a)| >= 2
    ensures rest != [] && !(rest[0].Mark? && rest[0].arg.TimeArg?)
            ==> !(|ScalarText(x, a) + rest| == 3 && (ScalarText(x, a) + rest)[2].Mark?
                  && (ScalarText(x, a) + rest)[2].arg.TimeArg?)
  {
    hide ExtractLabel;
    var ts := ScalarText(x, a) + rest;
    match x
    case LabelAt(path) =>
      assert ts[5..] == rest;
    case ClusterLabelAt(path) =>
      assert ts[3..] == rest;
    case _ =>
      assert ts[2..] == rest;
  }

  lemma {:induction false} ListReads(values: seq<string>)
    requires values != []
    ensures ReadList(JoinToks(Marks(TextArgs(values)), ", ") + [Sql(")")]) == Some(values)
  {
    var marks := Marks(TextArgs(values));
    if |values| == 1 {
      OneMark(values[0]);
      assert values == [values[0]];
    } else {
      var rest := JoinToks(Marks(TextArgs(values[1..])), ", ") + [Sql(")")];
      ListReads(values[1..]);
      assert marks == [[Mark(TextArg(values[0]))]] + Marks(TextArgs(values[1..]));
      assert marks[1..] == Marks(TextArgs(values[1..])) && |marks| > 1 by { MarksLength(values); }
      var ts := JoinToks(marks, ", ") + [Sql(")")];
      assert ts == [Mark(TextArg(values[0])), Sql(", ")] + rest;
      assert ts[2..] == rest && ts[1..] != [Sql(")")];
      assert values == [values[0]] + values[1..];
    }
  }

  lemma OneMark(value: string)
    ensures ReadList(JoinToks(Marks(TextArgs([value])), ", ") + [Sql(")")]) == Some([value])
  {
    assert [value][1..] == [] && TextArgs([value]) == [TextArg(value)];
    assert Marks([TextArg(value)]) == [[Mark(TextArg(value))]];
    assert JoinToks([[Mark(TextArg(value))]], ", ") + [Sql(")")] == [Mark(TextArg(value)), Sql(")")];
  }

  lemma {:induction false} MarksLength(values: seq<string>)
    ensures |Marks(TextArgs(values))| == |values|
  {
    if values != [] {
      MarksLength(values[1..]);
    }
  }

  /** Read as SQL, the text of a comparison has the truth value of its clause, on every object. */
  lemma ClauseReads(c: Clause, a: Name, o: Obj, cat: Catalog)
    requires Compares(c)
    ensures ReadClause(ClauseText(c, a), o, cat) == Some(Eval(c, o, cat))
  {
    hide ScalarText, ScalarValue, ReadOperand, MarkList, In3;
    match c
    case Equals(x, value) => ScalarReads(x, a, [Sql(" = "), Mark(TextArg(value))], o, cat);
    case IsNull(x) => ScalarReads(x, a, [Sql(" IS NULL")], o, cat);
    case IsNotNull(x) => ScalarReads(x, a, [Sql(" IS NOT NULL")], o, cat);
    case InList(x, values) => ListClauseReads(x, " IN ", values, a, o, cat);
    case NotInList(x, values) => ListClauseReads(x, " NOT IN ", values, a, o, cat);
    case CreatedAfter(t) =>
    case CreatedBefore(t) =>
  }

  lemma ListClauseReads(x: Scalar, op: string, values: seq<string>, a: Name, o: Obj, cat: Catalog)
    requires values != [] && (op == " IN " || op == " NOT IN ")
    ensures ReadClause(ScalarText(x, a) + [Sql(op)] + MarkList(TextArgs(values)), o, cat)
         == Some(if op == " IN " then In3(ScalarValue(x, o, cat), values)
                 else Not3(In3(ScalarValue(x, o, cat), values)))
  {
    hide ScalarText, ScalarValue, ReadOperand, ReadList, In3, JoinToks, Marks;
    var inner := JoinToks(Marks(TextArgs(values)), ", ") + [Sql(")")];
    var rest := [Sql(op)] + MarkList(TextArgs(values));
    assert rest == [Sql(op), Sql("(")] + inner;
    assert rest[2..] == inner;
    Regrouped(ScalarText(x, a), [Sql(op)], MarkList(TextArgs(values)));
    ScalarReads(x, a, rest, o, cat);
    ListReads(values);
    In3Meaning(ScalarValue(x, o, cat), values);
    AmongIsIn(ScalarValue(x, o, cat), values);
  }

  lemma {:induction false} AmongIsIn(x: Option<string>, values: seq<string>)
    requires values != []
    ensures In3(x, values) == Among(x, values)
  {
    if |values| > 1 {
      AmongIsIn(x, values[1..]);
    }
  }

  // ----- ORDER BY -----

  /** The text column of a sort expression. */
  function SortColumn(word: string, o: Obj): Option<string> {
    match word
    case "name" => Some(o.name)
    case "namespace" => Some(o.namespace)
    case "kind" => Some(o.kind)
    case "api_group" => Some(o.apiGroup)
    case "cluster" => Some(o.cluster)
    case _ => None
  }

  /** Row `x` comes strictly before row `y` under the sort expressions, read as SQL. */
  predicate SortsBefore(parts: seq<seq<Tok>>, x: Obj, y: Obj) {
    && parts != [] && |parts[0]| == 4 && parts[0][0].Alias? && parts[0][1] == Sql(".") && parts[0][2].Sql?
    && SortColumn(parts[0][2].text, x).Some?
    && var u, v := SortColumn(parts[0][2].text, x).value, SortColumn(parts[0][2].text, y).value;
    || (parts[0][3] == Sql(" ASC") && Less(u, v))
    || (parts[0][3] == Sql(" DESC") && Less(v, u))
    || (u == v && SortsBefore(parts[1..], x, y))
  }

  lemma SortColumnIs(field: string, o: Obj)
    requires field in TEXT_FIELDS
    ensures SortColumn(ColumnOf(field), o) == Some(Value(o, field))
  {
  }

  /** Read as SQL, the ORDER BY of text columns sorts as the sort columns say. */
  lemma {:induction false} OrderReads(cols: seq<Column>, a: Name, x: Obj, y: Obj)
    requires TextColumns(cols)
    ensures SortsBefore(OrderParts(cols, a), x, y) <==> Before(cols, x, y)
  {
    if cols != [] {
      hide Value, Less, SortColumn, ColumnOf;
      OrderReads(cols[1..], a, x, y);
      SortColumnIs(cols[0].field, x);
      SortColumnIs(cols[0].field, y);
      assert OrderParts(cols, a)[1..] == OrderParts(cols[1..], a);
    }
  }

  // ----- the cursor filter -----

  /** The row's columns compare as asked with the placeholders' arguments, one after the other. */
  predicate RowsCompare(fields: seq<seq<Tok>>, args: seq<Arg>, less: bool, o: Obj) {
    && fields != [] && args != [] && |fields[0]| == 3 && fields[0][0].Alias? && fields[0][1] == Sql(".")
    && fields[0][2].Sql? && SortColumn(fields[0][2].text, o).Some? && args[0].TextArg?
    && var u, v := SortColumn(fields[0][2].text, o).value, args[0].text;
    (if less then Less(u, v) else Less(v, u)) || (u == v && RowsCompare(fields[1..], args[1..], less, o))
  }

  lemma {:induction false} FieldsCompare(fields: seq<string>, values: map<string, string>, less: bool, o: Obj)
    requires forall i :: 0 <= i < |fields| ==> fields[i] in TEXT_FIELDS
    ensures RowsCompare(FieldParts(fields), CursorArgs(fields, values), less, o)
       <==> RowCompare(fields, o, values, less)
  {
    if fields != [] {
      hide Value, Less, SortColumn, ColumnOf;
      FieldsCompare(fields[1..], values, less, o);
      SortColumnIs(fields[0], o);
      assert FieldParts(fields)[1..] == FieldParts(fields[1..]);
      assert CursorArgs(fields, values)[1..] == CursorArgs(fields[1..], values);
    }
  }

  /** The cursor filter of a query with a token, read as SQL: the sort columns in parentheses, a comparison, and
      as many placeholders; a row passes it exactly if it compares so with the token's values. */
  lemma CursorReads(q: QuerySpec, o: Obj)
    requires TextOrder(q.order) && CursorOf(q.page).Values?
    ensures exists fields, args, less ::
      && CursorTexts(q)
         == [[Sql("(")] + JoinToks(fields, ", ") + [Sql(if less then ") < " else ") > ")] + MarkList(args)]
      && args == PageArgs(q) && |fields| == |args|
      && (RowsCompare(fields, args, less, o) <==> PassesCursor(q.order, CursorOf(q.page), o))
  {
    var fields, values := CursorFields(q.order), CursorOf(q.page).values;
    hide CursorFields, JoinToks, MarkList, FieldParts, CursorArgs, RowsCompare, RowCompare, OrderColumns;
    CursorFollowsOrder(q.order);
    OrderText(q.order);
    NamesIndex(OrderColumns(q.order));
    FieldsCompare(fields, values, CursorDescends(q.order), o);
    PartsAndArgs(fields, values);
    var parts, args, less := FieldParts(fields), CursorArgs(fields, values), CursorDescends(q.order);
    assert CursorTexts(q)
        == [[Sql("(")] + JoinToks(parts, ", ") + [Sql(if less then ") < " else ") > ")] + MarkList(args)];
  }

  lemma {:induction false} PartsAndArgs(fields: seq<string>, values: map<string, string>)
    ensures |FieldParts(fields)| == |CursorArgs(fields, values)| == |fields|
  {
    if fields != [] {
      PartsAndArgs(fields[1..], values);
    }
  }

  // ----- resource types -----

  /** The arguments of the test for a kind name fit the four comparisons it makes, on Postgres too, where the
      short name is compared as it is. */
  lemma KindArgsFit(kind: string, t: ResourceType)
    ensures |KindArgs(kind)| == 4 && forall i :: 0 <= i < 4 ==> KindArgs(kind)[i].TextArg?
    ensures var args := KindArgs(kind);
      Filters.Names(t, kind)
      <==> || Lower(t.kind) == Lower(args[0].text) || Lower(t.resource) == Lower(args[1].text)
           || Lower(t.singular) == Lower(args[2].text) || args[3].text in t.shortNames
  {
    hide Lower;
  }

  // ----- numbers -----

  datatype PageWords = PageWords(limit: int, offset: int)

  /** The LIMIT and OFFSET at the end of a query. */
  function ReadPage(ts: seq<Tok>): Option<PageWords> {
    var n := |ts|;
    if n >= 4 && ts[n - 4] == Sql(" LIMIT ") && ts[n - 3].Number? && ts[n - 2] == Sql(" OFFSET ")
       && ts[n - 1].Number? then
      Some(PageWords(ts[n - 3].n, ts[n - 1].n))
    else if n >= 2 && ts[n - 2] == Sql(" LIMIT ") && ts[n - 1].Number? then Some(PageWords(ts[n - 1].n, 0))
    else None
  }

  /** The root query ends with its limit, and with its offset if it has one. */
  lemma PageReads(q: QuerySpec, a: Name)
    ensures ReadPage(TailText(q, a)) == Some(PageWords(q.limit, Offset(q.page)))
  {
    hide OrderParts, JoinToks, OrderColumns;
    var head := [Sql(" ORDER BY ")] + JoinToks(OrderParts(OrderColumns(q.order), a), ", ");
    var tail := if Offset(q.page) > 0 then [Sql(" OFFSET "), Number(Offset(q.page))] else [];
    var ts := head + [Sql(" LIMIT "), Number(q.limit)] + tail;
    assert TailText(q, a) == ts;
    assert ts[|head|] == Sql(" LIMIT ") && ts[|head| + 1] == Number(q.limit);
  }

  /** The recursion of a CTE goes on while the depth is below its limit. */
  lemma DepthReads(cte: Cte)
    ensures var ts := StepText(cte);
      |ts| >= 2 && ts[|ts| - 2] == Sql(".depth < ") && ts[|ts| - 1] == Number(cte.maxDepth)
  {
    hide CteCols, FollowText;
  }

  /** A branch with a limit ends with it. */
  lemma LimitReads(body: seq<Tok>, limit: int)
    requires limit > 0
    ensures var ts := Wrapped(body, limit);
      |ts| >= 4 && ts[0] == Sql("SELECT * FROM (") && ts[|ts| - 1] == Sql(")")
      && ReadPage(ts[..|ts| - 1]) == Some(PageWords(limit, 0))
  {
    var ts := Wrapped(body, limit);
    var n := |ts|;
    assert ts == [Sql("SELECT * FROM (")] + body + [Sql(" LIMIT "), Number(limit), Sql(")")];
    assert ts[n - 3] == Sql(" LIMIT ") && ts[n - 2] == Number(limit);
  }
}
