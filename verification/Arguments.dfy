/** The query arguments that clauses and branches carry, in the order of their placeholders. */
module Arguments {
  import opened Text
  import opened Filters
  import opened Plans

  datatype Arg = TextArg(text: string) | TimeArg(time: int)

  function TextArgs(values: seq<string>): seq<Arg> {
    if values == [] then [] else [TextArg(values[0])] + TextArgs(values[1..])
  }

  function TestArgs(tests: seq<ConditionTest>): seq<Arg> {
    if tests == [] then [] else [TextArg(tests[0].value)] + TestArgs(tests[1..])
  }

  lemma {:induction false} TestArgsConcat(a: seq<ConditionTest>, b: seq<ConditionTest>)
    ensures TestArgs(a + b) == TestArgs(a) + TestArgs(b)
  {
    if a == [] {
      assert a + b == b;
    } else {
      TestArgsConcat(a[1..], b);
      assert (a + b)[1..] == a[1..] + b;
    }
  }

  /** Four names are compared with a kind; the short names are stored in lower case. */
  function KindArgs(kind: string): seq<Arg> {
    [TextArg(kind), TextArg(kind), TextArg(kind), TextArg(Lower(kind))]
  }

  function ClauseArgs(c: Clause): seq<Arg> {
    match c
    case Equals(_, value) => [TextArg(value)]
    case IsNull(_) => []
    case IsNotNull(_) => []
    case InList(_, values) => TextArgs(values)
    case NotInList(_, values) => TextArgs(values)
    case CreatedAfter(t) => [TimeArg(t)]
    case CreatedBefore(t) => [TimeArg(t)]
    case KindResolves(kind) => KindArgs(kind)
    case HasCategory(category) => [TextArg(category)]
    case HasCondition(tests) => TestArgs(tests)
    case AllOf(clauses) => ClausesArgs(clauses)
    case AnyOf(clauses) => ClausesArgs(clauses)
  }

  function ClausesArgs(cs: seq<Clause>): seq<Arg> {
    if cs == [] then [] else ClauseArgs(cs[0]) + ClausesArgs(cs[1..])
  }

  lemma ClausesArgsCons(c: Clause, cs: seq<Clause>)
    ensures ClausesArgs([c] + cs) == ClauseArgs(c) + ClausesArgs(cs)
  {
    hide ClauseArgs;
    assert ([c] + cs)[1..] == cs;
  }

  lemma {:induction false} ClausesArgsConcat(a: seq<Clause>, b: seq<Clause>)
    ensures ClausesArgs(a + b) == ClausesArgs(a) + ClausesArgs(b)
  {
    hide ClauseArgs;
    if a == [] {
      assert a + b == b;
    } else {
      hide ClausesArgs;
      var c, tail := a[0], a[1..];
      assert a == [c] + tail && a + b == [c] + (tail + b);
      ClausesArgsCons(c, tail + b);
      ClausesArgsCons(c, tail);
      ClausesArgsConcat(tail, b);
    }
  }

  lemma ClausesArgsOne(c: Clause)
    ensures ClausesArgs([c]) == ClauseArgs(c)
  {
    hide ClauseArgs;
    ClausesArgsCons(c, []);
    assert [c] + [] == [c];
  }

  lemma ClausesArgsAppend(cs: seq<Clause>, c: Clause)
    ensures ClausesArgs(cs + [c]) == ClausesArgs(cs) + ClauseArgs(c)
  {
    hide ClauseArgs, ClausesArgs;
    ClausesArgsConcat(cs, [c]);
    ClausesArgsOne(c);
  }

  // ----- branches -----

  function SelectArgs(s: Select): seq<Arg> {
    match s
    case Joined(_, _, _, where, _, _, _, _) => ClausesArgs(where)
    case Walked(_, whereInner, _) => ClausesArgs(whereInner)
    case Attached(_, _, where, _, _, _) => ClausesArgs(where)
  }

  function SelectsArgs(ss: seq<Select>): seq<Arg> {
    if ss == [] then [] else SelectArgs(ss[0]) + SelectsArgs(ss[1..])
  }

  lemma SelectsArgsCons(s: Select, ss: seq<Select>)
    ensures SelectsArgs([s] + ss) == SelectArgs(s) + SelectsArgs(ss)
  {
    hide SelectArgs;
    assert ([s] + ss)[1..] == ss;
  }

  lemma {:induction false} SelectsArgsConcat(a: seq<Select>, b: seq<Select>)
    ensures SelectsArgs(a + b) == SelectsArgs(a) + SelectsArgs(b)
  {
    hide SelectArgs;
    if a == [] {
      assert a + b == b;
    } else {
      hide SelectsArgs;
      var s, tail := a[0], a[1..];
      assert a == [s] + tail && a + b == [s] + (tail + b);
      SelectsArgsCons(s, tail + b);
      SelectsArgsCons(s, tail);
      SelectsArgsConcat(tail, b);
    }
  }

  lemma SelectsArgsOne(s: Select)
    ensures SelectsArgs([s]) == SelectArgs(s)
  {
    hide SelectArgs;
    SelectsArgsCons(s, []);
    assert [s] + [] == [s];
  }
}
