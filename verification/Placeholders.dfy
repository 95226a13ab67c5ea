/** Generating a query with its arguments, and what the database reads once the arguments are put
    in place of the question marks. */
module Placeholders {
  import opened Text
  import opened Spec
  import opened Filters
  import opened Plans
  import opened Arguments
  import opened Reordering
  import opened Generator
  import opened Paging
  import opened Pages
  import opened SqlText

  // ----- the root clauses -----

  method BuildClusterLabels(labels: map<string, string>, keys: seq<string>)
      returns (clauses: seq<Clause>, args: seq<Arg>)
    requires forall k :: k in keys ==> k in labels
    ensures clauses == ClusterLabelClauses(labels, keys) && args == ClausesArgs(clauses)
  {
    clauses, args := [], [];
    ghost var total := ClusterLabelClauses(labels, keys);
    assert keys[0..] == keys;
    var i := 0;
    while i < |keys|
      invariant 0 <= i <= |keys|
      invariant clauses + ClusterLabelClauses(labels, keys[i..]) == total && args == ClausesArgs(clauses)
    {
      hide ClausesArgs;
      assert keys[i] in keys;
      ghost var rest := ClusterLabelClauses(labels, keys[i + 1..]);
      assert keys[i..][1..] == keys[i + 1..];
      var c := Equals(ClusterLabelAt(keys[i]), labels[keys[i]]);
      ClausesArgsAppend(clauses, c);
      Regrouped(clauses, [c], rest);
      clauses := clauses + [c];
      args := args + [TextArg(labels[keys[i]])];
      i := i + 1;
    }
    NothingAdded(clauses);
  }

  /** One parenthesised group per filter entry that has clauses; the arguments of the others are dropped
      together with them. */
  method BuildEntryGroups(fs: seq<ObjectFilter>) returns (groups: seq<Clause>, args: seq<Arg>)
    ensures GroupsAlike(groups, EntryGroups(fs)) && args == ClausesArgs(groups)
  {
    ghost var total := EntryGroups(fs);
    ghost var sorted: seq<Clause> := [];
    groups, args := [], [];
    assert fs[0..] == fs && args == ClausesArgs(groups) && EntryGroups([]) == [];
    assert GroupsAlike(groups, sorted);
    hide EntryGroup, ClausesArgs, EntryGroups, GroupsAlike;
    var i := 0;
    while i < |fs|
      invariant 0 <= i <= |fs|
      invariant sorted + EntryGroups(fs[i..]) == total && GroupsAlike(groups, sorted) && args == ClausesArgs(groups)
    {
      var group, groupArgs := BuildEntryGroup(fs[i]);
      EntryGroupsStep(fs, i);
      Regrouped(sorted, EntryGroup(fs[i]), EntryGroups(fs[i + 1..]));
      GroupsAlikeConcat(groups, sorted, group, EntryGroup(fs[i]));
      sorted := sorted + EntryGroup(fs[i]);
      groups, args := AppendClauses(groups, args, group, groupArgs);
      i := i + 1;
    }
    NothingAdded(sorted);
  }

  lemma GroupsAlikeConcat(a: seq<Clause>, b: seq<Clause>, x: seq<Clause>, y: seq<Clause>)
    requires GroupsAlike(a, b) && GroupsAlike(x, y)
    ensures GroupsAlike(a + x, b + y)
  {
    hide GroupAlike;
  }

  ghost function EntryGroup(f: ObjectFilter): seq<Clause> {
    if FilterClauses(f) != [] then [AllOf(FilterClauses(f))] else []
  }

  method BuildEntryGroup(f: ObjectFilter) returns (group: seq<Clause>, args: seq<Arg>)
    ensures GroupsAlike(group, EntryGroup(f)) && args == ClausesArgs(group)
  {
    group, args := [], [];
    assert args == ClausesArgs(group);
    hide FilterClauses, ClausesArgs, SameClauses;
    var clauses, filterArgs := BuildObjectFilter(f);
    SameEmptiness(clauses, FilterClauses(f));
    if clauses != [] {
      ClausesArgsOne(AllOf(clauses));
      group := [AllOf(clauses)];
      args := filterArgs;
    }
  }

  lemma SameEmptiness(a: seq<Clause>, b: seq<Clause>)
    requires SameClauses(a, b)
    ensures a == [] <==> b == []
  {
    assert |multiset(a)| == |a| && |multiset(b)| == |b|;
  }

  lemma EntryGroupsStep(fs: seq<ObjectFilter>, i: nat)
    requires i < |fs|
    ensures EntryGroups(fs[i..]) == EntryGroup(fs[i]) + EntryGroups(fs[i + 1..])
  {
    hide FilterClauses;
    assert fs[i..][1..] == fs[i + 1..];
  }

  /** The root clauses, the labels of cluster and objects visited in any order. */
  method BuildRootClauses(q: QuerySpec) returns (clauses: seq<Clause>, args: seq<Arg>)
    ensures RootReordered(q, clauses) && args == ClausesArgs(clauses)
  {
    hide ClausesArgs, EntryGroups, TextClause, ClusterLabelClauses, Ascending, SameClauses, GroupsAlike;
    var keys := VisitKeys(q.clusterLabels.Keys);
    LabelsAnyOrder(q.clusterLabels, keys);
    var more, moreArgs;
    clauses, args := BuildText(ClusterColumn, q.clusterName);
    ghost var name := clauses;
    more, moreArgs := BuildClusterLabels(q.clusterLabels, keys);
    clauses, args := AppendClauses(clauses, args, more, moreArgs);
    ghost var head := clauses;
    SameClausesSelf(name);
    SameClausesConcat(name, name, more, ClusterLabelClauses(q.clusterLabels, Sorted(q.clusterLabels.Keys)));
    var groups, groupArgs := BuildEntryGroups(q.filters);
    if groups != [] {
      ClausesArgsOne(AnyOf(groups));
      clauses, args := AppendClauses(clauses, args, [AnyOf(groups)], groupArgs);
    } else {
      NothingAdded(clauses);
    }
    assert SameClauses(head, ClusterClauses(q)) && GroupsAlike(groups, EntryGroups(q.filters))
           && clauses == head + GroupedClause(groups);
  }

  // ----- the cursor -----

  /** The values of the cursor filter, the tiebreakers added to the requested fields. */
  method BuildCursor(q: QuerySpec) returns (args: seq<Arg>)
    ensures args == PageArgs(q)
  {
    hide CursorArgs;
    var cursor := CursorOf(q.page);
    if !cursor.Values? {
      return [];
    }
    var fields := ["name"];
    if q.order != [] {
      fields := [];
      var i := 0;
      while i < |q.order|
        invariant 0 <= i <= |q.order| && fields == FieldsOf(q.order[..i])
      {
        fields := fields + [q.order[i].field];
        assert q.order[..i + 1][..i] == q.order[..i];
        i := i + 1;
      }
      assert q.order[..i] == q.order;
    }
    var hasNamespace, hasName := "namespace" in fields, "name" in fields;
    if !hasNamespace {
      fields := fields + ["namespace"];
    }
    if !hasName {
      fields := fields + ["name"];
    }
    args := BuildCursorArgs(fields, cursor.values);
  }

  method BuildCursorArgs(fields: seq<string>, values: map<string, string>) returns (args: seq<Arg>)
    ensures args == CursorArgs(fields, values)
  {
    args := [];
    ghost var total := CursorArgs(fields, values);
    assert fields[0..] == fields;
    var i := 0;
    while i < |fields|
      invariant 0 <= i <= |fields|
      invariant args + CursorArgs(fields[i..], values) == total
    {
      ghost var rest := CursorArgs(fields[i + 1..], values);
      assert fields[i..][1..] == fields[i + 1..];
      var a := TextArg(if fields[i] in values then values[fields[i]] else "");
      Regrouped(args, [a], rest);
      args := args + [a];
      i := i + 1;
    }
    NothingAdded(args);
  }

  // ----- whole queries -----

  predicate HasRelations(q: QuerySpec) {
    q.objects.Some? && q.objects.value.relations != map[]
  }

  /** The text that the generator writes for a query, from its root clauses and the plan of its relations. */
  ghost function FullText(q: QuerySpec, where: seq<Clause>, plan: Plan): seq<Tok> {
    if HasRelations(q) then QueryText(q, where, plan) else FlatText(q, where)
  }

  ghost function RootAlias(q: QuerySpec): Name {
    if HasRelations(q) then RowName(0) else ObjName
  }

  /** What generating a query gives: the root clauses and the plan, up to map iteration order. */
  ghost predicate GeneratedFor(q: QuerySpec, where: seq<Clause>, g: Generated) {
    RootReordered(q, where)
    && if HasRelations(q) then GeneratedAlike(g, PlanFor(q.objects, q.maxDepth)) else g == Generated(Plan([], []))
  }

  /** A query's arguments are collected separately from its text. In whatever order maps are visited,
      they are those of the placeholders of the very text that was written, one by one, and so are
      those of its count query. */
  method Generate(q: QuerySpec) returns (where: seq<Clause>, g: Generated, args: seq<Arg>, countArgs: seq<Arg>)
    ensures GeneratedFor(q, where, g)
    ensures g.Generated? ==> args == Holes(FullText(q, where, g.plan))
    ensures g.Generated? ==> countArgs == Holes(CountText(q, where, RootAlias(q)))
  {
    hide RootReordered, GeneratedAlike, ClausesArgs, Holes, QueryText, FlatText, PageArgs, SelectsArgs, PlanFor,
         CountText;
    var rootArgs;
    where, rootArgs := BuildRootClauses(q);
    var cursorArgs := BuildCursor(q);
    countArgs := rootArgs;
    args := rootArgs + cursorArgs;
    CountAligned(q, where, RootAlias(q));
    if HasRelations(q) {
      var branchArgs;
      g, branchArgs := GenerateWithRelations(q.objects, q.maxDepth);
      args := args + branchArgs;
      if g.Generated? {
        QueryAligned(q, where, g.plan);
      }
    } else {
      g := Generated(Plan([], []));
      FlatAligned(q, where);
    }
  }

  // ----- reading the text -----

  /** What the driver sees: pieces it copies, and characters, of which `?` asks for an argument. */
  datatype Sign = Piece(tok: Tok) | Char(c: char)

  /** What the database reads. */
  datatype Cell = Copied(sign: Sign) | Value(arg: Arg)

  function Chars(s: string): seq<Sign> {
    if s == "" then [] else [Char(s[0])] + Chars(s[1..])
  }

  function SignsOf(t: Tok): seq<Sign> {
    match t
    case Key(s) => Chars(s)
    case Mark(_) => [Char('?')]
    case _ => [Piece(t)]
  }

  function Signs(ts: seq<Tok>): seq<Sign> {
    if ts == [] then [] else SignsOf(ts[0]) + Signs(ts[1..])
  }

  function Values(args: seq<Arg>): seq<Cell> {
    if args == [] then [] else [Value(args[0])] + Values(args[1..])
  }

  /** Each `?` takes the next argument while there is one; arguments left over are appended. */
  function Substituted(signs: seq<Sign>, args: seq<Arg>): seq<Cell> {
    if signs == [] then Values(args)
    else if signs[0] == Char('?') && args != [] then [Value(args[0])] + Substituted(signs[1..], args[1..])
    else [Copied(signs[0])] + Substituted(signs[1..], args)
  }

  function Copy(signs: seq<Sign>): seq<Cell> {
    if signs == [] then [] else [Copied(signs[0])] + Copy(signs[1..])
  }

  /** The query as it is meant: every placeholder holds its own argument, and keys stand for themselves. */
  function Intended(ts: seq<Tok>): seq<Cell> {
    if ts == [] then []
    else (if ts[0].Mark? then [Value(ts[0].arg)] else Copy(SignsOf(ts[0]))) + Intended(ts[1..])
  }

  /** No key with a question mark stands before a placeholder. */
  ghost predicate KeysSafe(ts: seq<Tok>) {
    ts == [] || (KeysSafe(ts[1..]) && (ts[0].Key? && Holes(ts[1..]) != [] ==> Free(ts[0].text, '?')))
  }

  ghost predicate NoQuestions(signs: seq<Sign>) {
    forall i :: 0 <= i < |signs| ==> signs[i] != Char('?')
  }

  /** Signs without question marks, or read when no argument is left, are copied. */
  lemma {:induction false} BindCopies(signs: seq<Sign>, more: seq<Sign>, args: seq<Arg>)
    requires NoQuestions(signs) || args == []
    ensures Substituted(signs + more, args) == Copy(signs) + Substituted(more, args)
  {
    if signs == [] {
      assert signs + more == more;
    } else {
      BindCopies(signs[1..], more, args);
      assert (signs + more)[1..] == signs[1..] + more;
      Regrouped([Copied(signs[0])], Copy(signs[1..]), Substituted(more, args));
    }
  }

  lemma FreeSigns(s: string, signs: seq<Sign>)
    requires |signs| == |s| && forall i :: 0 <= i < |s| ==> signs[i] == Char(s[i])
    ensures NoQuestions(signs) <==> Free(s, '?')
  {
    if !Free(s, '?') {
      var i :| 0 <= i < |s| && s[i] == '?';
      assert signs[i] == Char('?');
    }
  }

  lemma {:induction false} CharsFree(s: string)
    ensures NoQuestions(Chars(s)) <==> Free(s, '?')
    ensures |Chars(s)| == |s| && forall i :: 0 <= i < |s| ==> Chars(s)[i] == Char(s[i])
  {
    if s != "" {
      CharsFree(s[1..]);
      assert forall i :: 0 < i < |s| ==> s[i] == s[1..][i - 1];
      assert forall i :: 0 <= i < |s| ==> Chars(s)[i] == Char(s[i]);
    }
    FreeSigns(s, Chars(s));
  }

  /** A question mark among the first signs takes an argument, so that they are not copied as they are. */
  lemma {:induction false} BindTakes(signs: seq<Sign>, more: seq<Sign>, args: seq<Arg>, rest: seq<Cell>)
    requires !NoQuestions(signs) && args != []
    ensures Substituted(signs + more, args) != Copy(signs) + rest
  {
    assert (signs + more)[1..] == signs[1..] + more;
    var bound, copied := Substituted(signs + more, args), Copy(signs) + rest;
    if signs[0] == Char('?') {
      assert bound[0] == Value(args[0]) && copied[0] == Copied(signs[0]);
    } else {
      assert !NoQuestions(signs[1..]) by {
        var i :| 0 <= i < |signs| && signs[i] == Char('?');
        assert signs[1..][i - 1] == Char('?');
      }
      BindTakes(signs[1..], more, args, rest);
      assert bound[1..] == Substituted(signs[1..] + more, args);
      assert copied[1..] == Copy(signs[1..]) + rest;
    }
  }

  lemma HeadHoles(ts: seq<Tok>)
    requires ts != []
    ensures Holes(ts) == (if ts[0].Mark? then [ts[0].arg] else []) + Holes(ts[1..])
  {
  }

  lemma BindMark(arg: Arg, more: seq<Sign>, args: seq<Arg>)
    ensures Substituted([Char('?')] + more, [arg] + args) == [Value(arg)] + Substituted(more, args)
  {
    assert ([Char('?')] + more)[1..] == more && ([arg] + args)[1..] == args;
  }

  /** Putting the arguments in place gives the intended query exactly when no key with a question mark
      stands before a placeholder. */
  lemma {:induction false} ReadAsIntendedIff(ts: seq<Tok>)
    ensures Substituted(Signs(ts), Holes(ts)) == Intended(ts) <==> KeysSafe(ts)
  {
    if ts != [] {
      var t, rest := ts[0], ts[1..];
      ReadAsIntendedIff(rest);
      HeadHoles(ts);
      hide Substituted, Holes, Chars, Copy;
      if t.Mark? {
        BindMark(t.arg, Signs(rest), Holes(rest));
        SamePrefix([Value(t.arg)], Substituted(Signs(rest), Holes(rest)), Intended(rest));
      } else {
        var signs, args := SignsOf(t), Holes(rest);
        assert Holes(ts) == args;
        SignsQuestions(t);
        if NoQuestions(signs) || args == [] {
          BindCopies(signs, Signs(rest), args);
          SamePrefix(Copy(signs), Substituted(Signs(rest), args), Intended(rest));
        } else {
          BindTakes(signs, Signs(rest), args, Intended(rest));
        }
      }
    }
  }

  lemma SignsQuestions(t: Tok)
    requires !t.Mark?
    ensures NoQuestions(SignsOf(t)) <==> (t.Key? ==> Free(t.text, '?'))
  {
    if t.Key? {
      CharsFree(t.text);
    }
  }

  lemma SamePrefix(a: seq<Cell>, x: seq<Cell>, y: seq<Cell>)
    ensures a + x == a + y <==> x == y
  {
    if a + x == a + y {
      assert x == (a + x)[|a|..] && y == (a + y)[|a|..];
    }
  }
}
