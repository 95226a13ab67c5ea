/** Map iteration order: clauses and branches that come from ranging over a map may come in any order,
    and no order changes what a query returns. */
module Reordering {
  import opened Options
  import opened Text
  import opened Objects
  import opened Spec
  import opened Relations
  import opened Filters
  import opened Projections
  import opened Plans

  /** `keys` lists the set, each member once. */
  ghost predicate Enumerates(keys: seq<string>, s: set<string>) {
    (forall k :: k in keys <==> k in s) && |keys| == |s|
  }

  lemma {:induction false} SetOfKeys(keys: seq<string>, s: set<string>)
    requires forall k :: k in keys <==> k in s
    ensures |s| <= |keys|
    ensures |s| == |keys| ==> multiset(keys) == multiset(s)
    decreases |keys|
  {
    if keys == [] {
      assert s == {};
    } else {
      var k, rest := keys[0], keys[1..];
      assert keys == [k] + rest;
      if k in rest {
        SetOfKeys(rest, s);
      } else {
        SetOfKeys(rest, s - {k});
        assert s == (s - {k}) + {k};
        assert multiset(s) == multiset(s - {k}) + multiset{k};
      }
    }
  }

  lemma EnumerationsPermute(a: seq<string>, b: seq<string>, s: set<string>)
    requires Enumerates(a, s) && Enumerates(b, s)
    ensures multiset(a) == multiset(b)
  {
    SetOfKeys(a, s);
    SetOfKeys(b, s);
  }

  lemma SortedEnumerates(s: set<string>)
    ensures Enumerates(Sorted(s), s)
  {
  }

  // ----- clauses -----

  /** The same clauses in another order. */
  ghost predicate SameClauses(a: seq<Clause>, b: seq<Clause>) {
    multiset(a) == multiset(b)
  }

  lemma SameClausesConcat(a: seq<Clause>, b: seq<Clause>, x: seq<Clause>, y: seq<Clause>)
    requires SameClauses(a, b) && SameClauses(x, y)
    ensures SameClauses(a + x, b + y)
  {
  }

  lemma {:induction false} AcceptsEach(cs: seq<Clause>, o: Obj, cat: Catalog)
    ensures Accepts(cs, o, cat) <==> forall c :: c in cs ==> Eval(c, o, cat) == True
  {
    hide Eval;
    if cs != [] {
      AcceptsEach(cs[1..], o, cat);
      AcceptsCons(cs[0], cs[1..], o, cat);
      assert cs == [cs[0]] + cs[1..];
      assert forall c :: c in cs <==> c == cs[0] || c in cs[1..];
    }
  }

  /** The order of the clauses of a WHERE does not matter. */
  lemma AcceptsAnyOrder(a: seq<Clause>, b: seq<Clause>, o: Obj, cat: Catalog)
    requires SameClauses(a, b)
    ensures Accepts(a, o, cat) <==> Accepts(b, o, cat)
  {
    hide Accepts, Eval;
    AcceptsEach(a, o, cat);
    AcceptsEach(b, o, cat);
    assert forall c :: c in a <==> c in multiset(a);
    assert forall c :: c in b <==> c in multiset(b);
  }

  lemma LabelClausesCons(labels: map<string, string>, k: string, keys: seq<string>)
    requires k in labels && forall x :: x in keys ==> x in labels
    ensures LabelClauses(labels, [k] + keys) == [Equals(LabelAt(k), labels[k])] + LabelClauses(labels, keys)
    ensures ClusterLabelClauses(labels, [k] + keys)
         == [Equals(ClusterLabelAt(k), labels[k])] + ClusterLabelClauses(labels, keys)
  {
    assert ([k] + keys)[1..] == keys;
  }

  lemma {:induction false} LabelClausesConcat(labels: map<string, string>, a: seq<string>, b: seq<string>)
    requires (forall k :: k in a ==> k in labels) && forall k :: k in b ==> k in labels
    ensures LabelClauses(labels, a + b) == LabelClauses(labels, a) + LabelClauses(labels, b)
    ensures ClusterLabelClauses(labels, a + b) == ClusterLabelClauses(labels, a) + ClusterLabelClauses(labels, b)
  {
    if a == [] {
      assert a + b == b;
    } else {
      hide LabelClauses, ClusterLabelClauses;
      var k, tail := a[0], a[1..];
      assert a == [k] + tail && a + b == [k] + (tail + b);
      LabelClausesConcat(labels, tail, b);
      LabelClausesCons(labels, k, tail);
      LabelClausesCons(labels, k, tail + b);
      Regrouped([Equals(LabelAt(k), labels[k])], LabelClauses(labels, tail), LabelClauses(labels, b));
      Regrouped([Equals(ClusterLabelAt(k), labels[k])], ClusterLabelClauses(labels, tail),
                ClusterLabelClauses(labels, b));
    }
  }

  lemma {:induction false} LabelsPermute(labels: map<string, string>, a: seq<string>, b: seq<string>)
    requires multiset(a) == multiset(b) && forall k :: k in a ==> k in labels
    ensures forall k :: k in b ==> k in labels
    ensures SameClauses(LabelClauses(labels, a), LabelClauses(labels, b))
    ensures SameClauses(ClusterLabelClauses(labels, a), ClusterLabelClauses(labels, b))
    decreases |a|
  {
    SameMembersIn(a, b);
    hide LabelClauses, ClusterLabelClauses;
    if a == [] {
      assert b == [] by { assert |multiset(a)| == 0 && |multiset(b)| == |b|; }
    } else {
      var k, rest := a[0], a[1..];
      assert a == [k] + rest;
      var left, right := TakeOut(k, rest, b);
      assert forall x :: x in left + right ==> x in b;
      LabelsPermute(labels, rest, left + right);
      LabelClausesCons(labels, k, rest);
      LabelMiddle(labels, left, k, right);
    }
  }

  lemma LabelMiddle(labels: map<string, string>, left: seq<string>, k: string, right: seq<string>)
    requires forall x :: x in left + [k] + right ==> x in labels
    ensures k in labels && forall x :: x in left + right ==> x in labels
    ensures multiset(LabelClauses(labels, left + [k] + right))
         == multiset{Equals(LabelAt(k), labels[k])} + multiset(LabelClauses(labels, left + right))
    ensures multiset(ClusterLabelClauses(labels, left + [k] + right))
         == multiset{Equals(ClusterLabelAt(k), labels[k])} + multiset(ClusterLabelClauses(labels, left + right))
  {
    hide LabelClauses, ClusterLabelClauses;
    assert k in left + [k] + right;
    assert forall x :: x in left || x in right ==> x in left + [k] + right;
    assert left + [k] + right == left + ([k] + right);
    LabelClausesConcat(labels, left, right);
    LabelClausesConcat(labels, left, [k] + right);
    LabelClausesCons(labels, k, right);
  }

  /** Whatever order the required labels are visited in, the clauses are the same. */
  lemma LabelsAnyOrder(labels: map<string, string>, keys: seq<string>)
    requires Enumerates(keys, labels.Keys)
    ensures SameClauses(LabelClauses(labels, keys), LabelClauses(labels, Sorted(labels.Keys)))
    ensures SameClauses(ClusterLabelClauses(labels, keys), ClusterLabelClauses(labels, Sorted(labels.Keys)))
  {
    hide SameClauses, LabelClauses, ClusterLabelClauses;
    SortedEnumerates(labels.Keys);
    EnumerationsPermute(keys, Sorted(labels.Keys), labels.Keys);
    LabelsPermute(labels, keys, Sorted(labels.Keys));
  }

  lemma FilterAnyOrder(f: ObjectFilter, labels: seq<Clause>)
    requires SameClauses(labels, LabelClauses(f.labels, Sorted(f.labels.Keys)))
    ensures SameClauses(FilterClausesWith(f, labels), FilterClauses(f))
  {
    hide KindClauses, TextClause, LabelClauses, ConditionClauses, TimeClauses, CategoryClauses, ExpressionClauses,
         SameClauses;
    var before := KindClauses(f.groupKind) + TextClause(NameColumn, f.name) + TextClause(NamespaceColumn, f.namespace);
    var sorted := LabelClauses(f.labels, Sorted(f.labels.Keys));
    SameClausesSelf(before);
    SameClausesConcat(before, before, labels, sorted);
    AppendSame(before + labels, before + sorted, ConditionClauses(f.conditions));
    var x, y := before + labels + ConditionClauses(f.conditions), before + sorted + ConditionClauses(f.conditions);
    AppendSame(x, y, TimeClauses(f.after, f.before));
    x, y := x + TimeClauses(f.after, f.before), y + TimeClauses(f.after, f.before);
    AppendSame(x, y, TextClause(IdColumn, f.id));
    x, y := x + TextClause(IdColumn, f.id), y + TextClause(IdColumn, f.id);
    AppendSame(x, y, CategoryClauses(f.categories));
    x, y := x + CategoryClauses(f.categories), y + CategoryClauses(f.categories);
    AppendSame(x, y, ExpressionClauses(f.labelExpressions));
  }

  /** The clauses of an entry with its label clauses as given. */
  ghost function FilterClausesWith(f: ObjectFilter, labels: seq<Clause>): seq<Clause> {
    KindClauses(f.groupKind) + TextClause(NameColumn, f.name) + TextClause(NamespaceColumn, f.namespace)
    + labels + ConditionClauses(f.conditions)
    + TimeClauses(f.after, f.before) + TextClause(IdColumn, f.id) + CategoryClauses(f.categories)
    + ExpressionClauses(f.labelExpressions)
  }

  lemma SameClausesSelf(a: seq<Clause>)
    ensures SameClauses(a, a)
  {
  }

  lemma AppendSame(a: seq<Clause>, b: seq<Clause>, x: seq<Clause>)
    requires SameClauses(a, b)
    ensures SameClauses(a + x, b + x)
  {
  }

  // ----- branches -----

  /** The same branch, its filters in another order. */
  ghost predicate SelectAlike(s: Select, t: Select) {
    match s
    case Joined(steps, child, path, where, projection, limit, level, rel) =>
      t.Joined? && t == Joined(steps, child, path, t.where, projection, limit, level, rel)
        && SameClauses(where, t.where)
    case Walked(_, _, _) => s == t
    case Attached(cte, join, where, projection, level, rel) =>
      t.Attached? && t == Attached(cte, join, t.where, projection, level, rel) && SameClauses(where, t.where)
  }

  ghost predicate PairwiseAlike(a: seq<Select>, b: seq<Select>) {
    |a| == |b| && forall i :: 0 <= i < |a| ==> SelectAlike(a[i], b[i])
  }

  /** The same branches in another order, their filters in another order. */
  ghost predicate SelectsAlike(a: seq<Select>, b: seq<Select>) {
    exists mid :: multiset(mid) == multiset(b) && PairwiseAlike(a, mid)
  }

  ghost predicate PlanAlike(p: Plan, q: Plan) {
    p.ctes == q.ctes && SelectsAlike(p.selects, q.selects)
  }

  lemma PairwiseSelf(a: seq<Select>)
    ensures PairwiseAlike(a, a)
  {
  }

  lemma NoneAlike()
    ensures SelectsAlike([], [])
  {
    PairwiseSelf([]);
  }

  lemma OneAlike(s: Select, t: Select)
    requires SelectAlike(s, t)
    ensures SelectsAlike([s], [t])
  {
    hide SelectAlike;
    assert PairwiseAlike([s], [t]);
  }

  lemma SelectsAlikeConcat(a: seq<Select>, b: seq<Select>, x: seq<Select>, y: seq<Select>)
    requires SelectsAlike(a, b) && SelectsAlike(x, y)
    ensures SelectsAlike(a + x, b + y)
  {
    hide SelectAlike;
    var m :| multiset(m) == multiset(b) && PairwiseAlike(a, m);
    var n :| multiset(n) == multiset(y) && PairwiseAlike(x, n);
    assert multiset(m + n) == multiset(b + y);
    assert PairwiseAlike(a + x, m + n);
  }

  lemma AlikePermuted(a: seq<Select>, b: seq<Select>, c: seq<Select>)
    requires SelectsAlike(a, b) && multiset(b) == multiset(c)
    ensures SelectsAlike(a, c)
  {
    hide PairwiseAlike;
    var m :| multiset(m) == multiset(b) && PairwiseAlike(a, m);
    assert multiset(m) == multiset(c) && PairwiseAlike(a, m);
  }

  // ----- the rows do not depend on the order -----

  lemma {:induction false} SpotRowsAnyOrder(spots: seq<Spot>, a: seq<Clause>, b: seq<Clause>, p: Option<Projection>,
                                            level: nat, rel: string, cat: Catalog)
    requires SameClauses(a, b)
    ensures SpotRows(spots, a, p, level, rel, cat) == SpotRows(spots, b, p, level, rel, cat)
  {
    if spots != [] {
      hide Accepts, Projected, SameClauses;
      AcceptsAnyOrder(a, b, spots[0].obj, cat);
      SpotRowsAnyOrder(spots[1..], a, b, p, level, rel, cat);
    }
  }

  lemma SelectRowsAlike(s: Select, t: Select, roots: seq<Obj>, objects: seq<Obj>, cat: Catalog)
    requires SelectAlike(s, t)
    ensures SelectRows(s, roots, objects, cat) == SelectRows(t, roots, objects, cat)
  {
    hide SpotRows, SpotsOf, Envs, WalkSpots, Grow, Limited, SameClauses;
    match s
    case Joined(steps, child, path, where, projection, limit, level, rel) =>
      SpotRowsAnyOrder(SpotsOf(Envs(roots, steps, objects), child, path), where, t.where, projection, level, rel, cat);
    case Walked(_, _, _) =>
    case Attached(cte, join, where, projection, level, rel) =>
      SpotRowsAnyOrder(Grow(WalkSpots(cte, roots, objects), join, objects), where, t.where, projection, level,
                       rel, cat);
  }

  lemma {:induction false} UnionRowsPairwise(a: seq<Select>, b: seq<Select>, roots: seq<Obj>, objects: seq<Obj>,
                                             cat: Catalog)
    requires PairwiseAlike(a, b)
    ensures UnionRows(a, roots, objects, cat) == UnionRows(b, roots, objects, cat)
  {
    if a != [] {
      hide SelectAlike, SelectRows;
      SelectRowsAlike(a[0], b[0], roots, objects, cat);
      UnionRowsPairwise(a[1..], b[1..], roots, objects, cat);
    }
  }

  lemma UnionCons(s: Select, ss: seq<Select>, roots: seq<Obj>, objects: seq<Obj>, cat: Catalog)
    ensures UnionRows([s] + ss, roots, objects, cat)
            == SelectRows(s, roots, objects, cat) + UnionRows(ss, roots, objects, cat)
  {
    hide SelectRows;
    assert ([s] + ss)[1..] == ss;
  }

  lemma {:induction false} UnionBagConcat(a: seq<Select>, b: seq<Select>, roots: seq<Obj>, objects: seq<Obj>,
                                          cat: Catalog)
    ensures multiset(UnionRows(a + b, roots, objects, cat))
         == multiset(UnionRows(a, roots, objects, cat)) + multiset(UnionRows(b, roots, objects, cat))
  {
    hide SelectRows;
    if a == [] {
      assert a + b == b;
    } else {
      hide UnionRows;
      var s, tail := a[0], a[1..];
      assert a == [s] + tail && a + b == [s] + (tail + b);
      UnionCons(s, tail + b, roots, objects, cat);
      UnionCons(s, tail, roots, objects, cat);
      UnionBagConcat(tail, b, roots, objects, cat);
    }
  }

  lemma {:induction false} UnionRowsPermute(a: seq<Select>, b: seq<Select>, roots: seq<Obj>, objects: seq<Obj>,
                                            cat: Catalog)
    requires multiset(a) == multiset(b)
    ensures multiset(UnionRows(a, roots, objects, cat)) == multiset(UnionRows(b, roots, objects, cat))
    decreases |a|
  {
    if a == [] {
      assert b == [] by { assert |multiset(a)| == 0 && |multiset(b)| == |b|; }
    } else {
      hide UnionRows, SelectRows;
      var s, rest := a[0], a[1..];
      assert a == [s] + rest;
      var left, right := TakeOut(s, rest, b);
      UnionRowsPermute(rest, left + right, roots, objects, cat);
      UnionBagConcat([s], rest, roots, objects, cat);
      UnionBagConcat(left + [s], right, roots, objects, cat);
      UnionBagConcat(left, [s], roots, objects, cat);
      UnionBagConcat(left, right, roots, objects, cat);
    }
  }

  /** A plan whose branches and filters come in another order returns the same rows. */
  lemma PlanAnyOrder(p: Plan, q: Plan, projection: Option<Projection>, roots: seq<Obj>, objects: seq<Obj>, cat: Catalog)
    requires PlanAlike(p, q)
    ensures multiset(QueryRows(p, projection, roots, objects, cat))
            == multiset(QueryRows(q, projection, roots, objects, cat))
  {
    hide PairwiseAlike, UnionRows, SpotRows, RootSpots;
    var mid :| multiset(mid) == multiset(q.selects) && PairwiseAlike(p.selects, mid);
    UnionRowsPairwise(p.selects, mid, roots, objects, cat);
    UnionRowsPermute(mid, q.selects, roots, objects, cat);
  }

  // ----- the root clauses -----

  ghost predicate GroupAlike(c: Clause, d: Clause) {
    c.AllOf? && d.AllOf? && SameClauses(c.clauses, d.clauses)
  }

  ghost predicate GroupsAlike(a: seq<Clause>, b: seq<Clause>) {
    |a| == |b| && forall i :: 0 <= i < |a| ==> GroupAlike(a[i], b[i])
  }

  ghost function GroupedClause(groups: seq<Clause>): seq<Clause> {
    if groups != [] then [AnyOf(groups)] else []
  }

  /** The cluster conditions of a query. */
  ghost function ClusterClauses(q: QuerySpec): seq<Clause> {
    TextClause(ClusterColumn, q.clusterName) + ClusterLabelClauses(q.clusterLabels, Sorted(q.clusterLabels.Keys))
  }

  /** `where` is the root WHERE of the query, written in some order. */
  ghost predicate RootReordered(q: QuerySpec, where: seq<Clause>) {
    exists head, groups :: SameClauses(head, ClusterClauses(q)) && GroupsAlike(groups, EntryGroups(q.filters))
      && where == head + GroupedClause(groups)
  }

  lemma {:induction false} AnyOfGroups(groups: seq<Clause>, o: Obj, cat: Catalog)
    ensures EvalAny(groups, o, cat) == True <==> exists i :: 0 <= i < |groups| && Eval(groups[i], o, cat) == True
  {
    hide Eval;
    if groups != [] {
      AnyOfGroups(groups[1..], o, cat);
      if i :| 0 <= i < |groups| && Eval(groups[i], o, cat) == True {
        assert i > 0 ==> groups[1..][i - 1] == groups[i];
      }
      if i :| 0 <= i < |groups[1..]| && Eval(groups[1..][i], o, cat) == True {
        assert groups[i + 1] == groups[1..][i];
      }
    }
  }

  lemma GroupSame(c: Clause, d: Clause, o: Obj, cat: Catalog)
    requires GroupAlike(c, d)
    ensures Eval(c, o, cat) == True <==> Eval(d, o, cat) == True
  {
    hide SameClauses;
    AcceptsAnyOrder(c.clauses, d.clauses, o, cat);
  }

  lemma GroupsSame(a: seq<Clause>, b: seq<Clause>, o: Obj, cat: Catalog)
    requires GroupsAlike(a, b)
    ensures Accepts(GroupedClause(a), o, cat) <==> Accepts(GroupedClause(b), o, cat)
  {
    hide EvalAny, GroupAlike;
    AnyOfGroups(a, o, cat);
    AnyOfGroups(b, o, cat);
    forall i | 0 <= i < |a|
      ensures Eval(a[i], o, cat) == True <==> Eval(b[i], o, cat) == True
    {
      GroupSame(a[i], b[i], o, cat);
    }
    if a != [] {
      AcceptsOne(AnyOf(a), o, cat);
      AcceptsOne(AnyOf(b), o, cat);
      assert Eval(AnyOf(a), o, cat) == EvalAny(a, o, cat) && Eval(AnyOf(b), o, cat) == EvalAny(b, o, cat);
    }
  }

  /** Whatever order it is written in, the root WHERE is true of the same objects. */
  lemma RootAnyOrder(q: QuerySpec, where: seq<Clause>, o: Obj, cat: Catalog)
    requires RootReordered(q, where)
    ensures Accepts(where, o, cat) <==> Accepts(RootClauses(q), o, cat)
  {
    hide Accepts, SameClauses, GroupsAlike, EntryGroups, TextClause, ClusterLabelClauses;
    var head, groups :| SameClauses(head, ClusterClauses(q)) && GroupsAlike(groups, EntryGroups(q.filters))
                        && where == head + GroupedClause(groups);
    AcceptsConcat(head, GroupedClause(groups), o, cat);
    AcceptsConcat(ClusterClauses(q), GroupedClause(EntryGroups(q.filters)), o, cat);
    AcceptsAnyOrder(head, ClusterClauses(q), o, cat);
    GroupsSame(groups, EntryGroups(q.filters), o, cat);
  }
}
