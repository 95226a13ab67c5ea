/** From a relation spec to the nested answer: generate, evaluate, sort by path, assemble. */
module EndToEnd {
  import opened Options
  import opened Text
  import opened Objects
  import opened Spec
  import opened Relations
  import opened Filters
  import opened Assembly
  import opened Forest
  import opened Reassembly
  import opened Plans
  import opened Generator
  import opened Meaning
  import opened Compile
  import opened PlanShape

  // ----- levels -----

  /** Every tree here, at every depth, is below the root level. */
  ghost predicate BelowRoots(ts: seq<Tree>)
    decreases ts
  {
    forall i :: 0 <= i < |ts| ==> ts[i].level != 0 && BelowRoots(ts[i].kids)
  }

  lemma BelowRootsConcat(a: seq<Tree>, b: seq<Tree>)
    requires BelowRoots(a) && BelowRoots(b)
    ensures BelowRoots(a + b)
  {
  }

  lemma {:induction false} BeneathIsBelow(w: World, o: Obj, shape: Option<ObjectsSpec>, level: nat)
    requires level > 0
    ensures BelowRoots(Beneath(w, o, shape, level))
    decreases shape, 1, 0
  {
    if shape.Some? {
      NamedIsBelow(w, o, shape.value, Sorted(shape.value.relations.Keys), level);
    }
  }

  lemma {:induction false} NamedIsBelow(w: World, o: Obj, shape: ObjectsSpec, names: seq<string>, level: nat)
    requires level > 0 && forall k :: k in names ==> k in shape.relations
    ensures BelowRoots(BeneathNamed(w, o, shape, names, level))
    decreases shape, 1, |names|
  {
    if names != [] {
      hide BelowRoots, Related;
      RelatedIsBelow(w, o, names[0], shape.relations[names[0]], level);
      NamedIsBelow(w, o, shape, names[1..], level);
      BelowRootsConcat(Related(w, o, names[0], shape.relations[names[0]], level),
                       BeneathNamed(w, o, shape, names[1..], level));
    }
  }

  lemma {:induction false} RelatedIsBelow(w: World, o: Obj, name: string, spec: RelationSpec, level: nat)
    requires level > 0
    ensures BelowRoots(Related(w, o, name, spec, level))
    decreases spec, 2, 0
  {
    hide JoinTrees, WalkTrees;
    if level <= w.maxDepth {
      if !IsTransitive(name) {
        JoinsAreBelow(w, Matches(JoinFor(BaseRelation(name), spec.filters), o, w.objects), name, spec, level);
      } else if BaseOf(BaseRelation(name)).Some? {
        var base := BaseOf(BaseRelation(name)).value;
        WalksAreBelow(w, base, name, spec, level, Followers(base, o, w.objects), [], 1);
      }
    }
  }

  lemma {:induction false} JoinsAreBelow(w: World, xs: seq<Obj>, name: string, spec: RelationSpec, level: nat)
    requires level > 0
    ensures BelowRoots(JoinTrees(w, xs, name, spec, level))
    decreases spec, 1, |xs|
  {
    if xs != [] {
      hide Beneath, Accepts, BlockClauses;
      BeneathIsBelow(w, xs[0], spec.objects, level + 1);
      JoinsAreBelow(w, xs[1..], name, spec, level);
      BelowRootsConcat([JoinTree(w, xs[0], name, spec, level)], JoinTrees(w, xs[1..], name, spec, level));
    }
  }

  lemma {:induction false} WalksAreBelow(w: World, base: Base, name: string, spec: RelationSpec, level: nat,
                                         xs: seq<Obj>, visited: seq<string>, depth: int)
    requires level > 0
    ensures BelowRoots(WalkTrees(w, base, name, spec, level, xs, visited, depth))
    decreases if depth <= w.maxDepth then w.maxDepth - depth + 1 else 0, |xs|
  {
    if xs != [] {
      hide WalkTree, BelowRoots;
      var rest := WalkTrees(w, base, name, spec, level, xs[1..], visited, depth);
      WalksAreBelow(w, base, name, spec, level, xs[1..], visited, depth);
      if xs[0].uid !in visited {
        WalkIsBelow(w, base, name, spec, level, xs[0], visited + [xs[0].uid], depth);
        BelowRootsConcat([WalkTree(w, base, name, spec, level, xs[0], visited + [xs[0].uid], depth)], rest);
      } else {
        assert [] + rest == rest;
      }
    }
  }

  lemma {:induction false} WalkIsBelow(w: World, base: Base, name: string, spec: RelationSpec, level: nat,
                                       x: Obj, visited: seq<string>, depth: int)
    requires level > 0
    ensures BelowRoots([WalkTree(w, base, name, spec, level, x, visited, depth)])
    decreases if depth <= w.maxDepth then w.maxDepth - depth + 1 else 0, 0
  {
    hide WalkTrees, Subs;
    var xs := Followers(base, x, w.objects);
    var onward := if depth < w.maxDepth then WalkTrees(w, base, name, spec, level, xs, visited, depth + 1) else [];
    if depth < w.maxDepth {
      WalksAreBelow(w, base, name, spec, level, xs, visited, depth + 1);
    }
    SubsAreBelow(w, x, spec.objects, level + 1);
    BelowRootsConcat(onward, Subs(w, x, spec.objects, level + 1));
  }

  lemma SubsAreBelow(w: World, x: Obj, shape: Option<ObjectsSpec>, level: nat)
    requires level > 0
    ensures BelowRoots(Subs(w, x, shape, level))
  {
    if shape.Some? {
      NamedSubsAreBelow(w, x, shape.value, Sorted(shape.value.relations.Keys), level);
    }
  }

  lemma {:induction false} NamedSubsAreBelow(w: World, x: Obj, shape: ObjectsSpec, names: seq<string>, level: nat)
    requires level > 0 && forall k :: k in names ==> k in shape.relations
    ensures BelowRoots(SubsNamed(w, x, shape, names, level))
  {
    if names != [] {
      hide BelowRoots, SubTrees, Matches;
      var rest := SubsNamed(w, x, shape, names[1..], level);
      NamedSubsAreBelow(w, x, shape, names[1..], level);
      if IsTransitive(names[0]) {
        assert [] + rest == rest;
      } else {
        var ys := Matches(JoinFor(BaseRelation(names[0]), shape.relations[names[0]].filters), x, w.objects);
        SubTreesAreBelow(w, ys, names[0], shape.relations[names[0]], level);
        BelowRootsConcat(SubTrees(w, ys, names[0], shape.relations[names[0]], level), rest);
      }
    }
  }

  lemma {:induction false} SubTreesAreBelow(w: World, ys: seq<Obj>, name: string, spec: RelationSpec, level: nat)
    requires level > 0
    ensures BelowRoots(SubTrees(w, ys, name, spec, level))
  {
    if ys != [] {
      hide Accepts, BlockClauses;
      SubTreesAreBelow(w, ys[1..], name, spec, level);
    }
  }

  lemma {:induction false} PlacedBelow(under: string, ts: seq<Tree>, p: Place)
    requires p in Places(under, ts) && BelowRoots(ts)
    ensures p.tree.level != 0 && BelowRoots(p.tree.kids)
    decreases ts
  {
    var here := Place(under, ts[0]);
    if p != here {
      if p in Places(PathAt(here), ts[0].kids) {
        PlacedBelow(PathAt(here), ts[0].kids, p);
      } else {
        PlacedBelow(under, ts[1..], p);
      }
    }
  }

  lemma {:induction false} AnswerRoots(w: World, roots: seq<Obj>, shape: Option<ObjectsSpec>)
    ensures forall t :: t in Answer(w, roots, shape) ==> t.level == 0 && t.kept && BelowRoots(t.kids)
  {
    if roots != [] {
      hide Beneath, BelowRoots;
      AnswerRoots(w, roots[1..], shape);
      BeneathIsBelow(w, roots[0], shape, 1);
    }
  }

  /** Each place has only kids below the root level. */
  lemma {:induction false} PlacesKids(under: string, ts: seq<Tree>, p: Place)
    requires p in Places(under, ts) && forall t :: t in ts ==> BelowRoots(t.kids)
    ensures BelowRoots(p.tree.kids)
    decreases ts
  {
    var here := Place(under, ts[0]);
    if p != here {
      if p in Places(PathAt(here), ts[0].kids) {
        PlacedBelow(PathAt(here), ts[0].kids, p);
      } else {
        PlacesKids(under, ts[1..], p);
      }
    }
  }

  lemma AnswerIsWellLevelled(w: World, roots: seq<Obj>, shape: Option<ObjectsSpec>)
    ensures WellLevelled(Answer(w, roots, shape))
  {
    hide Answer, Places;
    var ts := Answer(w, roots, shape);
    AnswerRoots(w, roots, shape);
    forall p, q | p in Places("", ts) && KidOf(p, q)
      ensures q.tree.level != 0
    {
      PlacesKids("", ts, p);
    }
  }

  // ----- what ORDER BY path returns -----

  /** `rows` is a result of ordering `unordered` by path: the same rows, none before a smaller path. */
  ghost predicate OrderedByPath(rows: seq<Row>, unordered: seq<Row>) {
    && multiset(rows) == multiset(unordered)
    && forall i, j :: 0 <= i < j < |rows| ==> !Less(rows[j].path, rows[i].path)
  }

  ghost predicate DistinctRowPaths(rows: seq<Row>) {
    forall i, j :: 0 <= i < j < |rows| ==> rows[i].path != rows[j].path
  }

  lemma {:induction false} RowsKeepDistinct(ps: seq<Place>)
    requires DistinctPaths(ps)
    ensures DistinctRowPaths(Rows(ps))
  {
    if ps != [] {
      RowsKeepDistinct(ps[1..]);
      forall r | r in Rows(ps[1..])
        ensures r.path != PathAt(ps[0])
      {
        RowsMembers(ps[1..], r);
      }
    }
  }

  lemma {:induction false} DistinctOnce(rows: seq<Row>, r: Row)
    requires DistinctRowPaths(rows)
    ensures multiset(rows)[r] <= 1
  {
    if rows != [] {
      DistinctOnce(rows[1..], r);
      assert rows == [rows[0]] + rows[1..];
      if r == rows[0] {
        assert r !in rows[1..];
      }
    }
  }

  lemma TwiceCounts(rows: seq<Row>, i: nat, j: nat)
    requires i < j < |rows| && rows[i] == rows[j]
    ensures multiset(rows)[rows[i]] >= 2
  {
    assert rows == rows[..j] + rows[j..];
    assert rows[i] in rows[..j] && rows[i] in rows[j..];
  }

  lemma PermutationKeepsDistinct(rows: seq<Row>, unordered: seq<Row>, i: nat, j: nat)
    requires multiset(rows) == multiset(unordered) && DistinctRowPaths(unordered) && i < j < |rows|
    ensures rows[i].path != rows[j].path
  {
    if rows[i].path == rows[j].path {
      assert rows[i] in multiset(unordered) && rows[j] in multiset(unordered);
      var x :| 0 <= x < |unordered| && unordered[x] == rows[i];
      var y :| 0 <= y < |unordered| && unordered[y] == rows[j];
      assert x == y;
      DistinctOnce(unordered, rows[i]);
      TwiceCounts(rows, i, j);
    }
  }

  lemma OrderedIsStrict(rows: seq<Row>, unordered: seq<Row>)
    requires OrderedByPath(rows, unordered) && DistinctRowPaths(unordered)
    ensures ByPath(rows)
  {
    forall i, j | 0 <= i < j < |rows|
      ensures Less(rows[i].path, rows[j].path)
    {
      PermutationKeepsDistinct(rows, unordered, i, j);
      LessTotal(rows[i].path, rows[j].path);
    }
  }

  /** The database runs the plan without error and returns these rows in path order. */
  ghost predicate Answered(w: World, plan: Plan, roots: seq<Obj>, shape: Option<ObjectsSpec>, rows: seq<Row>) {
    var answer := Executed(plan, ShapeProjection(shape), roots, w.objects, w.cat);
    answer.Some? && OrderedByPath(rows, answer.value)
  }

  lemma RowsAnswerSpec(w: World, roots: seq<Obj>, shape: Option<ObjectsSpec>, rows: seq<Row>)
    requires Unlimited(shape) && PlanFor(shape, w.maxDepth).Generated? && TrailsPlain(w, shape)
    requires DistinctPaths(Places("", Answer(w, roots, shape)))
    requires DotFreeBelow(Answer(w, roots, shape))
    requires OrderedByPath(rows,
                           QueryRows(PlanFor(shape, w.maxDepth).plan, ShapeProjection(shape), roots, w.objects, w.cat))
    ensures Pathed(rows)
    ensures Assembled(rows, shape) == RenderForest(Answer(w, roots, shape), shape)
  {
    hide QueryRows, Answer, Places, Rows, DotFreeBelow, DistinctPaths, Unlimited, WellLevelled, Assembled,
         RenderForest, PlanFor, ByPath, Pathed, DistinctRowPaths, TrailsPlain;
    var ts := Answer(w, roots, shape);
    var flat := Rows(Places("", ts));
    BranchesCompute(w, roots, shape);
    RowsKeepDistinct(Places("", ts));
    OrderedIsStrict(rows, flat);
    AnswerIsWellLevelled(w, roots, shape);
    SameMembers(rows, flat);
    AssemblyUndoesFlattening(rows, ts, shape);
  }

  /** The end-to-end theorem. For every spec the generator accepts without relation limits, all
      stored data and roots such that no two joined objects share a path and no object below a
      root has a dot in its kind, namespace or name, and such that stored UIDs are plain if a block is
      transitive: whenever the database answers the generated query, and however it orders the rows of
      one path, assembling them gives exactly the answer of the recursive reading of the spec.
      Filters may stand on any block; `CompiledCorrectly` says when the database answers. */
  lemma QueryAnswersSpec(w: World, roots: seq<Obj>, shape: Option<ObjectsSpec>, rows: seq<Row>)
    requires Unlimited(shape) && PlanFor(shape, w.maxDepth).Generated? && TrailsPlain(w, shape)
    requires DistinctPaths(Places("", Answer(w, roots, shape)))
    requires DotFreeBelow(Answer(w, roots, shape))
    requires Answered(w, PlanFor(shape, w.maxDepth).plan, roots, shape, rows)
    ensures Pathed(rows)
    ensures Assembled(rows, shape) == RenderForest(Answer(w, roots, shape), shape)
  {
    hide QueryRows, Answer, Places, DotFreeBelow, DistinctPaths, Unlimited, Assembled, RenderForest, PlanFor, Pathed,
         OrderedByPath, TrailsPlain, AllRunnable, SelectorsSafe;
    RowsAnswerSpec(w, roots, shape, rows);
  }

  lemma SameMembers(a: seq<Row>, b: seq<Row>)
    requires multiset(a) == multiset(b)
    ensures forall r :: r in a <==> r in b
  {
    forall r
      ensures r in a <==> r in b
    {
      assert r in a <==> r in multiset(a);
      assert r in b <==> r in multiset(b);
    }
  }
}
