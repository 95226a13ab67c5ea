/** The answer to a spec without transitive relations, written as one plain recursion over
    objects: no rows, paths, joins or queue. The pipeline computes exactly this. */
module Reference {
  import opened Options
  import opened Text
  import opened Objects
  import opened Spec
  import opened Paths
  import opened Relations
  import opened Filters
  import opened Projections
  import opened Assembly
  import opened Forest
  import opened Reassembly
  import opened Generator
  import opened Meaning
  import opened Compile
  import opened PlanShape
  import opened EndToEnd

  /** The objects a block's filters let through. */
  ghost function Kept(w: World, xs: seq<Obj>, name: string, spec: RelationSpec): seq<Obj> {
    if xs == [] then []
    else (if Accepts(BlockClauses(name, spec), xs[0], w.cat) then [xs[0]] else []) + Kept(w, xs[1..], name, spec)
  }

  function InsertObj(x: Obj, xs: seq<Obj>): seq<Obj> {
    if xs == [] then [x]
    else if Less(Segment(xs[0]), Segment(x)) then [xs[0]] + InsertObj(x, xs[1..])
    else [x] + xs
  }

  function SortObjs(xs: seq<Obj>): seq<Obj> {
    if xs == [] then [] else InsertObj(xs[0], SortObjs(xs[1..]))
  }

  /** The objects that a relation block gives for `x`, in segment order. */
  ghost function FoundBelow(w: World, x: Obj, name: string, spec: RelationSpec, level: nat): seq<Obj> {
    if level > w.maxDepth then []
    else SortObjs(Kept(w, Matches(JoinFor(name, spec.filters), x, w.objects), name, spec))
  }

  /** The answer for one object: its fields, and for each relation that finds anything, the
      answers of the objects found. */
  ghost function Want(w: World, x: Obj, projected: Json, shape: Option<ObjectsSpec>, level: nat): ObjectResult
    decreases shape, 2
  {
    Presented(x, projected, shape, WantRelations(w, x, shape, level))
  }

  ghost function WantRelations(w: World, x: Obj, shape: Option<ObjectsSpec>,
                               level: nat): (m: map<string, seq<ObjectResult>>)
    decreases shape, 1
  {
    if shape.None? then map[]
    else map rel | rel in shape.value.relations && FoundBelow(w, x, rel, shape.value.relations[rel], level) != [] ::
           WantList(w, x, rel, shape.value.relations[rel], level)
  }

  ghost function WantList(w: World, x: Obj, rel: string, spec: RelationSpec, level: nat): seq<ObjectResult>
    decreases spec
  {
    var ys := FoundBelow(w, x, rel, spec, level);
    seq(|ys|, i requires 0 <= i < |ys| =>
      Want(w, ys[i], Projected(ShapeProjection(spec.objects), ys[i]), spec.objects, level + 1))
  }

  ghost function WantAll(w: World, roots: seq<Obj>, shape: Option<ObjectsSpec>): seq<ObjectResult> {
    var sorted := SortObjs(roots);
    seq(|sorted|, i requires 0 <= i < |sorted| =>
      Want(w, sorted[i], Projected(ShapeProjection(shape), sorted[i]), shape, 1))
  }

  // ----- the forest's answer is this one -----

  lemma {:induction false} KeptUnderConcat(a: seq<Tree>, b: seq<Tree>, rel: string)
    ensures KeptUnder(a + b, rel) == KeptUnder(a, rel) + KeptUnder(b, rel)
  {
    if a == [] {
      assert a + b == b;
    } else {
      hide KeptUnder;
      var t, tail := a[0], a[1..];
      assert a == [t] + tail && a + b == [t] + (tail + b);
      KeptUnderStep(t, tail + b, rel);
      KeptUnderStep(t, tail, rel);
      KeptUnderConcat(tail, b, rel);
      Regrouped([t], KeptUnder(tail, rel), KeptUnder(b, rel));
    }
  }

  lemma JoinTreesStep(w: World, x: Obj, xs: seq<Obj>, name: string, spec: RelationSpec, level: nat)
    ensures JoinTrees(w, [x] + xs, name, spec, level)
            == [JoinTree(w, x, name, spec, level)] + JoinTrees(w, xs, name, spec, level)
  {
    hide JoinTree;
    assert ([x] + xs)[1..] == xs;
  }

  lemma KeptUnderStep(t: Tree, ts: seq<Tree>, rel: string)
    ensures KeptUnder([t] + ts, rel) == if t.kept && t.rel == rel then [t] + KeptUnder(ts, rel) else KeptUnder(ts, rel)
  {
    assert ([t] + ts)[1..] == ts;
  }

  lemma JoinTreeFields(w: World, x: Obj, name: string, spec: RelationSpec, level: nat)
    ensures var t := JoinTree(w, x, name, spec, level);
      t.obj == x && t.rel == name && t.kept == Accepts(BlockClauses(name, spec), x, w.cat)
  {
    hide Beneath, Accepts, BlockClauses;
  }

  lemma KeptStep(w: World, x: Obj, xs: seq<Obj>, name: string, spec: RelationSpec)
    ensures Kept(w, [x] + xs, name, spec)
         == if Accepts(BlockClauses(name, spec), x, w.cat) then [x] + Kept(w, xs, name, spec)
              else Kept(w, xs, name, spec)
  {
    hide Accepts, BlockClauses;
    assert ([x] + xs)[1..] == xs;
  }

  lemma {:induction false} KeptJoinTrees(w: World, xs: seq<Obj>, name: string, spec: RelationSpec, level: nat,
                                         rel: string)
    ensures KeptUnder(JoinTrees(w, xs, name, spec, level), rel)
         == if rel == name then JoinTrees(w, Kept(w, xs, name, spec), name, spec, level) else []
  {
    if xs != [] {
      hide KeptUnder, JoinTrees, JoinTree, Accepts, BlockClauses, Kept;
      var x, tail := xs[0], xs[1..];
      assert xs == [x] + tail;
      KeptJoinTrees(w, tail, name, spec, level, rel);
      KeptStep(w, x, tail, name, spec);
      JoinTreesStep(w, x, tail, name, spec, level);
      JoinTreesStep(w, x, Kept(w, tail, name, spec), name, spec, level);
      KeptUnderStep(JoinTree(w, x, name, spec, level), JoinTrees(w, tail, name, spec, level), rel);
      JoinTreeFields(w, x, name, spec, level);
    }
  }

  /** The kept trees of one block. */
  ghost function KeptTrees(w: World, x: Obj, rel: string, spec: RelationSpec, level: nat): seq<Tree> {
    if level > w.maxDepth then []
    else JoinTrees(w, Kept(w, Matches(JoinFor(rel, spec.filters), x, w.objects), rel, spec), rel, spec, level)
  }

  lemma KeptRelated(w: World, x: Obj, name: string, spec: RelationSpec, level: nat, rel: string)
    requires !IsTransitive(name)
    ensures KeptUnder(Related(w, x, name, spec, level), rel) == if rel == name then KeptTrees(w, x, name, spec, level)
                                                                  else []
  {
    hide KeptUnder, JoinTrees, Matches, Kept, JoinFor;
    KeptUnderNone(rel);
    KeptJoinTrees(w, Matches(JoinFor(name, spec.filters), x, w.objects), name, spec, level, rel);
  }

  /** The kept objects of one relation among everything beneath `x`. */
  lemma {:induction false} KeptBeneath(w: World, x: Obj, shape: ObjectsSpec, names: seq<string>, level: nat,
                                       rel: string)
    requires forall k :: k in names ==> k in shape.relations && !IsTransitive(k)
    requires Ascending(names)
    ensures KeptUnder(BeneathNamed(w, x, shape, names, level), rel)
         == if rel in names then KeptTrees(w, x, rel, shape.relations[rel], level) else []
  {
    if names == [] {
      KeptUnderNone(rel);
    } else {
      var name, spec := names[0], shape.relations[names[0]];
      assert name !in names[1..] by { LessIrreflexive(name); }
      TailAscends(names);
      hide KeptUnder, Related, KeptTrees, Ascending, IsTransitive;
      KeptBeneath(w, x, shape, names[1..], level, rel);
      KeptUnderConcat(Related(w, x, name, spec, level), BeneathNamed(w, x, shape, names[1..], level), rel);
      KeptRelated(w, x, name, spec, level, rel);
      assert rel in names <==> rel == name || rel in names[1..];
    }
  }

  lemma KeptUnderNone(rel: string)
    ensures KeptUnder([], rel) == []
  {
  }

  lemma TailAscends(names: seq<string>)
    requires names != [] && Ascending(names)
    ensures Ascending(names[1..])
  {
  }

  lemma {:induction false} InsertTree(w: World, x: Obj, xs: seq<Obj>, name: string, spec: RelationSpec, level: nat)
    ensures Insert(JoinTree(w, x, name, spec, level), JoinTrees(w, xs, name, spec, level))
            == JoinTrees(w, InsertObj(x, xs), name, spec, level)
  {
    if xs == [] {
      assert [x][1..] == [];
    } else {
      hide JoinTrees, JoinTree, Segment, Less;
      var y, tail := xs[0], xs[1..];
      assert xs == [y] + tail;
      InsertTree(w, x, tail, name, spec, level);
      JoinTreesStep(w, y, tail, name, spec, level);
      JoinTreesStep(w, x, xs, name, spec, level);
      JoinTreesStep(w, y, InsertObj(x, tail), name, spec, level);
      JoinTreeFields(w, x, name, spec, level);
      JoinTreeFields(w, y, name, spec, level);
      assert JoinTrees(w, xs, name, spec, level)[1..] == JoinTrees(w, tail, name, spec, level);
    }
  }

  lemma {:induction false} SortTrees(w: World, xs: seq<Obj>, name: string, spec: RelationSpec, level: nat)
    ensures SortBySegment(JoinTrees(w, xs, name, spec, level)) == JoinTrees(w, SortObjs(xs), name, spec, level)
  {
    if xs != [] {
      hide JoinTrees, JoinTree, Insert, InsertObj;
      var x, tail := xs[0], xs[1..];
      assert xs == [x] + tail;
      SortTrees(w, tail, name, spec, level);
      JoinTreesStep(w, x, tail, name, spec, level);
      assert JoinTrees(w, xs, name, spec, level)[1..] == JoinTrees(w, tail, name, spec, level);
      InsertTree(w, x, SortObjs(tail), name, spec, level);
    }
  }

  lemma {:induction false} JoinTreesIndex(w: World, xs: seq<Obj>, name: string, spec: RelationSpec, level: nat)
    ensures |JoinTrees(w, xs, name, spec, level)| == |xs|
    ensures forall i :: 0 <= i < |xs|
              ==> JoinTrees(w, xs, name, spec, level)[i] == JoinTree(w, xs[i], name, spec, level)
  {
    if xs != [] {
      hide JoinTree;
      JoinTreesIndex(w, xs[1..], name, spec, level);
    }
  }

  /** Beneath `x` the kept objects of a relation, in segment order, are the objects found. */
  lemma SortedBeneath(w: World, x: Obj, shape: ObjectsSpec, level: nat, rel: string)
    requires forall k :: k in shape.relations ==> !IsTransitive(k)
    ensures SortBySegment(KeptUnder(Beneath(w, x, Some(shape), level), rel))
         == if rel in shape.relations then JoinTrees(w, FoundBelow(w, x, rel, shape.relations[rel], level), rel,
                                                     shape.relations[rel], level) else []
  {
    hide KeptUnder, JoinTrees, Matches, Kept, Ascending, JoinFor, SortObjs, BeneathNamed, IsTransitive;
    KeptBeneath(w, x, shape, Sorted(shape.relations.Keys), level, rel);
    if rel in shape.relations && level <= w.maxDepth {
      SortTrees(w, Kept(w, Matches(JoinFor(rel, shape.relations[rel].filters), x, w.objects), rel,
                        shape.relations[rel]), rel, shape.relations[rel], level);
    } else {
      assert SortBySegment([]) == [];
      NoJoinTrees(w, rel, level);
    }
  }

  lemma NoJoinTrees(w: World, rel: string, level: nat)
    ensures forall spec :: JoinTrees(w, [], rel, spec, level) == []
  {
  }

  lemma KeptRelsAre(kids: seq<Tree>, rel: string)
    ensures rel in KeptRels(kids) <==> SortBySegment(KeptUnder(kids, rel)) != []
  {
    var ts := KeptUnder(kids, rel);
    var sorted := SortBySegment(ts);
    if sorted != [] {
      assert sorted[0] in sorted;
    }
    if rel in KeptRels(kids) {
      var t :| t in kids && t.kept && t.rel == rel;
      assert t in sorted;
    }
  }

  lemma {:induction false} KidWanted(w: World, p: Place, x: Obj, shape: ObjectsSpec, level: nat, rel: string, i: nat)
    requires NoTransitive(Some(shape)) && rel in shape.relations
    requires p.tree.obj == x && p.tree.kids == Beneath(w, x, Some(shape), level)
    requires i < |FoundBelow(w, x, rel, shape.relations[rel], level)|
    ensures |RenderKids(p, rel, Some(shape))| == |FoundBelow(w, x, rel, shape.relations[rel], level)|
    ensures RenderKids(p, rel, Some(shape))[i] == WantList(w, x, rel, shape.relations[rel], level)[i]
    decreases shape, 0
  {
    hide Beneath, KeptUnder, SortBySegment, FoundBelow, JoinTrees, Render, Want;
    var spec := shape.relations[rel];
    var ys := FoundBelow(w, x, rel, spec, level);
    SortedBeneath(w, x, shape, level, rel);
    JoinTreesIndex(w, ys, rel, spec, level);
    RenderKidsIndex(p, rel, Some(shape), i);
    TreeWanted(w, Place(PathAt(p), JoinTree(w, ys[i], rel, spec, level)), ys[i], spec.objects, level + 1);
  }

  lemma {:induction false} KidsWanted(w: World, p: Place, x: Obj, shape: ObjectsSpec, level: nat, rel: string)
    requires NoTransitive(Some(shape)) && rel in shape.relations
    requires FoundBelow(w, x, rel, shape.relations[rel], level) != []
    requires p.tree.obj == x && p.tree.kids == Beneath(w, x, Some(shape), level)
    ensures RenderKids(p, rel, Some(shape)) == WantList(w, x, rel, shape.relations[rel], level)
    decreases shape, 1
  {
    hide Beneath, RenderKids, FoundBelow, Want;
    var a, b := RenderKids(p, rel, Some(shape)), WantList(w, x, rel, shape.relations[rel], level);
    KidWanted(w, p, x, shape, level, rel, 0);
    forall i | 0 <= i < |b|
      ensures a[i] == b[i]
    {
      KidWanted(w, p, x, shape, level, rel, i);
    }
  }

  lemma {:induction false} RelationsWanted(w: World, p: Place, x: Obj, shape: Option<ObjectsSpec>, level: nat)
    requires NoTransitive(shape)
    requires p.tree.obj == x && p.tree.kids == Beneath(w, x, shape, level)
    ensures RenderRelations(p, shape) == WantRelations(w, x, shape, level)
    decreases shape, 2
  {
    hide RenderKids, FoundBelow, WantList, KeptRels, KeptUnder, SortBySegment, JoinTrees;
    var a, b := RenderRelations(p, shape), WantRelations(w, x, shape, level);
    if shape.None? {
      assert p.tree.kids == [];
      assert a.Keys == {} by { NoKeptRels(); }
    } else {
      hide Beneath;
      forall rel
        ensures rel in a <==> rel in b
      {
        KeptRelsAre(p.tree.kids, rel);
        SortedBeneath(w, x, shape.value, level, rel);
        if rel in shape.value.relations {
          JoinTreesIndex(w, FoundBelow(w, x, rel, shape.value.relations[rel], level), rel, shape.value.relations[rel],
                         level);
        }
      }
      forall rel | rel in a
        ensures a[rel] == b[rel]
      {
        assert rel in b;
        KidsWanted(w, p, x, shape.value, level, rel);
      }
    }
  }

  lemma NoKeptRels()
    ensures KeptRels([]) == {}
  {
  }

  /** At the place of any object, the forest's answer is the plain recursive one. */
  lemma {:induction false} TreeWanted(w: World, p: Place, x: Obj, shape: Option<ObjectsSpec>, level: nat)
    requires NoTransitive(shape)
    requires p.tree.obj == x && p.tree.kids == Beneath(w, x, shape, level)
    ensures Render(p, shape) == Want(w, x, p.tree.projected, shape, level)
    decreases shape, 3
  {
    hide RenderRelations, WantRelations, Beneath;
    RelationsWanted(w, p, x, shape, level);
  }

  lemma {:induction false} AnswerIndex(w: World, roots: seq<Obj>, shape: Option<ObjectsSpec>)
    ensures |Answer(w, roots, shape)| == |roots|
    ensures forall i :: 0 <= i < |roots| ==> Answer(w, roots, shape)[i] == RootTree(w, roots[i], shape)
  {
    if roots != [] {
      hide Beneath;
      AnswerIndex(w, roots[1..], shape);
    }
  }

  ghost function RootTree(w: World, root: Obj, shape: Option<ObjectsSpec>): Tree {
    Node(root, Projected(ShapeProjection(shape), root), "", 0, true, Beneath(w, root, shape, 1))
  }

  lemma AnswerStepTree(w: World, root: Obj, roots: seq<Obj>, shape: Option<ObjectsSpec>)
    ensures Answer(w, [root] + roots, shape) == [RootTree(w, root, shape)] + Answer(w, roots, shape)
  {
    hide Beneath;
    assert ([root] + roots)[1..] == roots;
  }

  lemma RootTreeObj(w: World, root: Obj, shape: Option<ObjectsSpec>)
    ensures RootTree(w, root, shape).obj == root
  {
  }

  lemma {:induction false} InsertRoot(w: World, x: Obj, xs: seq<Obj>, shape: Option<ObjectsSpec>)
    ensures Insert(RootTree(w, x, shape), Answer(w, xs, shape)) == Answer(w, InsertObj(x, xs), shape)
  {
    hide RootTree;
    if xs == [] {
      AnswerStepTree(w, x, [], shape);
      assert [x] + [] == [x];
    } else {
      hide Answer, Segment, Less;
      var y, tail := xs[0], xs[1..];
      assert xs == [y] + tail;
      InsertRoot(w, x, tail, shape);
      AnswerStepTree(w, y, tail, shape);
      AnswerStepTree(w, x, xs, shape);
      AnswerStepTree(w, y, InsertObj(x, tail), shape);
      RootTreeObj(w, x, shape);
      RootTreeObj(w, y, shape);
      assert Answer(w, xs, shape)[1..] == Answer(w, tail, shape);
    }
  }

  lemma {:induction false} SortRoots(w: World, xs: seq<Obj>, shape: Option<ObjectsSpec>)
    ensures SortBySegment(Answer(w, xs, shape)) == Answer(w, SortObjs(xs), shape)
  {
    if xs != [] {
      hide Answer, RootTree, Insert, InsertObj;
      var x, tail := xs[0], xs[1..];
      assert xs == [x] + tail;
      SortRoots(w, tail, shape);
      AnswerStepTree(w, x, tail, shape);
      assert Answer(w, xs, shape)[1..] == Answer(w, tail, shape);
      InsertRoot(w, x, SortObjs(tail), shape);
    }
  }

  lemma ForestWanted(w: World, roots: seq<Obj>, shape: Option<ObjectsSpec>)
    requires NoTransitive(shape)
    ensures RenderForest(Answer(w, roots, shape), shape) == WantAll(w, roots, shape)
  {
    hide Answer, SortBySegment, Render, Want, Beneath, NoTransitive, SortObjs;
    var sorted := SortObjs(roots);
    SortRoots(w, roots, shape);
    AnswerIndex(w, sorted, shape);
    forall i | 0 <= i < |sorted|
      ensures RenderForest(Answer(w, roots, shape), shape)[i] == WantAll(w, roots, shape)[i]
    {
      TreeWanted(w, Place("", RootTree(w, sorted[i], shape)), sorted[i], shape, 1);
    }
  }

  /** The main theorem for specs without transitive relations: generating, evaluating, ordering by
      path and assembling gives, for every object, each relation's objects that pass its filters,
      in segment order, down to the depth limit. */
  lemma PipelineComputesReference(w: World, roots: seq<Obj>, shape: Option<ObjectsSpec>, rows: seq<Row>)
    requires NoTransitive(shape) && Unlimited(shape)
    requires DistinctPaths(Places("", Answer(w, roots, shape)))
    requires DotFreeBelow(Answer(w, roots, shape))
    requires PlanFor(shape, w.maxDepth).Generated? ==>
      Answered(w, PlanFor(shape, w.maxDepth).plan, roots, shape, rows)
    ensures Pathed(rows)
    ensures Assembled(rows, shape) == WantAll(w, roots, shape)
  {
    hide NoTransitive, Unlimited, PlanFor, DistinctPaths, Places, Answer, DotFreeBelow, Answered,
         Assembled, WantAll, RenderForest, Pathed;
    OneBranchPerBlock(shape, w.maxDepth);
    QueryAnswersSpec(w, roots, shape, rows);
    ForestWanted(w, roots, shape);
  }
}
