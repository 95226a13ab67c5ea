/** The branches that read from a CTE contribute exactly what is attached to its rows. */
module Attachments {
  import opened Options
  import opened Text
  import opened Objects
  import opened Spec
  import opened Paths
  import opened Relations
  import opened Filters
  import opened Projections
  import opened Assembly
  import opened Forest
  import opened Plans
  import opened Reordering
  import opened Generator
  import opened Meaning
  import opened Bags
  import opened Walks

  /** The rows of one attached branch. */
  ghost function AttachBag(w: World, spots: seq<Spot>, name: string, spec: RelationSpec, level: nat): multiset<Row> {
    if IsTransitive(name) then multiset{}
    else multiset(SpotRows(Grow(spots, JoinFor(BaseRelation(name), spec.filters), w.objects),
                           BlockClauses(name, spec), ShapeProjection(spec.objects), level, name, w.cat))
  }

  lemma AttachBagConcat(w: World, a: seq<Spot>, b: seq<Spot>, name: string, spec: RelationSpec, level: nat)
    ensures AttachBag(w, a + b, name, spec, level)
            == AttachBag(w, a, name, spec, level) + AttachBag(w, b, name, spec, level)
    ensures AttachBag(w, [], name, spec, level) == multiset{}
  {
    hide BlockClauses;
    var j := JoinFor(BaseRelation(name), spec.filters);
    GrowConcat(a, b, j, w.objects);
    SpotRowsConcat(Grow(a, j, w.objects), Grow(b, j, w.objects), BlockClauses(name, spec),
                   ShapeProjection(spec.objects), level, name, w.cat);
  }

  ghost function SubTree(w: World, y: Obj, name: string, spec: RelationSpec, level: nat): Tree {
    Node(y, Projected(ShapeProjection(spec.objects), y), name, level, Accepts(BlockClauses(name, spec), y, w.cat), [])
  }

  lemma SubTreesStep(w: World, y: Obj, ys: seq<Obj>, name: string, spec: RelationSpec, level: nat)
    ensures SubTrees(w, [y] + ys, name, spec, level)
            == [SubTree(w, y, name, spec, level)] + SubTrees(w, ys, name, spec, level)
  {
    hide Projected, Accepts, BlockClauses;
    assert ([y] + ys)[1..] == ys;
  }

  lemma SubTreeRow(w: World, path: string, y: Obj, name: string, spec: RelationSpec, level: nat)
    ensures multiset(SpotRow(Spot(path, y), BlockClauses(name, spec), ShapeProjection(spec.objects), level, name,
                             w.cat))
         == RowBag(path, SubTree(w, y, name, spec, level))
    ensures SubTree(w, y, name, spec, level).obj == y
    ensures Bag(path, SubTree(w, y, name, spec, level).kids) == multiset{}
  {
    hide Projected, Accepts, BlockClauses;
  }

  lemma {:induction false} SubTreesBag(w: World, s: Spot, ys: seq<Obj>, name: string, spec: RelationSpec, level: nat)
    ensures Bag(s.path, SubTrees(w, ys, name, spec, level))
         == multiset(SpotRows(Reach(s, ys), BlockClauses(name, spec), ShapeProjection(spec.objects), level, name,
                              w.cat))
  {
    if ys != [] {
      hide Bag, SubTrees, SpotRows, SpotRow, SubTree, RowBag, BlockClauses, Segment;
      var y, tail := ys[0], ys[1..];
      assert ys == [y] + tail;
      SubTreesBag(w, s, tail, name, spec, level);
      SubTreesStep(w, y, tail, name, spec, level);
      SubTreeRow(w, s.path + Segment(y), y, name, spec, level);
      BagStep(s.path, SubTree(w, y, name, spec, level), SubTrees(w, tail, name, spec, level));
      SpotRowsStep(Spot(s.path + Segment(y), y), Reach(s, tail), BlockClauses(name, spec),
                   ShapeProjection(spec.objects), level, name, w.cat);
    }
  }

  ghost function AttachedBag(w: World, spots: seq<Spot>, shape: ObjectsSpec, names: seq<string>,
                             level: nat): multiset<Row>
    requires forall k :: k in names ==> k in shape.relations
  {
    if names == [] then multiset{}
    else
      AttachBag(w, spots, names[0], shape.relations[names[0]], level) + AttachedBag(w, spots, shape, names[1..], level)
  }

  lemma {:induction false} AttachedBagConcat(w: World, a: seq<Spot>, b: seq<Spot>, shape: ObjectsSpec,
                                             names: seq<string>, level: nat)
    requires forall k :: k in names ==> k in shape.relations
    ensures AttachedBag(w, a + b, shape, names, level)
            == AttachedBag(w, a, shape, names, level) + AttachedBag(w, b, shape, names, level)
    ensures AttachedBag(w, [], shape, names, level) == multiset{}
  {
    hide AttachBag;
    if names != [] {
      AttachedBagConcat(w, a, b, shape, names[1..], level);
      AttachBagConcat(w, a, b, names[0], shape.relations[names[0]], level);
    }
  }

  lemma AttachBagOne(w: World, s: Spot, name: string, spec: RelationSpec, level: nat)
    requires !IsTransitive(name)
    ensures AttachBag(w, [s], name, spec, level)
         == Bag(s.path,
                SubTrees(w, Matches(JoinFor(BaseRelation(name), spec.filters), s.obj, w.objects), name, spec, level))
  {
    hide BlockClauses, Bag, SubTrees, Matches, Reach, SpotRows;
    var j := JoinFor(BaseRelation(name), spec.filters);
    SubTreesBag(w, s, Matches(j, s.obj, w.objects), name, spec, level);
    GrowStep(s, [], j, w.objects);
    assert [s] + [] == [s];
    assert Reach(s, Matches(j, s.obj, w.objects)) + [] == Reach(s, Matches(j, s.obj, w.objects));
  }

  lemma {:induction false} AttachedBagOne(w: World, s: Spot, shape: ObjectsSpec, names: seq<string>, level: nat)
    requires forall k :: k in names ==> k in shape.relations
    ensures AttachedBag(w, [s], shape, names, level) == Bag(s.path, SubsNamed(w, s.obj, shape, names, level))
  {
    if names != [] {
      hide AttachBag, Bag, SubTrees, Matches;
      var name, spec := names[0], shape.relations[names[0]];
      AttachedBagOne(w, s, shape, names[1..], level);
      if IsTransitive(name) {
        assert AttachBag(w, [s], name, spec, level) == multiset{} by { AttachBagNone(w, [s], name, spec, level); }
        assert [] + SubsNamed(w, s.obj, shape, names[1..], level) == SubsNamed(w, s.obj, shape, names[1..], level);
      } else {
        AttachBagOne(w, s, name, spec, level);
        BagConcat(s.path,
                  SubTrees(w, Matches(JoinFor(BaseRelation(name), spec.filters), s.obj, w.objects), name, spec, level),
                  SubsNamed(w, s.obj, shape, names[1..], level));
      }
    }
  }

  lemma AttachBagNone(w: World, spots: seq<Spot>, name: string, spec: RelationSpec, level: nat)
    requires IsTransitive(name)
    ensures AttachBag(w, spots, name, spec, level) == multiset{}
  {
  }

  /** Summed over the CTE's spots, the attachments are what the attached branches select. */
  lemma {:induction false} SubsAreAttached(w: World, spots: seq<Spot>, shape: ObjectsSpec, level: nat)
    ensures SubsBag(w, spots, Some(shape), level) == AttachedBag(w, spots, shape, Sorted(shape.relations.Keys), level)
  {
    hide AttachedBag, Bag, SubsNamed, Ascending;
    var names := Sorted(shape.relations.Keys);
    AttachedBagConcat(w, [], [], shape, names, level);
    if spots != [] {
      var s, tail := spots[0], spots[1..];
      SubsAreAttached(w, tail, shape, level);
      AttachedBagOne(w, s, shape, names, level);
      AttachedBagConcat(w, [s], tail, shape, names, level);
      assert spots == [s] + tail;
    }
  }

  lemma SelectRowsAttached(w: World, cte: Cte, roots: seq<Obj>, name: string, spec: RelationSpec, level: nat)
    requires !IsTransitive(name)
    ensures multiset(SelectRows(Attached(cte, JoinFor(BaseRelation(name), spec.filters), BlockClauses(name, spec),
                                         ShapeProjection(spec.objects), level, name),
                                roots, w.objects, w.cat))
         == AttachBag(w, WalkSpots(cte, roots, w.objects), name, spec, level)
  {
    hide WalkSpots, BlockClauses, Grow, SpotRows;
  }

  lemma AttachedOneRows(w: World, cte: Cte, roots: seq<Obj>, name: string, spec: RelationSpec, level: nat)
    ensures multiset(UnionRows(AttachedOne(cte, name, spec, level), roots, w.objects, w.cat))
         == AttachBag(w, WalkSpots(cte, roots, w.objects), name, spec, level)
  {
    hide SelectRows, WalkSpots, AttachBag, BlockClauses;
    if IsTransitive(name) {
      AttachBagNone(w, WalkSpots(cte, roots, w.objects), name, spec, level);
    } else {
      var s := AttachedOne(cte, name, spec, level)[0];
      SelectRowsAttached(w, cte, roots, name, spec, level);
      UnionCons(s, [], roots, w.objects, w.cat);
      assert [s] + [] == AttachedOne(cte, name, spec, level);
    }
  }

  lemma {:induction false} AttachedRows(w: World, cte: Cte, roots: seq<Obj>, shape: ObjectsSpec, names: seq<string>,
                                        level: nat)
    requires forall k :: k in names ==> k in shape.relations
    ensures multiset(UnionRows(AttachedFor(cte, shape, names, level), roots, w.objects, w.cat))
         == AttachedBag(w, WalkSpots(cte, roots, w.objects), shape, names, level)
  {
    if names != [] {
      hide WalkSpots, AttachBag, UnionRows, AttachedOne;
      var name, spec := names[0], shape.relations[names[0]];
      AttachedRows(w, cte, roots, shape, names[1..], level);
      AttachedOneRows(w, cte, roots, name, spec, level);
      UnionBagConcat(AttachedOne(cte, name, spec, level), AttachedFor(cte, shape, names[1..], level), roots, w.objects,
                     w.cat);
    }
  }

  /** The sub-relation branches of a transitive block select what is attached to the CTE's rows. */
  lemma SubSelectsBag(w: World, cte: Cte, roots: seq<Obj>, shape: Option<ObjectsSpec>, level: nat)
    ensures multiset(UnionRows(SubSelects(cte, shape, level), roots, w.objects, w.cat))
         == SubsBag(w, WalkSpots(cte, roots, w.objects), shape, level)
  {
    hide WalkSpots, AttachedFor, AttachedBag;
    var spots := WalkSpots(cte, roots, w.objects);
    if shape.Some? {
      SubsAreAttached(w, spots, shape.value, level);
      AttachedRows(w, cte, roots, shape.value, Sorted(shape.value.relations.Keys), level);
    } else {
      NoSubs(w, spots, level);
    }
  }

  lemma {:induction false} NoSubs(w: World, spots: seq<Spot>, level: nat)
    ensures SubsBag(w, spots, None, level) == multiset{}
  {
    if spots != [] {
      NoSubs(w, spots[1..], level);
    }
  }
}
