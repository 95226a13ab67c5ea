/** Bags of rows: the rows of a relation forest counted with multiplicity, summed over spots. */
module Bags {
  import opened Options
  import opened Text
  import opened Objects
  import opened Spec
  import opened Paths
  import opened Relations
  import opened Filters
  import opened Projections
  import opened Assembly
  import opened Forest
  import opened Plans
  import opened Generator
  import opened Meaning

  function RowBag(path: string, t: Tree): multiset<Row> {
    if t.kept then multiset{Row(t.obj, t.projected, path, t.level, t.rel)} else multiset{}
  }

  /** The kept rows of a forest that hangs under `under`. */
  function Bag(under: string, ts: seq<Tree>): multiset<Row>
    decreases ts
  {
    if ts == [] then multiset{}
    else
      var path := under + Segment(ts[0].obj);
      RowBag(path, ts[0]) + Bag(path, ts[0].kids) + Bag(under, ts[1..])
  }

  lemma {:induction false} BagIsRows(under: string, ts: seq<Tree>)
    ensures Bag(under, ts) == multiset(Rows(Places(under, ts)))
    decreases ts
  {
    if ts != [] {
      var here := Place(under, ts[0]);
      var below, rest := Places(PathAt(here), ts[0].kids), Places(under, ts[1..]);
      BagIsRows(PathAt(here), ts[0].kids);
      BagIsRows(under, ts[1..]);
      RowsConcat([here] + below, rest);
      RowsStep(here, below);
      assert multiset(RowsOf(here)) == RowBag(PathAt(here), ts[0]);
    }
  }

  lemma BagStep(under: string, t: Tree, ts: seq<Tree>)
    ensures Bag(under, [t] + ts)
            == RowBag(under + Segment(t.obj), t) + Bag(under + Segment(t.obj), t.kids) + Bag(under, ts)
  {
    assert ([t] + ts)[1..] == ts;
  }

  lemma {:induction false} BagConcat(under: string, a: seq<Tree>, b: seq<Tree>)
    ensures Bag(under, a + b) == Bag(under, a) + Bag(under, b)
    decreases a
  {
    if a == [] {
      assert a + b == b;
    } else {
      hide Bag, RowBag;
      var t, tail := a[0], a[1..];
      assert a == [t] + tail && a + b == [t] + (tail + b);
      BagStep(under, t, tail + b);
      BagStep(under, t, tail);
      BagConcat(under, tail, b);
    }
  }

  // ----- rows of spots -----

  lemma SpotRowsStep(s: Spot, spots: seq<Spot>, where: seq<Clause>, p: Option<Projection>, level: nat, rel: string,
                     cat: Catalog)
    ensures SpotRows([s] + spots, where, p, level, rel, cat)
         == SpotRow(s, where, p, level, rel, cat) + SpotRows(spots, where, p, level, rel, cat)
  {
    assert ([s] + spots)[1..] == spots;
  }

  lemma {:induction false} SpotRowsConcat(a: seq<Spot>, b: seq<Spot>, where: seq<Clause>, p: Option<Projection>,
                                          level: nat, rel: string, cat: Catalog)
    ensures multiset(SpotRows(a + b, where, p, level, rel, cat))
         == multiset(SpotRows(a, where, p, level, rel, cat)) + multiset(SpotRows(b, where, p, level, rel, cat))
  {
    if a == [] {
      assert a + b == b;
    } else {
      hide SpotRows, SpotRow;
      var s, tail := a[0], a[1..];
      assert a == [s] + tail && a + b == [s] + (tail + b);
      SpotRowsStep(s, tail + b, where, p, level, rel, cat);
      SpotRowsStep(s, tail, where, p, level, rel, cat);
      SpotRowsConcat(tail, b, where, p, level, rel, cat);
    }
  }

  lemma GrowStep(s: Spot, spots: seq<Spot>, j: JoinKind, objects: seq<Obj>)
    ensures Grow([s] + spots, j, objects) == Reach(s, Matches(j, s.obj, objects)) + Grow(spots, j, objects)
  {
    hide Matches, Reach;
    assert ([s] + spots)[1..] == spots;
  }

  lemma {:induction false} GrowConcat(a: seq<Spot>, b: seq<Spot>, j: JoinKind, objects: seq<Obj>)
    ensures Grow(a + b, j, objects) == Grow(a, j, objects) + Grow(b, j, objects)
  {
    hide Reach, Matches;
    if a == [] {
      assert a + b == b;
      assert Grow(a, j, objects) == [];
    } else {
      hide Grow;
      var s, tail := a[0], a[1..];
      var first := Reach(s, Matches(j, s.obj, objects));
      calc {
        Grow(a + b, j, objects);
        { assert a + b == [s] + (tail + b); GrowStep(s, tail + b, j, objects); }
        first + Grow(tail + b, j, objects);
        { GrowConcat(tail, b, j, objects); }
        first + (Grow(tail, j, objects) + Grow(b, j, objects));
        (first + Grow(tail, j, objects)) + Grow(b, j, objects);
        { assert a == [s] + tail; GrowStep(s, tail, j, objects); }
        Grow(a, j, objects) + Grow(b, j, objects);
      }
    }
  }

  // ----- sums over spots -----

  /** What one relation block contributes below all the given spots. */
  ghost function SpotBag(w: World, spots: seq<Spot>, name: string, spec: RelationSpec, level: nat): multiset<Row> {
    if spots == [] then multiset{}
    else Bag(spots[0].path, Related(w, spots[0].obj, name, spec, level)) + SpotBag(w, spots[1..], name, spec, level)
  }

  lemma SpotBagStep(w: World, s: Spot, spots: seq<Spot>, name: string, spec: RelationSpec, level: nat)
    ensures SpotBag(w, [s] + spots, name, spec, level)
         == Bag(s.path, Related(w, s.obj, name, spec, level)) + SpotBag(w, spots, name, spec, level)
  {
    hide Related, Bag;
    assert ([s] + spots)[1..] == spots;
  }

  lemma {:induction false} SpotBagConcat(w: World, a: seq<Spot>, b: seq<Spot>, name: string, spec: RelationSpec,
                                         level: nat)
    ensures SpotBag(w, a + b, name, spec, level) == SpotBag(w, a, name, spec, level) + SpotBag(w, b, name, spec, level)
  {
    hide Related, Bag;
    if a == [] {
      assert a + b == b;
    } else {
      hide SpotBag;
      var s, tail := a[0], a[1..];
      assert a == [s] + tail && a + b == [s] + (tail + b);
      SpotBagStep(w, s, tail + b, name, spec, level);
      SpotBagStep(w, s, tail, name, spec, level);
      SpotBagConcat(w, tail, b, name, spec, level);
    }
  }

  lemma SpotBagOne(w: World, s: Spot, name: string, spec: RelationSpec, level: nat)
    ensures SpotBag(w, [s], name, spec, level) == Bag(s.path, Related(w, s.obj, name, spec, level))
  {
    hide Related, Bag;
    SpotBagStep(w, s, [], name, spec, level);
    assert [s] + [] == [s];
  }

  /** What the named blocks of a shape contribute below all the given spots. */
  ghost function NamedBag(w: World, spots: seq<Spot>, shape: ObjectsSpec, names: seq<string>, level: nat): multiset<Row>
    requires forall k :: k in names ==> k in shape.relations
  {
    if names == [] then multiset{}
    else SpotBag(w, spots, names[0], shape.relations[names[0]], level) + NamedBag(w, spots, shape, names[1..], level)
  }

  ghost function ShapeBag(w: World, spots: seq<Spot>, shape: Option<ObjectsSpec>, level: nat): multiset<Row> {
    if shape.None? then multiset{} else NamedBag(w, spots, shape.value, Sorted(shape.value.relations.Keys), level)
  }

  /** Summing over blocks and over spots can be done in either order. */
  lemma {:induction false} NamedBagConcat(w: World, a: seq<Spot>, b: seq<Spot>, shape: ObjectsSpec, names: seq<string>,
                                          level: nat)
    requires forall k :: k in names ==> k in shape.relations
    ensures NamedBag(w, a + b, shape, names, level)
            == NamedBag(w, a, shape, names, level) + NamedBag(w, b, shape, names, level)
  {
    if names != [] {
      NamedBagConcat(w, a, b, shape, names[1..], level);
      SpotBagConcat(w, a, b, names[0], shape.relations[names[0]], level);
    }
  }

  lemma {:induction false} NamedBagOne(w: World, s: Spot, shape: ObjectsSpec, names: seq<string>, level: nat)
    requires forall k :: k in names ==> k in shape.relations
    ensures NamedBag(w, [s], shape, names, level) == Bag(s.path, BeneathNamed(w, s.obj, shape, names, level))
  {
    if names != [] {
      NamedBagOne(w, s, shape, names[1..], level);
      SpotBagOne(w, s, names[0], shape.relations[names[0]], level);
      BagConcat(s.path, Related(w, s.obj, names[0], shape.relations[names[0]], level),
                BeneathNamed(w, s.obj, shape, names[1..], level));
    }
  }

  lemma {:induction false} NamedBagNone(w: World, shape: ObjectsSpec, names: seq<string>, level: nat)
    requires forall k :: k in names ==> k in shape.relations
    ensures NamedBag(w, [], shape, names, level) == multiset{}
  {
    if names != [] {
      NamedBagNone(w, shape, names[1..], level);
    }
  }

  lemma ShapeBagConcat(w: World, a: seq<Spot>, b: seq<Spot>, shape: Option<ObjectsSpec>, level: nat)
    ensures ShapeBag(w, a + b, shape, level) == ShapeBag(w, a, shape, level) + ShapeBag(w, b, shape, level)
    ensures ShapeBag(w, [], shape, level) == multiset{}
  {
    if shape.Some? {
      NamedBagConcat(w, a, b, shape.value, Sorted(shape.value.relations.Keys), level);
      NamedBagNone(w, shape.value, Sorted(shape.value.relations.Keys), level);
    }
  }

  lemma ShapeBagOne(w: World, s: Spot, shape: Option<ObjectsSpec>, level: nat)
    ensures ShapeBag(w, [s], shape, level) == Bag(s.path, Beneath(w, s.obj, shape, level))
  {
    if shape.Some? {
      NamedBagOne(w, s, shape.value, Sorted(shape.value.relations.Keys), level);
    }
  }

  // ----- a joined block -----

  /** The rows a joined block selects at the given spots, and everything below them. */
  ghost function JoinedBag(w: World, spots: seq<Spot>, name: string, spec: RelationSpec, level: nat): multiset<Row> {
    multiset(SpotRows(spots, BlockClauses(name, spec), ShapeProjection(spec.objects), level, name, w.cat))
    + ShapeBag(w, spots, spec.objects, level + 1)
  }

  lemma JoinedBagConcat(w: World, a: seq<Spot>, b: seq<Spot>, name: string, spec: RelationSpec, level: nat)
    ensures JoinedBag(w, a + b, name, spec, level)
            == JoinedBag(w, a, name, spec, level) + JoinedBag(w, b, name, spec, level)
    ensures JoinedBag(w, [], name, spec, level) == multiset{}
  {
    SpotRowsConcat(a, b, BlockClauses(name, spec), ShapeProjection(spec.objects), level, name, w.cat);
    ShapeBagConcat(w, a, b, spec.objects, level + 1);
  }

  lemma SpotRowsOne(s: Spot, where: seq<Clause>, p: Option<Projection>, level: nat, rel: string, cat: Catalog)
    ensures SpotRows([s], where, p, level, rel, cat) == SpotRow(s, where, p, level, rel, cat)
  {
    SpotRowsStep(s, [], where, p, level, rel, cat);
    assert [s] + [] == [s];
  }

  lemma JoinedBagOne(w: World, path: string, x: Obj, name: string, spec: RelationSpec, level: nat)
    ensures JoinedBag(w, [Spot(path, x)], name, spec, level)
         == RowBag(path, JoinTree(w, x, name, spec, level)) + Bag(path, JoinTree(w, x, name, spec, level).kids)
  {
    hide BlockClauses, ShapeBag, Bag, SpotRows, Beneath, Accepts, Projected;
    ShapeBagOne(w, Spot(path, x), spec.objects, level + 1);
    SpotRowsOne(Spot(path, x), BlockClauses(name, spec), ShapeProjection(spec.objects), level, name, w.cat);
  }

  lemma {:induction false} JoinTreesBag(w: World, s: Spot, xs: seq<Obj>, name: string, spec: RelationSpec, level: nat)
    ensures Bag(s.path, JoinTrees(w, xs, name, spec, level)) == JoinedBag(w, Reach(s, xs), name, spec, level)
  {
    JoinedBagConcat(w, [], [], name, spec, level);
    if xs != [] {
      hide JoinedBag, JoinTree;
      var x, rest := xs[0], xs[1..];
      JoinTreesBag(w, s, rest, name, spec, level);
      BagStep(s.path, JoinTree(w, x, name, spec, level), JoinTrees(w, rest, name, spec, level));
      JoinedBagOne(w, s.path + Segment(x), x, name, spec, level);
      JoinedBagConcat(w, [Spot(s.path + Segment(x), x)], Reach(s, rest), name, spec, level);
      assert JoinTree(w, x, name, spec, level).obj == x by { JoinTreeObj(w, x, name, spec, level); }
    }
  }

  lemma JoinTreeObj(w: World, x: Obj, name: string, spec: RelationSpec, level: nat)
    ensures JoinTree(w, x, name, spec, level).obj == x
  {
  }

  /** A joined block below all the spots is its selected rows plus what is below them. */
  lemma {:induction false} JoinedBlock(w: World, spots: seq<Spot>, name: string, spec: RelationSpec, level: nat)
    requires level <= w.maxDepth && !IsTransitive(name)
    ensures SpotBag(w, spots, name, spec, level)
         == JoinedBag(w, Grow(spots, JoinFor(BaseRelation(name), spec.filters), w.objects), name, spec, level)
  {
    var j := JoinFor(BaseRelation(name), spec.filters);
    JoinedBagConcat(w, [], [], name, spec, level);
    if spots != [] {
      hide JoinedBag, JoinTrees;
      JoinedBlock(w, spots[1..], name, spec, level);
      JoinTreesBag(w, spots[0], Matches(j, spots[0].obj, w.objects), name, spec, level);
      JoinedBagConcat(w, Reach(spots[0], Matches(j, spots[0].obj, w.objects)), Grow(spots[1..], j, w.objects), name,
                      spec, level);
    }
  }
}
