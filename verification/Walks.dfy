/** A recursive CTE and the branches that read it produce exactly the rows of the walks along
    its relation and of what is attached to them. */
module Walks {
  import opened Options
  import opened Objects
  import opened Spec
  import opened Paths
  import opened Projections
  import opened Assembly
  import opened Forest
  import opened Plans
  import opened Generator
  import opened Meaning
  import opened Bags

  /** A transitive block: what it follows, its name, spec and level. */
  datatype Walk = Walk(base: Base, name: string, spec: RelationSpec, level: nat)

  ghost function TreeOf(w: World, k: Walk, r: CteRow): Tree {
    WalkTree(w, k.base, k.name, k.spec, k.level, r.spot.obj, r.visited, r.depth)
  }

  /** The row of a walk's end and everything reached from there. */
  ghost function WalkBag(w: World, k: Walk, r: CteRow): multiset<Row> {
    RowBag(r.spot.path, TreeOf(w, k, r)) + Bag(r.spot.path, TreeOf(w, k, r).kids)
  }

  ghost function WorkBag(w: World, k: Walk, rows: seq<CteRow>): multiset<Row> {
    if rows == [] then multiset{} else WalkBag(w, k, rows[0]) + WorkBag(w, k, rows[1..])
  }

  lemma WorkBagStep(w: World, k: Walk, r: CteRow, rows: seq<CteRow>)
    ensures WorkBag(w, k, [r] + rows) == WalkBag(w, k, r) + WorkBag(w, k, rows)
  {
    hide WalkBag;
    assert ([r] + rows)[1..] == rows;
  }

  lemma {:induction false} WorkBagConcat(w: World, k: Walk, a: seq<CteRow>, b: seq<CteRow>)
    ensures WorkBag(w, k, a + b) == WorkBag(w, k, a) + WorkBag(w, k, b)
  {
    hide WalkBag;
    if a == [] {
      assert a + b == b;
    } else {
      hide WorkBag;
      var r, tail := a[0], a[1..];
      assert a == [r] + tail && a + b == [r] + (tail + b);
      WorkBagStep(w, k, r, tail + b);
      WorkBagStep(w, k, r, tail);
      WorkBagConcat(w, k, tail, b);
    }
  }

  lemma TreeObj(w: World, k: Walk, r: CteRow)
    ensures TreeOf(w, k, r).obj == r.spot.obj
  {
  }

  lemma WalkTreesStep(w: World, k: Walk, x: Obj, xs: seq<Obj>, visited: seq<string>, depth: int)
    ensures var rest := WalkTrees(w, k.base, k.name, k.spec, k.level, xs, visited, depth);
      WalkTrees(w, k.base, k.name, k.spec, k.level, [x] + xs, visited, depth)
      == if x.uid !in visited then [WalkTree(w, k.base, k.name, k.spec, k.level, x, visited + [x.uid], depth)] + rest
           else rest
  {
    hide WalkTree;
    assert ([x] + xs)[1..] == xs;
  }

  /** One tree hung under a spot is the walk bag of the extended row. */
  lemma OneWalk(w: World, k: Walk, under: string, r: CteRow, ts: seq<Tree>)
    requires r.spot.path == under + Segment(r.spot.obj)
    ensures Bag(under, [TreeOf(w, k, r)] + ts) == WalkBag(w, k, r) + Bag(under, ts)
  {
    hide Bag, RowBag, TreeOf;
    TreeObj(w, k, r);
    BagStep(under, TreeOf(w, k, r), ts);
  }

  /** The trees one step onward are the rows the recursive case adds. */
  lemma {:induction false} OnwardBag(w: World, k: Walk, r: CteRow, xs: seq<Obj>)
    requires r.depth < w.maxDepth
    ensures Bag(r.spot.path, WalkTrees(w, k.base, k.name, k.spec, k.level, xs, r.visited, r.depth + 1))
         == WorkBag(w, k, Onward(r, xs, w.maxDepth))
  {
    hide Bag, WorkBag, WalkBag, WalkTrees, WalkTree, Onward, Segment;
    if xs == [] {
      OnwardNone(w, k, r);
    } else {
      var x, tail := xs[0], xs[1..];
      assert xs == [x] + tail;
      OnwardBag(w, k, r, tail);
      OnwardStep(r, x, tail, w.maxDepth);
      WalkTreesStep(w, k, x, tail, r.visited, r.depth + 1);
      var rest := WalkTrees(w, k.base, k.name, k.spec, k.level, tail, r.visited, r.depth + 1);
      if x.uid !in r.visited {
        var next := Next(r, x);
        OneWalk(w, k, r.spot.path, next, rest);
        WorkBagStep(w, k, next, Onward(r, tail, w.maxDepth));
      }
    }
  }

  lemma OnwardNone(w: World, k: Walk, r: CteRow)
    ensures Bag(r.spot.path, WalkTrees(w, k.base, k.name, k.spec, k.level, [], r.visited, r.depth + 1))
         == WorkBag(w, k, Onward(r, [], w.maxDepth))
  {
  }

  function Next(r: CteRow, x: Obj): CteRow {
    CteRow(Spot(r.spot.path + Segment(x), x), r.depth + 1, r.visited + [x.uid])
  }

  lemma OnwardStep(r: CteRow, x: Obj, xs: seq<Obj>, maxDepth: int)
    requires r.depth < maxDepth
    ensures Onward(r, [x] + xs, maxDepth)
         == if x.uid !in r.visited then [Next(r, x)] + Onward(r, xs, maxDepth) else Onward(r, xs, maxDepth)
  {
    assert ([x] + xs)[1..] == xs;
  }

  /** The first trees are the rows of the base case. */
  lemma {:induction false} StartsBag(w: World, k: Walk, s: Spot, xs: seq<Obj>)
    ensures Bag(s.path, WalkTrees(w, k.base, k.name, k.spec, k.level, xs, [], 1)) == WorkBag(w, k, Starts(s, xs))
  {
    hide Bag, WorkBag, WalkBag, WalkTrees, WalkTree, Starts, Segment;
    if xs == [] {
      StartsNone(w, k, s);
    } else {
      var x, tail := xs[0], xs[1..];
      assert xs == [x] + tail;
      StartsBag(w, k, s, tail);
      StartsStep(s, x, tail);
      WalkTreesStep(w, k, x, tail, [], 1);
      var first := First(s, x);
      assert [] + [x.uid] == [x.uid];
      OneWalk(w, k, s.path, first, WalkTrees(w, k.base, k.name, k.spec, k.level, tail, [], 1));
      WorkBagStep(w, k, first, Starts(s, tail));
    }
  }

  function First(s: Spot, x: Obj): CteRow {
    CteRow(Spot(s.path + Segment(x), x), 1, [x.uid])
  }

  lemma StartsStep(s: Spot, x: Obj, xs: seq<Obj>)
    ensures Starts(s, [x] + xs) == [First(s, x)] + Starts(s, xs)
  {
    assert ([x] + xs)[1..] == xs;
  }

  lemma StartsNone(w: World, k: Walk, s: Spot)
    ensures Bag(s.path, WalkTrees(w, k.base, k.name, k.spec, k.level, [], [], 1)) == WorkBag(w, k, Starts(s, []))
  {
  }

  /** The block below all spots is the work of its base rows. */
  lemma {:induction false} WalkedBlock(w: World, k: Walk, spots: seq<Spot>)
    requires k.level <= w.maxDepth && IsTransitive(k.name) && BaseOf(BaseRelation(k.name)) == Some(k.base)
    ensures SpotBag(w, spots, k.name, k.spec, k.level) == WorkBag(w, k, CteBase(k.base, spots, w.objects))
  {
    if spots != [] {
      hide Bag, WorkBag, WalkTrees, Starts, Followers;
      WalkedBlock(w, k, spots[1..]);
      var xs := Followers(k.base, spots[0].obj, w.objects);
      StartsBag(w, k, spots[0], xs);
      WorkBagConcat(w, k, Starts(spots[0], xs), CteBase(k.base, spots[1..], w.objects));
    } else {
      assert WorkBag(w, k, []) == multiset{};
    }
  }

  // ----- what is attached -----

  ghost function SubsBag(w: World, spots: seq<Spot>, shape: Option<ObjectsSpec>, level: nat): multiset<Row> {
    if spots == [] then multiset{}
    else Bag(spots[0].path, Subs(w, spots[0].obj, shape, level)) + SubsBag(w, spots[1..], shape, level)
  }

  lemma SubsBagStep(w: World, s: Spot, spots: seq<Spot>, shape: Option<ObjectsSpec>, level: nat)
    ensures SubsBag(w, [s] + spots, shape, level)
            == Bag(s.path, Subs(w, s.obj, shape, level)) + SubsBag(w, spots, shape, level)
  {
    hide Bag, Subs;
    assert ([s] + spots)[1..] == spots;
  }

  lemma {:induction false} SubsBagConcat(w: World, a: seq<Spot>, b: seq<Spot>, shape: Option<ObjectsSpec>, level: nat)
    ensures SubsBag(w, a + b, shape, level) == SubsBag(w, a, shape, level) + SubsBag(w, b, shape, level)
  {
    hide Bag, Subs;
    if a == [] {
      assert a + b == b;
    } else {
      hide SubsBag;
      var s, tail := a[0], a[1..];
      assert a == [s] + tail && a + b == [s] + (tail + b);
      SubsBagStep(w, s, tail + b, shape, level);
      SubsBagStep(w, s, tail, shape, level);
      SubsBagConcat(w, tail, b, shape, level);
    }
  }

  // ----- one generation of the CTE -----

  /** The rows that the CTE's own branch selects at the given spots. */
  ghost function OwnRows(w: World, k: Walk, spots: seq<Spot>): multiset<Row> {
    multiset(SpotRows(spots, [], ShapeProjection(k.spec.objects), k.level, k.name, w.cat))
  }

  lemma WalkKids(w: World, k: Walk, r: CteRow)
    ensures TreeOf(w, k, r).kids ==
      (if r.depth < w.maxDepth
       then WalkTrees(w, k.base, k.name, k.spec, k.level, Followers(k.base, r.spot.obj, w.objects), r.visited,
                      r.depth + 1) else [])
      + Subs(w, r.spot.obj, k.spec.objects, k.level + 1)
  {
    hide WalkTrees, Subs, Followers, Projected;
  }

  lemma WalkRow(w: World, k: Walk, r: CteRow)
    ensures RowBag(r.spot.path, TreeOf(w, k, r)) == OwnRows(w, k, [r.spot])
  {
    hide WalkTrees, Subs, Followers, Projected, SpotRows;
    SpotRowsOne(r.spot, [], ShapeProjection(k.spec.objects), k.level, k.name, w.cat);
  }

  lemma OnwardOrDone(w: World, k: Walk, r: CteRow)
    ensures WorkBag(w, k, Onward(r, Followers(k.base, r.spot.obj, w.objects), w.maxDepth))
         == Bag(r.spot.path, if r.depth < w.maxDepth
              then WalkTrees(w, k.base, k.name, k.spec, k.level, Followers(k.base, r.spot.obj, w.objects), r.visited,
                             r.depth + 1) else [])
  {
    hide WalkTrees, Followers, Onward, WalkBag;
    var xs := Followers(k.base, r.spot.obj, w.objects);
    if r.depth < w.maxDepth {
      OnwardBag(w, k, r, xs);
    } else {
      OnwardDepth(r, xs, w.maxDepth);
    }
  }

  /** A walk is its own row, the walks one step onward, and what is attached at its end. */
  lemma WalkUnfolds(w: World, k: Walk, r: CteRow)
    ensures WalkBag(w, k, r)
         == OwnRows(w, k, [r.spot])
          + WorkBag(w, k, Onward(r, Followers(k.base, r.spot.obj, w.objects), w.maxDepth))
          + Bag(r.spot.path, Subs(w, r.spot.obj, k.spec.objects, k.level + 1))
  {
    hide TreeOf, OwnRows, WorkBag, Bag, Subs, WalkTrees, Followers, Onward, RowBag;
    WalkRow(w, k, r);
    WalkKids(w, k, r);
    OnwardOrDone(w, k, r);
    var onward := if r.depth < w.maxDepth
      then WalkTrees(w, k.base, k.name, k.spec, k.level, Followers(k.base, r.spot.obj, w.objects), r.visited,
                     r.depth + 1) else [];
    BagConcat(r.spot.path, onward, Subs(w, r.spot.obj, k.spec.objects, k.level + 1));
  }

  lemma OwnRowsConcat(w: World, k: Walk, a: seq<Spot>, b: seq<Spot>)
    ensures OwnRows(w, k, a + b) == OwnRows(w, k, a) + OwnRows(w, k, b)
  {
    hide SpotRows;
    SpotRowsConcat(a, b, [], ShapeProjection(k.spec.objects), k.level, k.name, w.cat);
  }

  /** What one generation leaves behind, and the next generation. */
  ghost predicate Unfolds(w: World, k: Walk, working: seq<CteRow>) {
    WorkBag(w, k, working)
      == OwnRows(w, k, CteSpots(working))
       + WorkBag(w, k, CteStep(k.base, working, w.objects, w.maxDepth))
       + SubsBag(w, CteSpots(working), k.spec.objects, k.level + 1)
  }

  lemma {:induction false} WorkUnfolds(w: World, k: Walk, working: seq<CteRow>)
    ensures Unfolds(w, k, working)
  {
    hide Unfolds;
    if working == [] {
      NothingUnfolds(w, k);
    } else {
      var r, rest := working[0], working[1..];
      WorkUnfolds(w, k, rest);
      WorkUnfoldsStep(w, k, r, rest);
      assert working == [r] + rest;
    }
  }

  lemma NothingUnfolds(w: World, k: Walk)
    ensures Unfolds(w, k, [])
  {
  }

  lemma Regroup<T>(a: multiset<T>, b: multiset<T>, c: multiset<T>, x: multiset<T>, y: multiset<T>, z: multiset<T>)
    ensures (a + b + c) + (x + y + z) == (a + x) + (b + y) + (c + z)
  {
  }

  lemma CteSpotsCons(r: CteRow, rest: seq<CteRow>)
    ensures CteSpots([r] + rest) == [r.spot] + CteSpots(rest)
  {
    assert ([r] + rest)[1..] == rest;
  }

  lemma WorkUnfoldsStep(w: World, k: Walk, r: CteRow, rest: seq<CteRow>)
    requires Unfolds(w, k, rest)
    ensures Unfolds(w, k, [r] + rest)
  {
    hide OwnRows, WorkBag, WalkBag, SubsBag, CteStep, CteSpots, Bag, Subs, Onward, Followers;
    var onward := Onward(r, Followers(k.base, r.spot.obj, w.objects), w.maxDepth);
    var next := CteStep(k.base, rest, w.objects, w.maxDepth);
    CteStepCons(k.base, r, rest, w.objects, w.maxDepth);
    CteSpotsCons(r, rest);
    WorkBagStep(w, k, r, rest);
    WalkUnfolds(w, k, r);
    WorkBagConcat(w, k, onward, next);
    OwnRowsConcat(w, k, [r.spot], CteSpots(rest));
    SubsBagStep(w, r.spot, CteSpots(rest), k.spec.objects, k.level + 1);
    Regroup(OwnRows(w, k, [r.spot]), WorkBag(w, k, onward),
            Bag(r.spot.path, Subs(w, r.spot.obj, k.spec.objects, k.level + 1)),
            OwnRows(w, k, CteSpots(rest)), WorkBag(w, k, next),
                SubsBag(w, CteSpots(rest), k.spec.objects, k.level + 1));
  }

  lemma CteStepCons(base: Base, r: CteRow, rest: seq<CteRow>, objects: seq<Obj>, maxDepth: int)
    ensures CteStep(base, [r] + rest, objects, maxDepth)
         == Onward(r, Followers(base, r.spot.obj, objects), maxDepth) + CteStep(base, rest, objects, maxDepth)
  {
    hide Onward, Followers;
    assert ([r] + rest)[1..] == rest;
  }

  // ----- the whole CTE -----

  lemma {:induction false} CteSpotsConcat(a: seq<CteRow>, b: seq<CteRow>)
    ensures CteSpots(a + b) == CteSpots(a) + CteSpots(b)
  {
    if a == [] {
      assert a + b == b;
    } else {
      CteSpotsConcat(a[1..], b);
      assert (a + b)[1..] == a[1..] + b;
    }
  }

  /** The CTE's own branch together with what is attached to its rows. */
  ghost function SpotsBag(w: World, k: Walk, spots: seq<Spot>): multiset<Row> {
    OwnRows(w, k, spots) + SubsBag(w, spots, k.spec.objects, k.level + 1)
  }

  lemma SpotsBagConcat(w: World, k: Walk, a: seq<Spot>, b: seq<Spot>)
    ensures SpotsBag(w, k, a + b) == SpotsBag(w, k, a) + SpotsBag(w, k, b)
  {
    hide OwnRows, SubsBag;
    OwnRowsConcat(w, k, a, b);
    SubsBagConcat(w, a, b, k.spec.objects, k.level + 1);
  }

  lemma WorkUnfoldsTo(w: World, k: Walk, working: seq<CteRow>)
    ensures WorkBag(w, k, working)
         == SpotsBag(w, k, CteSpots(working)) + WorkBag(w, k, CteStep(k.base, working, w.objects, w.maxDepth))
  {
    hide OwnRows, SubsBag, WorkBag, CteSpots, CteStep;
    WorkUnfolds(w, k, working);
  }

  lemma NothingComplete(w: World, k: Walk, d: int)
    ensures WorkBag(w, k, []) == SpotsBag(w, k, CteSpots(CteRows(k.base, [], w.objects, w.maxDepth, d)))
  {
  }

  /** All the work of the base rows is what the CTE's rows and their attachments contribute. */
  lemma {:induction false} CteComplete(w: World, k: Walk, working: seq<CteRow>, d: int)
    requires AtDepth(working, d) && (working != [] ==> d <= w.maxDepth || d == 1)
    ensures WorkBag(w, k, working) == SpotsBag(w, k, CteSpots(CteRows(k.base, working, w.objects, w.maxDepth, d)))
    decreases if working == [] then 0 else if d <= w.maxDepth then w.maxDepth - d + 2 else 1
  {
    hide SpotsBag, WorkBag, CteStep, CteSpots, CteRows, AtDepth;
    if working == [] {
      NothingComplete(w, k, d);
    } else {
      CteRowsStep(k.base, working, w.objects, w.maxDepth, d);
      var next := CteStep(k.base, working, w.objects, w.maxDepth);
      var later := CteRows(k.base, next, w.objects, w.maxDepth, d + 1);
      CteComplete(w, k, next, d + 1);
      WorkUnfoldsTo(w, k, working);
      CteSpotsConcat(working, later);
      SpotsBagConcat(w, k, CteSpots(working), CteSpots(later));
    }
  }
}
