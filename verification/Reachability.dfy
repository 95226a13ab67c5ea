/** The recursive CTE that a query really evaluates, started from all parent objects at once: which
    rows it returns, how often, and which objects the transitive blocks of an answer therefore hold. */
module Reachability {
  import opened Options
  import opened Text
  import opened Objects
  import opened Spec
  import opened Paths
  import opened Plans
  import opened Generator
  import opened Assembly
  import opened Filters
  import opened Projections
  import opened Relations
  import opened Meaning
  import opened Bags
  import opened Walks
  import opened Closure

  // ----- the working table splits by parent -----

  lemma {:induction false} CteStepConcat(base: Base, a: seq<CteRow>, b: seq<CteRow>, objects: seq<Obj>, maxDepth: int)
    ensures CteStep(base, a + b, objects, maxDepth)
            == CteStep(base, a, objects, maxDepth) + CteStep(base, b, objects, maxDepth)
  {
    hide Onward, Followers;
    if a == [] {
      assert a + b == b;
      assert CteStep(base, a, objects, maxDepth) == [];
    } else {
      hide CteStep;
      var r, tail := a[0], a[1..];
      assert a == [r] + tail && a + b == [r] + (tail + b);
      CteStepCons(base, r, tail + b, objects, maxDepth);
      CteStepCons(base, r, tail, objects, maxDepth);
      CteStepConcat(base, tail, b, objects, maxDepth);
      var first := Onward(r, Followers(base, r.spot.obj, objects), maxDepth);
      Regrouped(first, CteStep(base, tail, objects, maxDepth), CteStep(base, b, objects, maxDepth));
    }
  }

  /** A working table that the recursion can start from. */
  ghost predicate Startable(working: seq<CteRow>, maxDepth: int, d: int) {
    AtDepth(working, d) && (working != [] ==> d <= maxDepth || d == 1)
  }

  lemma UnfoldRows(base: Base, working: seq<CteRow>, objects: seq<Obj>, maxDepth: int, d: int)
    requires Startable(working, maxDepth, d)
    ensures Startable(CteStep(base, working, objects, maxDepth), maxDepth, d + 1)
    ensures CteRows(base, working, objects, maxDepth, d)
         == working + CteRows(base, CteStep(base, working, objects, maxDepth), objects, maxDepth, d + 1)
  {
    if working == [] {
      NoStep(base, objects, maxDepth);
    } else {
      hide CteStep, CteRows;
      CteRowsStep(base, working, objects, maxDepth, d);
    }
  }

  lemma StartableParts(a: seq<CteRow>, b: seq<CteRow>, maxDepth: int, d: int)
    requires Startable(a + b, maxDepth, d)
    ensures Startable(a, maxDepth, d) && Startable(b, maxDepth, d)
  {
    assert forall i :: 0 <= i < |a| ==> a[i] == (a + b)[i];
    assert forall i :: 0 <= i < |b| ==> b[i] == (a + b)[|a| + i];
  }

  lemma FourBags<T>(a: multiset<T>, b: multiset<T>, x: multiset<T>, y: multiset<T>)
    ensures (a + b) + (x + y) == (a + x) + (b + y)
  {
  }

  ghost predicate SplitsRows(base: Base, a: seq<CteRow>, b: seq<CteRow>, objects: seq<Obj>, maxDepth: int, d: int) {
    && Startable(a + b, maxDepth, d) && Startable(a, maxDepth, d) && Startable(b, maxDepth, d)
    && multiset(CteRows(base, a + b, objects, maxDepth, d))
       == multiset(CteRows(base, a, objects, maxDepth, d)) + multiset(CteRows(base, b, objects, maxDepth, d))
  }

  lemma SplitsStep(base: Base, a: seq<CteRow>, b: seq<CteRow>, objects: seq<Obj>, maxDepth: int, d: int)
    requires Startable(a + b, maxDepth, d)
    requires SplitsRows(base, CteStep(base, a, objects, maxDepth), CteStep(base, b, objects, maxDepth), objects,
                        maxDepth, d + 1)
    ensures SplitsRows(base, a, b, objects, maxDepth, d)
  {
    hide CteStep, CteRows, AtDepth;
    StartableParts(a, b, maxDepth, d);
    var x, y := CteStep(base, a, objects, maxDepth), CteStep(base, b, objects, maxDepth);
    CteStepConcat(base, a, b, objects, maxDepth);
    UnfoldRows(base, a + b, objects, maxDepth, d);
    UnfoldRows(base, a, objects, maxDepth, d);
    UnfoldRows(base, b, objects, maxDepth, d);
    FourBags(multiset(a), multiset(b), multiset(CteRows(base, x, objects, maxDepth, d + 1)),
             multiset(CteRows(base, y, objects, maxDepth, d + 1)));
  }

  /** The rows of a working table made of two parts are the rows of the parts. */
  lemma {:induction false} RowsConcat(base: Base, a: seq<CteRow>, b: seq<CteRow>, objects: seq<Obj>, maxDepth: int,
                                      d: int)
    requires Startable(a + b, maxDepth, d)
    ensures SplitsRows(base, a, b, objects, maxDepth, d)
    decreases if a + b == [] then 0 else if d <= maxDepth then maxDepth - d + 2 else 1
  {
    if a + b == [] {
      NothingAdded(a);
    } else {
      hide CteStep, CteRows, SplitsRows;
      CteStepConcat(base, a, b, objects, maxDepth);
      UnfoldRows(base, a + b, objects, maxDepth, d);
      RowsConcat(base, CteStep(base, a, objects, maxDepth), CteStep(base, b, objects, maxDepth), objects, maxDepth,
                 d + 1);
      SplitsStep(base, a, b, objects, maxDepth, d);
    }
  }

  // ----- the emitted CTE -----

  /** Where an emitted CTE starts: the parent objects of its block, below all roots. */
  function Parents(c: Cte, roots: seq<Obj>, objects: seq<Obj>): seq<Spot> {
    SpotsOf(Envs(roots, c.steps, objects), c.parent, c.path)
  }

  /** The rows below each of the spots. */
  ghost function ClosureBag(base: Base, spots: seq<Spot>, objects: seq<Obj>, maxDepth: int): multiset<CteRow> {
    if spots == [] then multiset{}
    else multiset(RowsBelow(base, spots[0], objects, maxDepth)) + ClosureBag(base, spots[1..], objects, maxDepth)
  }

  lemma BaseOne(base: Base, spots: seq<Spot>, objects: seq<Obj>)
    requires spots != []
    ensures CteBase(base, spots, objects) == CteBase(base, [spots[0]], objects) + CteBase(base, spots[1..], objects)
  {
    hide Starts, Followers;
    assert [spots[0]][1..] == [];
    NothingAdded(Starts(spots[0], Followers(base, spots[0].obj, objects)));
  }

  lemma {:induction false} RowsByParent(base: Base, spots: seq<Spot>, objects: seq<Obj>, maxDepth: int)
    ensures AtDepth(CteBase(base, spots, objects), 1)
    ensures multiset(CteRows(base, CteBase(base, spots, objects), objects, maxDepth, 1))
            == ClosureBag(base, spots, objects, maxDepth)
  {
    CteBaseDepth(base, spots, objects);
    if spots != [] {
      hide CteBase, CteRows, AtDepth;
      BaseOne(base, spots, objects);
      RowsByParent(base, spots[1..], objects, maxDepth);
      CteBaseDepth(base, [spots[0]], objects);
      RowsConcat(base, CteBase(base, [spots[0]], objects), CteBase(base, spots[1..], objects), objects, maxDepth, 1);
    }
  }

  /** The emitted CTE returns the rows below each of its parents, and nothing else, with multiplicity. */
  lemma EmittedByParent(c: Cte, roots: seq<Obj>, objects: seq<Obj>)
    ensures multiset(EvalCte(c, roots, objects)) == ClosureBag(c.base, Parents(c, roots, objects), objects, c.maxDepth)
  {
    hide CteBase, CteRows, ClosureBag;
    RowsByParent(c.base, Parents(c, roots, objects), objects, c.maxDepth);
  }

  // ----- rows and chains -----

  /** How many of the spots have a chain with this row below them. */
  ghost function ChainCount(base: Base, spots: seq<Spot>, objects: seq<Obj>, maxDepth: int, row: CteRow): nat {
    if spots == [] then 0
    else
      (if IsRowFrom(base, objects, spots[0], 1, maxDepth, row) then 1 else 0)
         + ChainCount(base, spots[1..], objects, maxDepth, row)
  }

  lemma {:induction false} OnceIfDistinct(rows: seq<CteRow>, row: CteRow)
    requires DistinctTrails(rows)
    ensures multiset(rows)[row] == if row in rows then 1 else 0
  {
    if rows != [] {
      assert rows == [rows[0]] + rows[1..];
      OnceIfDistinct(rows[1..], row);
    }
  }

  lemma OneSpotCount(base: Base, s: Spot, objects: seq<Obj>, maxDepth: int, row: CteRow)
    requires NoRepeats(objects) && UniqueUids(objects) && maxDepth >= 1
    ensures multiset(RowsBelow(base, s, objects, maxDepth))[row] ==
            if IsRowFrom(base, objects, s, 1, maxDepth, row) then 1 else 0
  {
    hide RowsBelow, IsRowFrom, NoRepeats, UniqueUids, DistinctTrails;
    TrailsDiffer(base, s, objects, maxDepth);
    OnceIfDistinct(RowsBelow(base, s, objects, maxDepth), row);
    RowsAreChains(base, s, objects, maxDepth, row);
  }

  lemma {:induction false} BagCounts(base: Base, spots: seq<Spot>, objects: seq<Obj>, maxDepth: int, row: CteRow)
    requires NoRepeats(objects) && UniqueUids(objects) && maxDepth >= 1
    ensures ClosureBag(base, spots, objects, maxDepth)[row] == ChainCount(base, spots, objects, maxDepth, row)
  {
    if spots != [] {
      hide RowsBelow, IsRowFrom, NoRepeats, UniqueUids;
      BagCounts(base, spots[1..], objects, maxDepth, row);
      OneSpotCount(base, spots[0], objects, maxDepth, row);
    }
  }

  /** One row per parent and chain: the emitted CTE returns a row exactly as often as it is the row of
      a chain of distinct UIDs, of at most `maxDepth` objects, below one of the parents. */
  lemma OneRowPerParentAndChain(c: Cte, roots: seq<Obj>, objects: seq<Obj>, row: CteRow)
    requires NoRepeats(objects) && UniqueUids(objects) && c.maxDepth >= 1
    ensures multiset(EvalCte(c, roots, objects))[row]
            == ChainCount(c.base, Parents(c, roots, objects), objects, c.maxDepth, row)
  {
    hide EvalCte, ClosureBag, ChainCount, Parents;
    EmittedByParent(c, roots, objects);
    BagCounts(c.base, Parents(c, roots, objects), objects, c.maxDepth, row);
  }

  lemma {:induction false} InSomeClosure(base: Base, spots: seq<Spot>, objects: seq<Obj>, maxDepth: int, row: CteRow)
    requires maxDepth >= 1
    ensures row in ClosureBag(base, spots, objects, maxDepth)
       <==> exists s :: s in spots && IsRowFrom(base, objects, s, 1, maxDepth, row)
  {
    if spots != [] {
      hide RowsBelow, IsRowFrom;
      InSomeClosure(base, spots[1..], objects, maxDepth, row);
      RowsAreChains(base, spots[0], objects, maxDepth, row);
      assert forall s :: s in spots <==> s == spots[0] || s in spots[1..];
      assert row in multiset(RowsBelow(base, spots[0], objects, maxDepth))
             <==> row in RowsBelow(base, spots[0], objects, maxDepth);
    }
  }

  /** The emitted CTE returns the row of every chain of at most `maxDepth` objects below any of its
      parents, and no other row. */
  lemma EmittedRowsAreChains(c: Cte, roots: seq<Obj>, objects: seq<Obj>, row: CteRow)
    requires c.maxDepth >= 1
    ensures row in EvalCte(c, roots, objects)
       <==> exists s :: s in Parents(c, roots, objects) && IsRowFrom(c.base, objects, s, 1, c.maxDepth, row)
  {
    hide EvalCte, ClosureBag, Parents, IsRowFrom;
    EmittedByParent(c, roots, objects);
    InSomeClosure(c.base, Parents(c, roots, objects), objects, c.maxDepth, row);
    assert row in EvalCte(c, roots, objects) <==> row in multiset(EvalCte(c, roots, objects));
  }

  // ----- reachability -----

  /** The emitted CTE has a row of a chain from `s` to `o`. */
  ghost predicate FoundFrom(c: Cte, roots: seq<Obj>, objects: seq<Obj>, s: Spot, o: Obj) {
    exists row :: row in EvalCte(c, roots, objects) && IsRowFrom(c.base, objects, s, 1, c.maxDepth, row)
      && row.spot.obj == o
  }

  /** For every parent the emitted CTE finds exactly the objects within reach of 1 to `maxDepth` steps,
      cycles or not. */
  lemma EmittedClosureExact(c: Cte, roots: seq<Obj>, objects: seq<Obj>, s: Spot, o: Obj)
    requires UniqueUids(objects) && c.maxDepth >= 1 && s in Parents(c, roots, objects)
    ensures FoundFrom(c, roots, objects, s, o) <==> WithinReach(c.base, objects, s.obj, c.maxDepth, o)
  {
    hide EvalCte, RowsBelow, Parents, IsRowFrom, WithinReach, UniqueUids;
    ClosureExact(c.base, s, objects, c.maxDepth, o);
    if FoundFrom(c, roots, objects, s, o) {
      var row :| row in EvalCte(c, roots, objects) && IsRowFrom(c.base, objects, s, 1, c.maxDepth, row)
                 && row.spot.obj == o;
      RowsAreChains(c.base, s, objects, c.maxDepth, row);
    }
    if Finds(c.base, s, objects, c.maxDepth, o) {
      var row :| row in RowsBelow(c.base, s, objects, c.maxDepth) && row.spot.obj == o;
      RowsAreChains(c.base, s, objects, c.maxDepth, row);
      EmittedRowsAreChains(c, roots, objects, row);
    }
  }

  /** Two emitted CTEs with the same depth limit, one over descendants and one over owners: from parent
      `a` the one finds parent `b` exactly when from `b` the other finds `a`. */
  lemma EmittedConverse(down: Cte, up: Cte, downRoots: seq<Obj>, upRoots: seq<Obj>, objects: seq<Obj>, a: Spot, b: Spot)
    requires UniqueUids(objects) && down.base == OwnedBy && up.base == OwnerOf && down.maxDepth == up.maxDepth >= 1
    requires a in Parents(down, downRoots, objects) && b in Parents(up, upRoots, objects) && a.obj in objects
             && b.obj in objects
    ensures FoundFrom(down, downRoots, objects, a, b.obj) <==> FoundFrom(up, upRoots, objects, b, a.obj)
  {
    hide FoundFrom, Finds, WithinReach, UniqueUids, Parents;
    EmittedClosureExact(down, downRoots, objects, a, b.obj);
    EmittedClosureExact(up, upRoots, objects, b, a.obj);
    ClosureExact(OwnedBy, a, objects, down.maxDepth, b.obj);
    ClosureExact(OwnerOf, b, objects, down.maxDepth, a.obj);
    TransitiveConverse(a, b, objects, down.maxDepth);
  }

  /** With a limit of at least the number of stored UIDs, the emitted CTE finds for each parent
      everything reachable at any distance. */
  lemma EmittedDeepEnough(c: Cte, roots: seq<Obj>, objects: seq<Obj>, s: Spot, ws: seq<Obj>)
    requires UniqueUids(objects) && c.maxDepth >= 1 && c.maxDepth >= |UidSet(objects)|
             && s in Parents(c, roots, objects)
    requires ws != [] && IsWalk(c.base, objects, s.obj, ws)
    ensures FoundFrom(c, roots, objects, s, End(s.obj, ws))
  {
    hide FoundFrom, Finds, WithinReach, UniqueUids, Parents, IsWalk;
    DeepEnough(c.base, s, objects, c.maxDepth, ws);
    ClosureExact(c.base, s, objects, c.maxDepth, End(s.obj, ws));
    EmittedClosureExact(c, roots, objects, s, End(s.obj, ws));
  }

  /** `row` goes one object further than `before`. */
  ghost predicate ExtendsRow(before: CteRow, row: CteRow) {
    && row.spot.path == before.spot.path + Segment(row.spot.obj)
    && row.depth == before.depth + 1
    && row.visited == before.visited + [row.spot.obj.uid]
  }

  /** Every row of the emitted CTE that is not a direct child extends another row of it. */
  lemma EmittedPrefixClosed(c: Cte, roots: seq<Obj>, objects: seq<Obj>, row: CteRow) returns (before: CteRow)
    requires c.maxDepth >= 1 && row in EvalCte(c, roots, objects) && row.depth > 1
    ensures before in EvalCte(c, roots, objects) && ExtendsRow(before, row)
  {
    hide EvalCte, RowsBelow, Parents, IsRowFrom, Segment;
    EmittedRowsAreChains(c, roots, objects, row);
    var s :| s in Parents(c, roots, objects) && IsRowFrom(c.base, objects, s, 1, c.maxDepth, row);
    RowsAreChains(c.base, s, objects, c.maxDepth, row);
    before := PrefixClosed(c.base, s, objects, c.maxDepth, row);
    RowsAreChains(c.base, s, objects, c.maxDepth, before);
    EmittedRowsAreChains(c, roots, objects, before);
  }

  /** Trails identify rows below one parent only: two roots that own one object give two rows with the
      same trail, at different paths. */
  lemma SharedChildTwice(a: Spot, b: Spot, x: Obj)
    requires x.cluster == a.obj.cluster == b.obj.cluster && a.obj.uid in x.ownerUids && b.obj.uid in x.ownerUids
    ensures var rows := CteBase(OwnedBy, [a, b], [x]);
      |rows| == 2 && rows[0].visited == rows[1].visited == [x.uid]
      && rows[0].spot.path == a.path + Segment(x) && rows[1].spot.path == b.path + Segment(x)
  {
    hide Segment;
    OneFollower(a, x);
    OneFollower(b, x);
    BaseOne(OwnedBy, [a, b], [x]);
    BaseOne(OwnedBy, [b], [x]);
    assert [a, b][1..] == [b] && [b][1..] == [];
    assert CteBase(OwnedBy, [a], [x]) == Starts(a, Followers(OwnedBy, a.obj, [x])) + CteBase(OwnedBy, [a][1..], [x]);
    assert CteBase(OwnedBy, [b], [x]) == Starts(b, Followers(OwnedBy, b.obj, [x])) + CteBase(OwnedBy, [b][1..], [x]);
  }

  lemma OneFollower(s: Spot, x: Obj)
    requires x.cluster == s.obj.cluster && s.obj.uid in x.ownerUids
    ensures Starts(s, Followers(OwnedBy, s.obj, [x])) == [CteRow(Spot(s.path + Segment(x), x), 1, [x.uid])]
  {
    hide Segment;
    assert [x][1..] == [];
    assert Followers(OwnedBy, s.obj, [x]) == [x];
  }

  // ----- the meaning of a transitive block -----

  lemma {:induction false} SpotRowsMembers(w: World, k: Walk, spots: seq<Spot>, r: Row)
    ensures r in SpotRows(spots, [], ShapeProjection(k.spec.objects), k.level, k.name, w.cat)
       <==> exists s :: s in spots && r == OwnRow(k, s)
  {
    if spots != [] {
      hide OwnRow;
      SpotRowsMembers(w, k, spots[1..], r);
      OwnRowIs(w, k, spots[0]);
      assert forall s :: s in spots <==> s == spots[0] || s in spots[1..];
    }
  }

  function OwnRow(k: Walk, s: Spot): Row {
    Row(s.obj, Projected(ShapeProjection(k.spec.objects), s.obj), s.path, k.level, k.name)
  }

  lemma OwnRowIs(w: World, k: Walk, s: Spot)
    ensures SpotRow(s, [], ShapeProjection(k.spec.objects), k.level, k.name, w.cat) == [OwnRow(k, s)]
  {
  }

  lemma {:induction false} CteSpotsMembers(rows: seq<CteRow>, s: Spot)
    ensures s in CteSpots(rows) <==> exists r :: r in rows && r.spot == s
  {
    if rows != [] {
      CteSpotsMembers(rows[1..], s);
      assert forall r :: r in rows <==> r == rows[0] || r in rows[1..];
    }
  }

  ghost predicate AllAtLevel(bag: multiset<Row>, level: nat) {
    forall r :: r in bag ==> r.level == level
  }

  lemma {:induction false} SubTreesLevel(w: World, under: string, ys: seq<Obj>, name: string, spec: RelationSpec,
                                         level: nat)
    ensures AllAtLevel(Bag(under, SubTrees(w, ys, name, spec, level)), level)
  {
    if ys != [] {
      hide Accepts, BlockClauses, Projected, Segment;
      var rest := SubTrees(w, ys[1..], name, spec, level);
      SubTreesLevel(w, under, ys[1..], name, spec, level);
      BagStep(under, SubTrees(w, ys, name, spec, level)[0], rest);
    }
  }

  lemma {:induction false} SubsNamedLevel(w: World, under: string, x: Obj, shape: ObjectsSpec, names: seq<string>,
                                          level: nat)
    requires forall k :: k in names ==> k in shape.relations
    ensures AllAtLevel(Bag(under, SubsNamed(w, x, shape, names, level)), level)
  {
    if names != [] {
      hide Bag, SubTrees, Matches;
      var name := names[0];
      var spec := shape.relations[name];
      var ys := Matches(JoinFor(BaseRelation(name), spec.filters), x, w.objects);
      var first := if IsTransitive(name) then [] else SubTrees(w, ys, name, spec, level);
      SubsNamedLevel(w, under, x, shape, names[1..], level);
      SubTreesLevel(w, under, ys, name, spec, level);
      BagNone(under);
      BagConcat(under, first, SubsNamed(w, x, shape, names[1..], level));
    } else {
      BagNone(under);
    }
  }

  lemma BagNone(under: string)
    ensures Bag(under, []) == multiset{}
  {
  }

  lemma {:induction false} SubsBagLevel(w: World, spots: seq<Spot>, shape: Option<ObjectsSpec>, level: nat)
    ensures AllAtLevel(SubsBag(w, spots, shape, level), level)
  {
    if spots != [] {
      hide Bag, SubsNamed;
      SubsBagLevel(w, spots[1..], shape, level);
      BagNone(spots[0].path);
      if shape.Some? {
        SubsNamedLevel(w, spots[0].path, spots[0].obj, shape.value, Sorted(shape.value.relations.Keys), level);
      }
    }
  }

  /** The block's own rows below `s` have an object at the block's level. */
  ghost predicate Holds(bag: multiset<Row>, level: nat, o: Obj) {
    exists r :: r in bag && r.level == level && r.obj == o
  }

  lemma OwnRowsHold(w: World, k: Walk, rows: seq<CteRow>, o: Obj)
    ensures Holds(SpotsBag(w, k, CteSpots(rows)), k.level, o) <==> exists row :: row in rows && row.spot.obj == o
  {
    hide SpotRows, CteSpots, SubsBag;
    var spots := CteSpots(rows);
    var own := SpotRows(spots, [], ShapeProjection(k.spec.objects), k.level, k.name, w.cat);
    SubsBagLevel(w, spots, k.spec.objects, k.level + 1);
    if r :| r in SpotsBag(w, k, spots) && r.level == k.level && r.obj == o {
      assert r in own;
      SpotRowsMembers(w, k, spots, r);
      var s :| s in spots && r == OwnRow(k, s);
      CteSpotsMembers(rows, s);
    }
    if row :| row in rows && row.spot.obj == o {
      CteSpotsMembers(rows, row.spot);
      var r := OwnRow(k, row.spot);
      SpotRowsMembers(w, k, spots, r);
      assert r in own;
      assert r in SpotsBag(w, k, spots);
    }
  }

  /** What a transitive block of an answer holds: below any object, at the block's level, exactly the
      objects within reach of 1 to `maxDepth` steps. */
  lemma BlockHoldsReach(w: World, s: Spot, name: string, spec: RelationSpec, level: nat, base: Base, o: Obj)
    requires UniqueUids(w.objects) && 1 <= level <= w.maxDepth && IsTransitive(name)
             && BaseOf(BaseRelation(name)) == Some(base)
    ensures Holds(Bag(s.path, Related(w, s.obj, name, spec, level)), level, o)
            <==> WithinReach(base, w.objects, s.obj, w.maxDepth, o)
  {
    hide Bag, Related, WithinReach, UniqueUids, IsTransitive, WorkBag, SpotsBag, CteSpots, CteBase, CteRows, Holds,
         AtDepth;
    var k := Walk(base, name, spec, level);
    var first := CteBase(base, [s], w.objects);
    SpotBagOne(w, s, name, spec, level);
    WalkedBlock(w, k, [s]);
    CteBaseDepth(base, [s], w.objects);
    CteComplete(w, k, first, 1);
    OwnRowsHold(w, k, CteRows(base, first, w.objects, w.maxDepth, 1), o);
    ClosureExact(base, s, w.objects, w.maxDepth, o);
  }
}
