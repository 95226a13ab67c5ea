/** The tree of row indices behind an answer: showing it gives the assembled results, and counting in
    it gives the occurrences of each row. */
module IndexTrees {
  import opened Options
  import opened Text
  import opened Objects
  import opened Spec
  import opened Assembly
  import opened Conservation

  /** A row and, per relation, the rows attached to it. */
  datatype Placed = Placed(index: nat, kids: map<string, Branch>)

  datatype Branch = Branch(items: seq<Placed>)

  // ----- the tree of a row -----

  ghost function PlacedAt(rows: seq<Row>, i: nat): Placed
    requires Pathed(rows) && i < |rows|
    decreases |rows| - i, 0, 0
  {
    Placed(i, map rel | rel in KidRels(rows, i) :: Branch(PlacedKids(rows, i, rel)))
  }

  ghost function PlacedKids(rows: seq<Row>, i: nat, rel: string): seq<Placed>
    requires Pathed(rows) && i < |rows|
    decreases |rows| - i - 1, 2, 0
  {
    KidsComeLater(rows, i, rel);
    PlacedIn(rows, Kids(rows, |rows|, i, rel), i + 1)
  }

  ghost function PlacedIn(rows: seq<Row>, ks: seq<nat>, lo: nat): (ps: seq<Placed>)
    requires Listing(rows, ks, lo)
    ensures |ps| == |ks|
    decreases |rows| - lo, 1, |ks|
  {
    if ks == [] then []
    else PlacedIn(rows, ks[..|ks| - 1], lo) + [PlacedAt(rows, ks[|ks| - 1])]
  }

  /** The whole forest of row indices. */
  ghost function IndexForest(rows: seq<Row>): seq<Placed>
    requires Pathed(rows)
  {
    PlacedIn(rows, Roots(rows, |rows|), 0)
  }

  // ----- showing it -----

  function RowNo(rows: seq<Row>, i: nat): Row {
    if i < |rows| then rows[i] else Row(NOBODY, JNull, "", 0, "")
  }

  const NOBODY := Obj("", "", "", "", "", "", "", "", "", map[], [], [], [], [], None, JNull)

  ghost function Shown(rows: seq<Row>, p: Placed, shape: Option<ObjectsSpec>): ObjectResult
    decreases p, 0, 0
  {
    Present(RowNo(rows, p.index), shape, map rel | rel in p.kids ::
      ShownAll(rows, p.kids[rel].items, RelationShape(shape, rel)))
  }

  ghost function ShownAll(rows: seq<Row>, ps: seq<Placed>, shape: Option<ObjectsSpec>): seq<ObjectResult>
    decreases ps, 1, |ps|
  {
    if ps == [] then []
    else ShownAll(rows, ps[..|ps| - 1], shape) + [Shown(rows, ps[|ps| - 1], shape)]
  }

  lemma {:induction false} ShownIsResult(rows: seq<Row>, i: nat, shape: Option<ObjectsSpec>)
    requires Pathed(rows) && i < |rows|
    ensures Shown(rows, PlacedAt(rows, i), shape) == ResultAt(rows, i, shape)
    decreases |rows| - i, 0, 0
  {
    hide Kids, KidRels, Present, ShownAll, PlacedKids, KidResults;
    var p := PlacedAt(rows, i);
    var shown := map rel | rel in p.kids :: ShownAll(rows, p.kids[rel].items, RelationShape(shape, rel));
    forall rel | rel in shown
      ensures shown[rel] == KidResults(rows, i, rel, shape)
    {
      KidsShown(rows, i, rel, shape);
    }
    RelationsAgree(rows, i, shape, shown);
  }

  lemma {:induction false} KidsShown(rows: seq<Row>, i: nat, rel: string, shape: Option<ObjectsSpec>)
    requires Pathed(rows) && i < |rows|
    ensures ShownAll(rows, PlacedKids(rows, i, rel), RelationShape(shape, rel)) == KidResults(rows, i, rel, shape)
    decreases |rows| - i - 1, 2, 0
  {
    hide Kids, ShownAll, PlacedIn, ResultsAt;
    KidsComeLater(rows, i, rel);
    ListShown(rows, Kids(rows, |rows|, i, rel), RelationShape(shape, rel), i + 1);
  }

  lemma {:induction false} ListShown(rows: seq<Row>, ks: seq<nat>, shape: Option<ObjectsSpec>, lo: nat)
    requires Listing(rows, ks, lo)
    ensures ShownAll(rows, PlacedIn(rows, ks, lo), shape) == ResultsAt(rows, ks, shape, lo)
    decreases |rows| - lo, 1, |ks|
  {
    if ks != [] {
      hide Shown, PlacedAt, ResultAt;
      var last := |ks| - 1;
      ListShown(rows, ks[..last], shape, lo);
      ShownIsResult(rows, ks[last], shape);
      var ps := PlacedIn(rows, ks, lo);
      assert ps[..|ps| - 1] == PlacedIn(rows, ks[..last], lo);
    }
  }

  // ----- counting in it -----

  ghost function Count(p: Placed, j: nat): nat
    decreases p, 1, 0
  {
    (if p.index == j then 1 else 0) + CountUnder(p, Sorted(p.kids.Keys), j)
  }

  ghost function CountUnder(p: Placed, rels: seq<string>, j: nat): nat
    requires forall r :: r in rels ==> r in p.kids
    decreases p, 0, |rels|
  {
    if rels == [] then 0
    else CountUnder(p, rels[..|rels| - 1], j) + CountAll(p.kids[rels[|rels| - 1]].items, j)
  }

  ghost function CountAll(ps: seq<Placed>, j: nat): nat
    decreases ps, 1, |ps|
  {
    if ps == [] then 0 else CountAll(ps[..|ps| - 1], j) + Count(ps[|ps| - 1], j)
  }

  lemma {:induction false} CountIsOccurs(rows: seq<Row>, i: nat, j: nat)
    requires Pathed(rows) && i < |rows|
    ensures Count(PlacedAt(rows, i), j) == OccursAt(rows, i, j)
    decreases |rows| - i, 0, 0
  {
    hide KidRels, PlacedKids, CountUnder, OccursUnder;
    var p := PlacedAt(rows, i);
    assert p.kids.Keys == KidRels(rows, i);
    UnderCounted(rows, i, Sorted(KidRels(rows, i)), j);
  }

  lemma {:induction false} UnderCounted(rows: seq<Row>, i: nat, rels: seq<string>, j: nat)
    requires Pathed(rows) && i < |rows| && forall r :: r in rels ==> r in KidRels(rows, i)
    ensures PlacedAt(rows, i).kids.Keys == KidRels(rows, i)
    ensures CountUnder(PlacedAt(rows, i), rels, j) == OccursUnder(rows, i, rels, j)
    decreases |rows| - i - 1, 2, |rels|
  {
    KidOfPlaced(rows, i, "");
    if rels != [] {
      hide KidRels, Kids, PlacedIn, CountAll, OccursIn, PlacedAt;
      var last := |rels| - 1;
      assert rels[last] in rels;
      KidOfPlaced(rows, i, rels[last]);
      KidsComeLater(rows, i, rels[last]);
      UnderCounted(rows, i, rels[..last], j);
      ListCounted(rows, Kids(rows, |rows|, i, rels[last]), j, i + 1);
    }
  }

  lemma KidOfPlaced(rows: seq<Row>, i: nat, rel: string)
    requires Pathed(rows) && i < |rows|
    ensures PlacedAt(rows, i).kids.Keys == KidRels(rows, i)
    ensures rel in KidRels(rows, i) ==> PlacedAt(rows, i).kids[rel].items == PlacedKids(rows, i, rel)
  {
    hide KidRels, PlacedKids;
  }

  lemma {:induction false} ListCounted(rows: seq<Row>, ks: seq<nat>, j: nat, lo: nat)
    requires Listing(rows, ks, lo)
    ensures CountAll(PlacedIn(rows, ks, lo), j) == OccursIn(rows, ks, j, lo)
    decreases |rows| - lo, 1, |ks|
  {
    if ks != [] {
      hide Count, PlacedAt, OccursAt;
      var last := |ks| - 1;
      ListCounted(rows, ks[..last], j, lo);
      CountIsOccurs(rows, ks[last], j);
      var ps := PlacedIn(rows, ks, lo);
      assert ps[..|ps| - 1] == PlacedIn(rows, ks[..last], lo);
    }
  }

  /** One forest of row indices is behind both: its nodes shown are the assembled answer, and it holds
      each row once if the rows it hangs from lead up to a root row, and never otherwise. */
  lemma AnswerHoldsOnce(rows: seq<Row>, shape: Option<ObjectsSpec>, j: nat)
    requires Pathed(rows) && j < |rows|
    ensures Assembled(rows, shape) == ShownAll(rows, IndexForest(rows), shape)
    ensures CountAll(IndexForest(rows), j) == Occurrences(rows, j) == Indicator(rows[Top(rows, j)].level == 0)
  {
    hide Roots, ShownAll, PlacedIn, ResultsAt, CountAll, OccursIn;
    assert Listing(rows, Roots(rows, |rows|), 0);
    ListShown(rows, Roots(rows, |rows|), shape, 0);
    ListCounted(rows, Roots(rows, |rows|), j, 0);
    PlacedOnceOrDropped(rows, j);
  }
}
