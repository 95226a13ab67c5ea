/** Assembly undoes flattening: the path-sorted rows of a relation forest are put back
    together into exactly that forest's answer. */
module Reassembly {
  import opened Options
  import opened Text
  import opened Spec
  import opened Paths
  import opened Assembly
  import opened Forest

  // ----- the answer of a forest, read off the forest itself -----

  function KeptUnder(kids: seq<Tree>, rel: string): (ts: seq<Tree>)
    ensures forall t :: t in ts <==> t in kids && t.kept && t.rel == rel
  {
    if kids == [] then []
    else
      var rest := KeptUnder(kids[1..], rel);
      if kids[0].kept && kids[0].rel == rel then [kids[0]] + rest else rest
  }

  function Insert(t: Tree, ts: seq<Tree>): (r: seq<Tree>)
    ensures forall u :: u in r <==> u == t || u in ts
  {
    if ts == [] then [t]
    else if Less(Segment(ts[0].obj), Segment(t.obj)) then [ts[0]] + Insert(t, ts[1..])
    else [t] + ts
  }

  function SortBySegment(ts: seq<Tree>): (r: seq<Tree>)
    ensures forall u :: u in r <==> u in ts
  {
    if ts == [] then [] else Insert(ts[0], SortBySegment(ts[1..]))
  }

  function KeptRels(kids: seq<Tree>): set<string> {
    set t | t in kids && t.kept :: t.rel
  }

  /** The answer below one place: per relation, the kept kids in the order of their segments. */
  ghost function Render(p: Place, shape: Option<ObjectsSpec>): ObjectResult
    decreases p.tree, 2
  {
    Present(RowAt(p), shape, RenderRelations(p, shape))
  }

  ghost function RenderRelations(p: Place, shape: Option<ObjectsSpec>): (m: map<string, seq<ObjectResult>>)
    ensures m.Keys == KeptRels(p.tree.kids)
    decreases p.tree, 1
  {
    map rel | rel in KeptRels(p.tree.kids) :: RenderKids(p, rel, shape)
  }

  ghost function RenderKids(p: Place, rel: string, shape: Option<ObjectsSpec>): seq<ObjectResult>
    decreases p.tree, 0
  {
    var ts := SortBySegment(KeptUnder(p.tree.kids, rel));
    seq(|ts|, x requires 0 <= x < |ts| =>
      assert ts[x] in ts; Render(Place(PathAt(p), ts[x]), RelationShape(shape, rel)))
  }

  ghost function RenderForest(ts: seq<Tree>, shape: Option<ObjectsSpec>): seq<ObjectResult> {
    var sorted := SortBySegment(ts);
    seq(|sorted|, x requires 0 <= x < |sorted| => Render(Place("", sorted[x]), shape))
  }

  // ----- sorting -----

  ghost predicate BySegment(ts: seq<Tree>) {
    forall i, j :: 0 <= i < j < |ts| ==> Less(Segment(ts[i].obj), Segment(ts[j].obj))
  }

  ghost predicate NewSegment(t: Tree, ts: seq<Tree>) {
    forall u :: u in ts ==> Segment(u.obj) != Segment(t.obj)
  }

  ghost predicate DistinctSegments(ts: seq<Tree>) {
    forall i, j :: 0 <= i < j < |ts| ==> Segment(ts[i].obj) != Segment(ts[j].obj)
  }

  lemma BySegmentCons(t: Tree, ts: seq<Tree>)
    requires BySegment(ts) && forall u :: u in ts ==> Less(Segment(t.obj), Segment(u.obj))
    ensures BySegment([t] + ts)
  {
    hide Less, Segment;
    forall i, j | 0 <= i < j < |[t] + ts|
      ensures Less(Segment(([t] + ts)[i].obj), Segment(([t] + ts)[j].obj))
    {
      assert ([t] + ts)[j] == ts[j - 1];
    }
  }

  lemma {:induction false} InsertSorted(t: Tree, ts: seq<Tree>)
    requires BySegment(ts) && NewSegment(t, ts)
    ensures BySegment(Insert(t, ts))
  {
    hide Less, Segment;
    if ts != [] {
      var first, rest := ts[0], ts[1..];
      assert ts == [first] + rest;
      assert forall u :: u in rest ==> Less(Segment(first.obj), Segment(u.obj));
      if Less(Segment(first.obj), Segment(t.obj)) {
        InsertSorted(t, rest);
        BySegmentCons(first, Insert(t, rest));
      } else {
        FirstOfAll(t, ts);
        BySegmentCons(t, ts);
      }
    }
  }

  lemma FirstOfAll(t: Tree, ts: seq<Tree>)
    requires ts != [] && BySegment(ts) && NewSegment(t, ts) && !Less(Segment(ts[0].obj), Segment(t.obj))
    ensures forall u :: u in ts ==> Less(Segment(t.obj), Segment(u.obj))
  {
    hide Less, Segment;
    LessTotal(Segment(ts[0].obj), Segment(t.obj));
    assert ts[0] in ts;
    forall u | u in ts && u != ts[0]
      ensures Less(Segment(t.obj), Segment(u.obj))
    {
      LessTransitive(Segment(t.obj), Segment(ts[0].obj), Segment(u.obj));
    }
  }

  lemma {:induction false} SortSorted(ts: seq<Tree>)
    requires DistinctSegments(ts)
    ensures BySegment(SortBySegment(ts))
  {
    if ts != [] {
      SortSorted(ts[1..]);
      InsertSorted(ts[0], SortBySegment(ts[1..]));
    }
  }

  // ----- the rows of a forest, as the database returns them -----

  ghost predicate ByPath(rows: seq<Row>) {
    forall i, j :: 0 <= i < j < |rows| ==> Less(rows[i].path, rows[j].path)
  }

  /** `rows` are the kept rows of a forest in strict path order. */
  ghost predicate Presents(rows: seq<Row>, ts: seq<Tree>) {
    && WellLevelled(ts)
    && DotFreeBelow(ts)
    && DistinctPaths(Places("", ts))
    && ByPath(rows)
    && (forall r :: r in rows <==> r in Rows(Places("", ts)))
  }

  /** `rows[j]` is the row of the kept place `q`. */
  ghost predicate At(rows: seq<Row>, ts: seq<Tree>, j: nat, q: Place)
    requires j < |rows|
  {
    q in Places("", ts) && q.tree.kept && rows[j] == RowAt(q)
  }

  lemma PlaceOfRow(rows: seq<Row>, ts: seq<Tree>, j: nat) returns (q: Place)
    requires Presents(rows, ts) && j < |rows|
    ensures At(rows, ts, j, q)
  {
    assert rows[j] in rows;
    RowsMembers(Places("", ts), rows[j]);
    q :| q in Places("", ts) && q.tree.kept && RowAt(q) == rows[j];
  }

  lemma RowOfPlace(rows: seq<Row>, ts: seq<Tree>, q: Place) returns (j: nat)
    requires Presents(rows, ts) && q in Places("", ts) && q.tree.kept
    ensures j < |rows| && At(rows, ts, j, q)
  {
    RowsMembers(Places("", ts), RowAt(q));
    assert RowAt(q) in rows;
    j :| 0 <= j < |rows| && rows[j] == RowAt(q);
  }

  lemma RowsArePathed(rows: seq<Row>, ts: seq<Tree>)
    requires Presents(rows, ts)
    ensures Pathed(rows)
  {
    forall j | 0 <= j < |rows|
      ensures rows[j].path != ""
    {
      var q := PlaceOfRow(rows, ts, j);
      PathsStartWithDot(ts, q);
    }
  }

  lemma PathFixesRow(rows: seq<Row>, i: nat, j: nat)
    requires ByPath(rows) && i < |rows| && j < |rows| && rows[i].path == rows[j].path
    ensures i == j
  {
    LessIrreflexive(rows[i].path);
  }

  /** One row hangs from another exactly when its place is a kid of the other's place. */
  lemma OwnerIsParent(rows: seq<Row>, ts: seq<Tree>, i: nat, p: Place, j: nat, q: Place)
    requires Presents(rows, ts) && i < |rows| && j < |rows| && At(rows, ts, i, p) && At(rows, ts, j, q)
    ensures Owner(rows, j) == Some(i) <==> KidOf(p, q)
  {
    HangingIsKid(ts, p, q);
    if KidOf(p, q) {
      PrefixSortsFirst(PathAt(p), Segment(q.tree.obj));
      if j < i {
        LessAsymmetric(PathAt(p), PathAt(q));
        assert false;
      }
      PathFixesRow(rows, i, LastAt(rows, j + 1, PathAt(p)).value);
    }
  }

  function PathsOf(rows: seq<Row>, ks: seq<nat>): (ps: seq<string>)
    requires Below(ks, |rows|)
  {
    seq(|ks|, x requires 0 <= x < |ks| => rows[ks[x]].path)
  }

  function TreePaths(under: string, ts: seq<Tree>): (ps: seq<string>) {
    seq(|ts|, x requires 0 <= x < |ts| => PathAt(Place(under, ts[x])))
  }

  lemma KidPathsAscend(rows: seq<Row>, ks: seq<nat>)
    requires ByPath(rows) && Below(ks, |rows|) && Increasing(ks)
    ensures Ascending(PathsOf(rows, ks))
  {
  }

  lemma TreePathsAscend(under: string, ts: seq<Tree>)
    requires BySegment(ts)
    ensures Ascending(TreePaths(under, ts))
  {
    forall i, j | 0 <= i < j < |ts|
      ensures Less(TreePaths(under, ts)[i], TreePaths(under, ts)[j])
    {
      LessUnderPrefix(under, Segment(ts[i].obj), Segment(ts[j].obj));
    }
  }

  /** A list of row indices and a list of trees stand for the same rows. */
  ghost predicate Aligned(rows: seq<Row>, ks: seq<nat>, under: string, ts: seq<Tree>) {
    && Below(ks, |rows|)
    && |ks| == |ts|
    && (forall x :: 0 <= x < |ks| ==> rows[ks[x]] == RowAt(Place(under, ts[x])))
  }

  ghost predicate Listed(rows: seq<Row>, ks: seq<nat>, r: Row)
    requires Below(ks, |rows|)
  {
    exists x :: 0 <= x < |ks| && rows[ks[x]] == r
  }

  ghost predicate OnTree(under: string, ts: seq<Tree>, r: Row) {
    exists y :: 0 <= y < |ts| && RowAt(Place(under, ts[y])) == r
  }

  lemma PathsAgree(rows: seq<Row>, ks: seq<nat>, under: string, ts: seq<Tree>, s: string)
    requires Below(ks, |rows|)
    requires forall r :: Listed(rows, ks, r) <==> OnTree(under, ts, r)
    ensures s in PathsOf(rows, ks) <==> s in TreePaths(under, ts)
  {
    var a, b := PathsOf(rows, ks), TreePaths(under, ts);
    if s in a {
      var x :| 0 <= x < |a| && a[x] == s;
      assert Listed(rows, ks, rows[ks[x]]);
      var y :| 0 <= y < |ts| && RowAt(Place(under, ts[y])) == rows[ks[x]];
      assert b[y] == s;
    }
    if s in b {
      var y :| 0 <= y < |b| && b[y] == s;
      assert OnTree(under, ts, RowAt(Place(under, ts[y])));
      var x :| 0 <= x < |ks| && rows[ks[x]] == RowAt(Place(under, ts[y]));
      assert a[x] == s;
    }
  }

  /** Row indices in order and trees in segment order that stand for the same set of rows are aligned. */
  lemma AlignByPath(rows: seq<Row>, ks: seq<nat>, under: string, ts: seq<Tree>)
    requires ByPath(rows) && Below(ks, |rows|) && Increasing(ks) && BySegment(ts)
    requires forall r :: Listed(rows, ks, r) <==> OnTree(under, ts, r)
    ensures Aligned(rows, ks, under, ts)
  {
    var a, b := PathsOf(rows, ks), TreePaths(under, ts);
    KidPathsAscend(rows, ks);
    TreePathsAscend(under, ts);
    forall s
      ensures s in a <==> s in b
    {
      PathsAgree(rows, ks, under, ts, s);
    }
    AscendingUnique(a, b);
    forall x | 0 <= x < |ks|
      ensures rows[ks[x]] == RowAt(Place(under, ts[x]))
    {
      assert OnTree(under, ts, RowAt(Place(under, ts[x])));
      var y :| 0 <= y < |ks| && rows[ks[y]] == RowAt(Place(under, ts[x]));
      assert a[x] == b[x];
      PathFixesRow(rows, ks[x], ks[y]);
    }
  }

  // ----- the theorem -----

  lemma {:induction false} TopPlaceAt(under: string, ts: seq<Tree>, x: nat) returns (k: nat)
    requires x < |ts|
    ensures k < |Places(under, ts)| && Places(under, ts)[k] == Place(under, ts[x])
    ensures x > 0 ==> k > 0
    decreases ts
  {
    if x == 0 {
      k := 0;
    } else {
      var rest := TopPlaceAt(under, ts[1..], x - 1);
      k := rest + 1 + |Places(PathAt(Place(under, ts[0])), ts[0].kids)|;
    }
  }

  lemma {:induction false} TopSegmentsDiffer(under: string, ts: seq<Tree>)
    requires DistinctPaths(Places(under, ts))
    ensures DistinctSegments(ts)
    decreases ts
  {
    if ts != [] {
      var ps := Places(under, ts);
      var rest := Places(under, ts[1..]);
      var skip := |ps| - |rest|;
      assert ps[skip..] == rest;
      assert forall i :: 0 <= i < |rest| ==> rest[i] == ps[skip + i];
      TopSegmentsDiffer(under, ts[1..]);
      forall j | 0 < j < |ts|
        ensures Segment(ts[0].obj) != Segment(ts[j].obj)
      {
        var k := TopPlaceAt(under, ts, j);
        assert ps[0] == Place(under, ts[0]);
      }
      assert forall i, j :: 0 < i < j < |ts| ==> ts[1..][i - 1] == ts[i] && ts[1..][j - 1] == ts[j];
    }
  }

  lemma SliceDistinct(a: seq<Place>, b: seq<Place>, c: seq<Place>)
    requires DistinctPaths(a + b + c)
    ensures DistinctPaths(b) && DistinctPaths(c)
  {
    hide PathAt;
    var ps := a + b + c;
    assert forall i :: 0 <= i < |b| ==> b[i] == ps[|a| + i];
    assert forall i :: 0 <= i < |c| ==> c[i] == ps[|a| + |b| + i];
  }

  lemma {:induction false} SubforestDistinct(under: string, ts: seq<Tree>, p: Place)
    requires DistinctPaths(Places(under, ts)) && p in Places(under, ts)
    ensures DistinctPaths(Places(PathAt(p), p.tree.kids))
    decreases ts
  {
    var here := Place(under, ts[0]);
    var below, rest := Places(PathAt(here), ts[0].kids), Places(under, ts[1..]);
    assert Places(under, ts) == [here] + below + rest;
    hide Places, DistinctPaths, PathAt;
    SliceDistinct([here], below, rest);
    if p in below {
      SubforestDistinct(PathAt(here), ts[0].kids, p);
    } else if p != here {
      SubforestDistinct(under, ts[1..], p);
    }
  }

  lemma {:induction false} KeptUnderDistinct(kids: seq<Tree>, rel: string)
    requires DistinctSegments(kids)
    ensures DistinctSegments(KeptUnder(kids, rel))
  {
    if kids != [] {
      KeptUnderDistinct(kids[1..], rel);
      assert forall t :: t in kids[1..] ==> Segment(t.obj) != Segment(kids[0].obj);
    }
  }

  lemma KidsSorted(ts: seq<Tree>, p: Place, rel: string)
    requires DistinctPaths(Places("", ts)) && p in Places("", ts)
    ensures BySegment(SortBySegment(KeptUnder(p.tree.kids, rel)))
  {
    SubforestDistinct("", ts, p);
    TopSegmentsDiffer(PathAt(p), p.tree.kids);
    KeptUnderDistinct(p.tree.kids, rel);
    SortSorted(KeptUnder(p.tree.kids, rel));
  }

  lemma KidRowIsOnTree(rows: seq<Row>, ts: seq<Tree>, i: nat, p: Place, rel: string, j: nat)
    requires Presents(rows, ts) && i < |rows| && At(rows, ts, i, p)
    requires j < |rows| && IsKid(rows, i, rel, j)
    ensures OnTree(PathAt(p), SortBySegment(KeptUnder(p.tree.kids, rel)), rows[j])
  {
    var sorted := SortBySegment(KeptUnder(p.tree.kids, rel));
    var q := PlaceOfRow(rows, ts, j);
    OwnerIsParent(rows, ts, i, p, j, q);
    assert q.tree in sorted;
    var y :| 0 <= y < |sorted| && sorted[y] == q.tree;
    assert RowAt(Place(PathAt(p), sorted[y])) == rows[j];
  }

  lemma TreeKidIsListed(rows: seq<Row>, ts: seq<Tree>, i: nat, p: Place, rel: string, t: Tree)
    requires Presents(rows, ts) && i < |rows| && At(rows, ts, i, p)
    requires t in p.tree.kids && t.kept && t.rel == rel
    ensures Listed(rows, Kids(rows, |rows|, i, rel), RowAt(Place(PathAt(p), t)))
  {
    var q := Place(PathAt(p), t);
    KidsArePlaces("", ts, p, q);
    var j := RowOfPlace(rows, ts, q);
    OwnerIsParent(rows, ts, i, p, j, q);
    KidsExact(rows, |rows|, i, rel);
    assert IsKid(rows, i, rel, j);
    var ks := Kids(rows, |rows|, i, rel);
    var x :| 0 <= x < |ks| && ks[x] == j;
  }

  /** The rows hanging from a place under a relation line up with its kept kids in segment order. */
  lemma KidsAlign(rows: seq<Row>, ts: seq<Tree>, i: nat, p: Place, rel: string)
    requires Presents(rows, ts) && i < |rows| && At(rows, ts, i, p)
    ensures Aligned(rows, Kids(rows, |rows|, i, rel), PathAt(p), SortBySegment(KeptUnder(p.tree.kids, rel)))
  {
    var ks, sorted := Kids(rows, |rows|, i, rel), SortBySegment(KeptUnder(p.tree.kids, rel));
    KidsExact(rows, |rows|, i, rel);
    KidsSorted(ts, p, rel);
    forall r
      ensures Listed(rows, ks, r) <==> OnTree(PathAt(p), sorted, r)
    {
      if Listed(rows, ks, r) {
        var x :| 0 <= x < |ks| && rows[ks[x]] == r;
        assert ks[x] in ks;
        KidRowIsOnTree(rows, ts, i, p, rel, ks[x]);
      }
      if OnTree(PathAt(p), sorted, r) {
        var y :| 0 <= y < |sorted| && RowAt(Place(PathAt(p), sorted[y])) == r;
        assert sorted[y] in sorted;
        TreeKidIsListed(rows, ts, i, p, rel, sorted[y]);
      }
    }
    AlignByPath(rows, ks, PathAt(p), sorted);
  }

  lemma RelsAgree(rows: seq<Row>, ts: seq<Tree>, i: nat, p: Place, rel: string)
    requires Presents(rows, ts) && i < |rows| && At(rows, ts, i, p)
    ensures rel in KidRels(rows, i) <==> rel in KeptRels(p.tree.kids)
  {
    KidsAlign(rows, ts, i, p, rel);
    KidRelsExact(rows, i, rel);
    var sorted := SortBySegment(KeptUnder(p.tree.kids, rel));
    if sorted != [] {
      assert sorted[0] in sorted;
    }
    if rel in KeptRels(p.tree.kids) {
      var t :| t in p.tree.kids && t.kept && t.rel == rel;
      assert t in sorted;
    }
  }

  lemma RenderKidsIndex(p: Place, rel: string, shape: Option<ObjectsSpec>, x: nat)
    requires x < |SortBySegment(KeptUnder(p.tree.kids, rel))|
    ensures |RenderKids(p, rel, shape)| == |SortBySegment(KeptUnder(p.tree.kids, rel))|
    ensures SortBySegment(KeptUnder(p.tree.kids, rel))[x] in p.tree.kids
    ensures RenderKids(p, rel, shape)[x]
         == Render(Place(PathAt(p), SortBySegment(KeptUnder(p.tree.kids, rel))[x]), RelationShape(shape, rel))
  {
    var sorted := SortBySegment(KeptUnder(p.tree.kids, rel));
    assert sorted[x] in sorted;
  }

  /** The place of the `x`-th row hanging from a place. */
  lemma KidPlace(rows: seq<Row>, ts: seq<Tree>, i: nat, p: Place, rel: string, x: nat) returns (q: Place)
    requires Presents(rows, ts) && i < |rows| && At(rows, ts, i, p) && x < |Kids(rows, |rows|, i, rel)|
    ensures x < |SortBySegment(KeptUnder(p.tree.kids, rel))|
    ensures q == Place(PathAt(p), SortBySegment(KeptUnder(p.tree.kids, rel))[x])
    ensures q.tree in p.tree.kids && At(rows, ts, Kids(rows, |rows|, i, rel)[x], q)
  {
    var sorted := SortBySegment(KeptUnder(p.tree.kids, rel));
    KidsAlign(rows, ts, i, p, rel);
    assert sorted[x] in sorted;
    q := Place(PathAt(p), sorted[x]);
    KidsArePlaces("", ts, p, q);
  }

  lemma {:induction false} KidResultIsRendered(rows: seq<Row>, ts: seq<Tree>, i: nat, p: Place, rel: string,
                                               shape: Option<ObjectsSpec>, x: nat)
    requires Presents(rows, ts) && Pathed(rows) && i < |rows| && At(rows, ts, i, p) && x < |Kids(rows, |rows|, i, rel)|
    ensures x < |RenderKids(p, rel, shape)| && KidResults(rows, i, rel, shape)[x] == RenderKids(p, rel, shape)[x]
    decreases p.tree, 0
  {
    hide Presents, At, Kids, SortBySegment, KeptUnder, ResultAt, Render, RelationShape;
    var q := KidPlace(rows, ts, i, p, rel, x);
    KidsComeLater(rows, i, rel);
    ResultIsRendered(rows, ts, Kids(rows, |rows|, i, rel)[x], q, RelationShape(shape, rel));
    ResultsIndex(rows, Kids(rows, |rows|, i, rel), RelationShape(shape, rel), i + 1, x);
    RenderKidsIndex(p, rel, shape, x);
  }

  lemma {:induction false} KidResultsAreRendered(rows: seq<Row>, ts: seq<Tree>, i: nat, p: Place, rel: string,
                                                 shape: Option<ObjectsSpec>)
    requires Presents(rows, ts) && Pathed(rows) && i < |rows| && At(rows, ts, i, p)
    ensures KidResults(rows, i, rel, shape) == RenderKids(p, rel, shape)
    decreases p.tree, 1
  {
    var a, b := KidResults(rows, i, rel, shape), RenderKids(p, rel, shape);
    assert |a| == |b| == |Kids(rows, |rows|, i, rel)| by { KidsAlign(rows, ts, i, p, rel); }
    forall x | 0 <= x < |a|
      ensures a[x] == b[x]
    {
      KidResultIsRendered(rows, ts, i, p, rel, shape, x);
    }
  }

  /** What assembly answers for a row is what the forest answers at its place. */
  lemma {:induction false} ResultIsRendered(rows: seq<Row>, ts: seq<Tree>, i: nat, p: Place, shape: Option<ObjectsSpec>)
    requires Presents(rows, ts) && Pathed(rows) && i < |rows| && At(rows, ts, i, p)
    ensures ResultAt(rows, i, shape) == Render(p, shape)
    decreases p.tree, 2
  {
    var m := RenderRelations(p, shape);
    forall rel
      ensures rel in KidRels(rows, i) <==> rel in KeptRels(p.tree.kids)
    {
      RelsAgree(rows, ts, i, p, rel);
    }
    forall rel | rel in m
      ensures m[rel] == KidResults(rows, i, rel, shape)
    {
      KidResultsAreRendered(rows, ts, i, p, rel, shape);
    }
    RelationsAgree(rows, i, shape, m);
  }

  lemma RootsSorted(ts: seq<Tree>)
    requires DistinctPaths(Places("", ts))
    ensures BySegment(SortBySegment(ts))
  {
    TopSegmentsDiffer("", ts);
    SortSorted(ts);
  }

  lemma RootRows(rows: seq<Row>, ts: seq<Tree>, r: Row)
    requires Presents(rows, ts)
    ensures Listed(rows, Roots(rows, |rows|), r) <==> OnTree("", SortBySegment(ts), r)
  {
    hide DotFreeBelow, DistinctPaths, ByPath, Places, Roots;
    var rs, sorted := Roots(rows, |rows|), SortBySegment(ts);
    RootsExact(rows, |rows|);
    if Listed(rows, rs, r) {
      var x :| 0 <= x < |rs| && rows[rs[x]] == r;
      assert rs[x] in rs && IsRoot(rows, rs[x]);
      var q := PlaceOfRow(rows, ts, rs[x]);
      PlacesHaveParents("", ts, q);
      assert q.tree in sorted;
      var y :| 0 <= y < |sorted| && sorted[y] == q.tree;
      assert RowAt(Place("", sorted[y])) == r;
    }
    if OnTree("", sorted, r) {
      var y :| 0 <= y < |sorted| && RowAt(Place("", sorted[y])) == r;
      assert sorted[y] in sorted;
      TopPlaces("", ts, sorted[y]);
      var j := RowOfPlace(rows, ts, Place("", sorted[y]));
      assert IsRoot(rows, j);
      var x :| 0 <= x < |rs| && rs[x] == j;
    }
  }

  /** Assembling the kept rows of a forest in strict path order gives the forest's answer:
      every kept object whose ancestors are all kept, under its relation, in segment order,
      and nothing else. */
  lemma AssemblyUndoesFlattening(rows: seq<Row>, ts: seq<Tree>, shape: Option<ObjectsSpec>)
    requires Presents(rows, ts)
    ensures Pathed(rows)
    ensures Assembled(rows, shape) == RenderForest(ts, shape)
  {
    RowsArePathed(rows, ts);
    var rs, sorted := Roots(rows, |rows|), SortBySegment(ts);
    RootsExact(rows, |rows|);
    RootsSorted(ts);
    forall r
      ensures Listed(rows, rs, r) <==> OnTree("", sorted, r)
    {
      RootRows(rows, ts, r);
    }
    AlignByPath(rows, rs, "", sorted);
    forall x | 0 <= x < |rs|
      ensures Assembled(rows, shape)[x] == RenderForest(ts, shape)[x]
    {
      ResultsIndex(rows, rs, shape, 0, x);
      assert sorted[x] in sorted;
      TopPlaces("", ts, sorted[x]);
      ResultIsRendered(rows, ts, rs[x], Place("", sorted[x]), shape);
    }
  }
}
