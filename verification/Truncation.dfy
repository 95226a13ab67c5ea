/** Cutting the path-ordered rows at any point orphans nothing, and what dots in names do. */
module Truncation {
  import opened Options
  import opened Text
  import opened Objects
  import opened Paths
  import opened Assembly
  import opened Conservation
  import opened Forest
  import opened EndToEnd

  lemma EmptySortsFirst(path: string)
    requires path != ""
    ensures Less("", path)
  {
  }

  /** A parent path sorts strictly before the path it was taken from. */
  lemma ParentSortsFirst(path: string)
    requires path != ""
    ensures Less(ParentPath(path), path)
  {
    hide Split, Join, Less;
    var parts := Split(path, '.');
    if |parts| > 3 {
      var n := |parts| - 2;
      JoinSplit(path, '.');
      assert parts == parts[..n] + parts[n..];
      JoinConcat(parts[..n], parts[n..], '.');
      var suffix := "." + Join(parts[n..], '.');
      assert path == ParentPath(path) + suffix;
      PrefixSortsFirst(ParentPath(path), suffix);
    } else {
      EmptySortsFirst(path);
    }
  }

  ghost predicate InPathOrder(rows: seq<Row>) {
    forall i, j :: 0 <= i < j < |rows| ==> !Less(rows[j].path, rows[i].path)
  }

  ghost predicate HasParent(rows: seq<Row>, j: nat)
    requires j < |rows|
  {
    exists i :: 0 <= i < |rows| && rows[i].path == ParentPath(rows[j].path)
  }

  /** Every row below the root level has a row at its parent path, somewhere. */
  ghost predicate ParentsSomewhere(rows: seq<Row>) {
    forall j :: 0 <= j < |rows| && rows[j].level != 0 ==> HasParent(rows, j)
  }

  /** In path order parents come first, so any cut leaves every remaining row its parent. */
  lemma CutKeepsParents(rows: seq<Row>, n: nat)
    requires Pathed(rows) && InPathOrder(rows) && ParentsSomewhere(rows) && n <= |rows|
    ensures Pathed(rows[..n]) && ParentsPresent(rows[..n])
  {
    hide Less, ParentPath;
    var cut := rows[..n];
    forall j | 0 <= j < n && cut[j].level != 0
      ensures HasParentBefore(cut, j)
    {
      assert rows[j] == cut[j];
      assert HasParent(rows, j);
      var i :| 0 <= i < |rows| && rows[i].path == ParentPath(rows[j].path);
      ParentSortsFirst(rows[j].path);
      LessIrreflexive(rows[j].path);
      assert i < j;
      assert cut[i].path == ParentPath(cut[j].path);
    }
  }

  /** Truncation safety: of path-ordered rows that include all parents, the first `n` are all placed,
      each exactly once, repeated paths or not. */
  lemma CutDropsNothing(rows: seq<Row>, n: nat, j: nat)
    requires Pathed(rows) && InPathOrder(rows) && ParentsSomewhere(rows) && j < n <= |rows|
    ensures Pathed(rows[..n]) && Occurrences(rows[..n], j) == 1
  {
    CutKeepsParents(rows, n);
    NothingDropped(rows[..n], j);
  }

  // ----- forests without filtered objects -----

  ghost predicate AllKept(ts: seq<Tree>) {
    forall p :: p in Places("", ts) ==> p.tree.kept
  }

  /** The rows of a forest in which nothing is filtered out include all parents. */
  lemma ForestHasParents(ts: seq<Tree>, rows: seq<Row>, j: nat)
    requires WellLevelled(ts) && DotFreeBelow(ts) && AllKept(ts) && multiset(rows) == multiset(Rows(Places("", ts)))
    requires j < |rows| && rows[j].level != 0
    ensures rows[j].path != "" && HasParent(rows, j)
  {
    hide Places, Rows, DotFreeBelow;
    var flat := Rows(Places("", ts));
    SameMembers(rows, flat);
    assert rows[j] in flat;
    RowsMembers(Places("", ts), rows[j]);
    var q :| q in Places("", ts) && q.tree.kept && RowAt(q) == rows[j];
    PlacesHaveParents("", ts, q);
    var p :| p in Places("", ts) && KidOf(p, q);
    PathsStartWithDot(ts, p);
    PathsStartWithDot(ts, q);
    assert DotFree(q.tree.obj) by { DotFreeKid(ts, p, q); }
    ParentOfChild(PathAt(p), q.tree.obj);
    RowsMembers(Places("", ts), RowAt(p));
    assert RowAt(p) in rows;
    var i :| 0 <= i < |rows| && rows[i] == RowAt(p);
  }

  lemma DotFreeKid(ts: seq<Tree>, p: Place, q: Place)
    requires DotFreeBelow(ts) && p in Places("", ts) && KidOf(p, q)
    ensures DotFree(q.tree.obj)
  {
  }

  /** Cutting the ordered rows of an unfiltered answer at any row count loses no row that was read. */
  lemma TruncatedAnswerIsWhole(ts: seq<Tree>, rows: seq<Row>, n: nat, j: nat)
    requires WellLevelled(ts) && DotFreeBelow(ts) && AllKept(ts) && OrderedByPath(rows, Rows(Places("", ts)))
    requires j < n <= |rows|
    ensures Pathed(rows[..n]) && Occurrences(rows[..n], j) == 1
  {
    hide Places, Rows, DotFreeBelow, WellLevelled, AllKept;
    forall k | 0 <= k < |rows| && rows[k].level != 0
      ensures rows[k].path != "" && HasParent(rows, k)
    {
      ForestHasParents(ts, rows, k);
    }
    CutDropsNothing(rows, n, j);
  }

  // ----- dots -----

  /** Among any rows, a row that continues the path of an earlier row is attached to a row at that path
      exactly when its kind, namespace and name have no dot. */
  lemma ChildPlacedIff(rows: seq<Row>, i: nat, j: nat)
    requires i < j < |rows| && rows[j].level != 0 && rows[i].path != "" && rows[i].path[0] == '.'
    requires rows[j].path == rows[i].path + Segment(rows[j].obj)
    ensures Owner(rows, j).Some? && rows[Owner(rows, j).value].path == rows[i].path <==> DotFree(rows[j].obj)
  {
    hide Segment, ParentPath;
    ParentOfChild(rows[i].path, rows[j].obj);
  }

  /** Where a child with one dot in its namespace or name is looked up instead: below its parent, at a
      path that ends with the child's kind. */
  lemma DottedChildLooksAt(p: string, o: Obj, before: string, after: string)
    requires p != "" && p[0] == '.'
    requires o.namespace + "/" + o.name == before + "." + after && Free(before, '.') && Free(after, '.')
    ensures ParentPath(p + Segment(o)) == p + "." + Lower(o.kind)
  {
    hide ParentPath, Lower;
    var q := p + "." + Lower(o.kind);
    assert p + Segment(o) == q + "." + (o.namespace + "/" + o.name);
    assert q + "." + (before + "." + after) == q + "." + before + "." + after;
    assert q[0] == '.';
    ParentPathInverse(q, before, after);
  }

  /** A dotted child can be attached to the wrong row: below the root `a`, it goes to any root `b`
      whose path is that of `a` continued by the child's kind. The rows are in path order. */
  lemma DottedChildMisplaced(a: Obj, b: Obj, c: Obj, before: string, after: string)
    requires Segment(b) == Segment(a) + "." + Lower(c.kind)
    requires c.namespace + "/" + c.name == before + "." + after && Free(before, '.') && Free(after, '.')
    ensures var rows := [Row(a, JNull, Segment(a), 0, ""), Row(b, JNull, Segment(b), 0, ""),
                         Row(c, JNull, Segment(a) + Segment(c), 1, "")];
      InPathOrder(rows) && Pathed(rows) && Owner(rows, 2) == Some(1) && Occurrences(rows, 2) == 1
  {
    var rows := [Row(a, JNull, Segment(a), 0, ""), Row(b, JNull, Segment(b), 0, ""),
                 Row(c, JNull, Segment(a) + Segment(c), 1, "")];
    hide Segment, ParentPath, Less, Lower, Owner, Occurrences, InPathOrder, Pathed;
    MisplacedPaths(a, b, c, before, after);
    AttachedToSecond(rows);
    ThreeInOrder(rows);
  }

  lemma MisplacedPaths(a: Obj, b: Obj, c: Obj, before: string, after: string)
    requires Segment(b) == Segment(a) + "." + Lower(c.kind)
    requires c.namespace + "/" + c.name == before + "." + after && Free(before, '.') && Free(after, '.')
    ensures var path := Segment(a) + Segment(c);
      path != "" && ParentPath(path) == Segment(b)
      && !Less(Segment(b), Segment(a)) && !Less(path, Segment(a)) && !Less(path, Segment(b))
  {
    hide Segment, ParentPath, Less, Lower;
    SegmentParts(Segment(a), c);
    SegmentParts("", a);
    DottedChildLooksAt(Segment(a), c, before, after);
    RootsAscend(Segment(a), "." + Lower(c.kind), "." + (c.namespace + "/" + c.name));
    assert Segment(a) + ("." + Lower(c.kind)) == Segment(b);
  }

  lemma ThreeInOrder(rows: seq<Row>)
    requires |rows| == 3 && !Less(rows[1].path, rows[0].path)
    requires !Less(rows[2].path, rows[0].path) && !Less(rows[2].path, rows[1].path)
    ensures InPathOrder(rows)
  {
    hide Less;
  }

  lemma SegmentParts(p: string, o: Obj)
    ensures p + Segment(o) == p + "." + Lower(o.kind) + ("." + (o.namespace + "/" + o.name))
    ensures Segment(o) != "" && Segment(o)[0] == '.'
  {
    hide Lower;
  }

  lemma AttachedToSecond(rows: seq<Row>)
    requires |rows| == 3 && rows[0].level == rows[1].level == 0 && rows[2].level != 0 && rows[2].path != ""
    requires ParentPath(rows[2].path) == rows[1].path
    ensures Pathed(rows) && Owner(rows, 2) == Some(1) && Occurrences(rows, 2) == 1
  {
    hide ParentPath, Occurrences;
    assert Owner(rows, 2) == Some(1);
    assert Top(rows, 2) == Top(rows, 1) == 1;
    PlacedOnceOrDropped(rows, 2);
  }

  lemma RootsAscend(p: string, x: string, y: string)
    requires x != "" && y != ""
    ensures !Less(p + x, p) && !Less(p + x + y, p) && !Less(p + x + y, p + x)
  {
    hide Less;
    PrefixSortsFirst(p, x);
    PrefixSortsFirst(p + x, y);
    LessTransitive(p, p + x, p + x + y);
    LessAsymmetric(p, p + x);
    LessAsymmetric(p + x, p + x + y);
    LessAsymmetric(p, p + x + y);
  }

  function Named(kind: string, name: string): Obj {
    Obj("", "", "", "", "", kind, "", "s", name, map[], [], [], [], [], None, JNull)
  }

  /** Such rows exist: the pod `s/a.b` of the root `x s/n` goes to the root `x s/n.pod`. */
  lemma MisplacedExample()
    ensures var a, b, c := Named("x", "n"), Named("x", "n.pod"), Named("pod", "a.b");
      Segment(b) == Segment(a) + "." + Lower(c.kind) && c.namespace + "/" + c.name == "s/a" + "." + "b"
  {
    assert Lower("x") == "x" && Lower("pod") == "pod";
  }
}
