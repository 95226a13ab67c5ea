/** Running a query: scanning its rows, building the response, and saying whether it is complete. */
module Engine {
  import opened Options
  import opened Text
  import opened Objects
  import opened Spec
  import opened Paths
  import opened Filters
  import opened Projections
  import opened Assembly
  import opened Plans
  import opened Generator
  import opened Paging
  import opened Validation
  import opened EndToEnd

  datatype CursorResult = CursorResult(next: map<string, string>, page: int, pageSize: int)

  datatype QueryStatus = QueryStatus(
    objects: seq<ObjectResult>, incomplete: bool, truncated: bool, count: Option<nat>, cursor: Option<CursorResult>)

  // ----- scanning -----

  /** Reads rows until there are no more or `maxRows` have been read; zero means no bound. */
  method ScanRows(rows: seq<Row>, maxRows: nat) returns (result: seq<Row>, truncated: bool)
    ensures truncated <==> 0 < maxRows < |rows|
    ensures result == if truncated then rows[..maxRows] else rows
  {
    result, truncated := [], false;
    var i := 0;
    while i < |rows|
      invariant 0 <= i <= |rows| && result == rows[..i]
      invariant maxRows > 0 ==> i <= maxRows
    {
      if maxRows > 0 && |result| >= maxRows {
        truncated := true;
        return;
      }
      result := result + [rows[i]];
      i := i + 1;
    }
  }

  /** The last root row, from which the response cursor is taken. */
  function LastRoot(rows: seq<Row>): Option<Row> {
    if rows == [] then None
    else if rows[|rows| - 1].level == 0 then Some(rows[|rows| - 1])
    else LastRoot(rows[..|rows| - 1])
  }

  /** `last` is the row of the last root, or nothing if there is no root. */
  ghost predicate IsLastRoot(rows: seq<Row>, last: Option<Row>) {
    match last
    case None => forall i :: 0 <= i < |rows| ==> rows[i].level != 0
    case Some(row) => exists i :: EndsRoots(rows, i) && row == rows[i]
  }

  /** Row `i` is a root, and no root comes after it. */
  ghost predicate EndsRoots(rows: seq<Row>, i: int) {
    0 <= i < |rows| && rows[i].level == 0 && forall j :: i < j < |rows| ==> rows[j].level != 0
  }

  lemma {:induction false} LastRootIsLast(rows: seq<Row>)
    ensures IsLastRoot(rows, LastRoot(rows))
  {
    if rows != [] {
      var n := |rows| - 1;
      if rows[n].level == 0 {
        assert EndsRoots(rows, n);
      } else {
        hide LastRoot;
        LastRootIsLast(rows[..n]);
        LastRootSkips(rows);
        StillLast(rows, LastRoot(rows[..n]));
      }
    }
  }

  lemma LastRootSkips(rows: seq<Row>)
    requires rows != [] && rows[|rows| - 1].level != 0
    ensures LastRoot(rows) == LastRoot(rows[..|rows| - 1])
  {
  }

  lemma StillLast(rows: seq<Row>, last: Option<Row>)
    requires rows != [] && rows[|rows| - 1].level != 0 && IsLastRoot(rows[..|rows| - 1], last)
    ensures IsLastRoot(rows, last)
  {
    var n := |rows| - 1;
    assert forall i :: 0 <= i < n ==> rows[..n][i] == rows[i];
    if last.Some? {
      var i :| EndsRoots(rows[..n], i) && last.value == rows[..n][i];
      assert EndsRoots(rows, i);
    }
  }

  method ExtractLastRow(rows: seq<Row>) returns (last: Option<Row>)
    ensures last == LastRoot(rows) && IsLastRoot(rows, last)
  {
    LastRootIsLast(rows);
    var i := |rows|;
    assert rows[..i] == rows;
    while i > 0
      invariant 0 <= i <= |rows|
      invariant LastRoot(rows) == LastRoot(rows[..i])
    {
      assert rows[..i][..i - 1] == rows[..i - 1];
      if rows[i - 1].level == 0 {
        return Some(rows[i - 1]);
      }
      i := i - 1;
    }
    last := None;
  }

  function RootCount(rows: seq<Row>): nat {
    if rows == [] then 0 else RootCount(rows[..|rows| - 1]) + if rows[|rows| - 1].level == 0 then 1 else 0
  }

  method CountRoots(rows: seq<Row>) returns (count: nat)
    ensures count == RootCount(rows)
  {
    count := 0;
    var i := 0;
    while i < |rows|
      invariant 0 <= i <= |rows| && count == RootCount(rows[..i])
    {
      assert rows[..i + 1][..i] == rows[..i];
      if rows[i].level == 0 {
        count := count + 1;
      }
      i := i + 1;
    }
    assert rows[..i] == rows;
  }

  function CursorFor(q: QuerySpec, last: Option<Row>): Option<CursorResult>
    requires q.limit > 0
  {
    if q.wantCursor && last.Some? then
      Some(CursorResult(TokenOf(last.value.obj), if q.page.Some? then q.page.value.first / q.limit else 0, q.limit))
    else None
  }

  /** The rows that are read when the total row bound applies. */
  function Scanned(rows: seq<Row>): seq<Row> {
    if |rows| > MAX_TOTAL_ROWS then rows[..MAX_TOTAL_ROWS] else rows
  }

  /** When the response of a query with relations says it is incomplete. */
  predicate SaysIncomplete(limit: int, rows: seq<Row>) {
    |rows| > MAX_TOTAL_ROWS || RootCount(Scanned(rows)) == limit
  }

  // ----- responses -----

  /** What the SQL of a query without relations returns for a root. */
  function FlatRow(o: Obj, shape: Option<ObjectsSpec>): Row {
    Row(o, Projected(if shape.Some? then shape.value.projection else None, o), Segment(o), 0, "")
  }

  /** The result shows the row's object: id, cluster and mutable path if they are asked for, the projected
      document, and no relations. */
  predicate ShowsRow(r: ObjectResult, row: Row, shape: Option<ObjectsSpec>) {
    && r.id == (if shape.Some? && shape.value.wantId then row.obj.id else "")
    && r.cluster == (if shape.Some? && shape.value.wantCluster then row.obj.cluster else "")
    && r.mutablePath == (if shape.Some? && shape.value.wantMutablePath then MutablePath(row.obj) else "")
    && r.document == row.projected && r.relations == map[]
  }

  /** One result per row, in the order of the rows. */
  predicate ShowsRows(results: seq<ObjectResult>, rows: seq<Row>, shape: Option<ObjectsSpec>) {
    |results| == |rows| && forall i :: 0 <= i < |rows| ==> ShowsRow(results[i], rows[i], shape)
  }

  lemma PresentShows(row: Row, shape: Option<ObjectsSpec>)
    ensures ShowsRow(Present(row, shape, map[]), row, shape)
  {
    hide MutablePath;
  }

  lemma NothingShown(shape: Option<ObjectsSpec>)
    ensures ShowsRows([], [], shape)
  {
  }

  lemma ShowsOneMore(results: seq<ObjectResult>, rows: seq<Row>, row: Row, shape: Option<ObjectsSpec>)
    requires ShowsRows(results, rows, shape)
    ensures ShowsRows(results + [Present(row, shape, map[])], rows + [row], shape)
  {
    hide ShowsRow, Present;
    PresentShows(row, shape);
    forall i | 0 <= i <= |rows|
      ensures ShowsRow((results + [Present(row, shape, map[])])[i], (rows + [row])[i], shape)
    {
      if i < |rows| {
        assert ShowsRow(results[i], rows[i], shape);
      }
    }
  }

  /** The response cursor: the sort key of the last root among the rows, the number of the page by the
      requested offset, and the limit; none if it is not asked for or there is no root. */
  ghost predicate CursorOfLastRoot(q: QuerySpec, rows: seq<Row>, cursor: Option<CursorResult>)
    requires q.limit > 0
  {
    if q.wantCursor && exists i :: 0 <= i < |rows| && rows[i].level == 0 then
      exists i :: EndsRoots(rows, i)
        && cursor == Some(CursorResult(TokenOf(rows[i].obj),
                                       if q.page.Some? then q.page.value.first / q.limit else 0, q.limit))
    else cursor == None
  }

  lemma CursorForLastRoot(q: QuerySpec, rows: seq<Row>)
    requires q.limit > 0
    ensures CursorOfLastRoot(q, rows, CursorFor(q, LastRoot(rows)))
  {
    hide TokenOf;
    LastRootIsLast(rows);
  }

  /** A query without relations. `rows` is what its SQL returns, `matching` the result of its count query. */
  method ExecuteFlat(q: QuerySpec, rows: seq<Row>, matching: nat) returns (status: QueryStatus)
    requires 1 <= q.limit <= MAX_LIMIT && |rows| <= q.limit && (q.page.Some? ==> q.page.value.first >= 0)
    ensures ShowsRows(status.objects, rows, q.objects)
    ensures !status.truncated && (status.incomplete <==> |rows| == q.limit)
    ensures status.count == if q.wantCount then Some(matching) else None
    ensures CursorOfLastRoot(q, rows, status.cursor)
  {
    hide ShowsRows, Present, IsLastRoot, CursorOfLastRoot, CursorFor, LastRoot;
    CursorForLastRoot(q, rows);
    NothingShown(q.objects);
    var flat, truncated := ScanRows(rows, MAX_TOTAL_ROWS);
    var results := [];
    var i := 0;
    while i < |flat|
      invariant 0 <= i <= |flat| && ShowsRows(results, flat[..i], q.objects) && |results| == i
    {
      ShowsOneMore(results, flat[..i], flat[i], q.objects);
      assert flat[..i + 1] == flat[..i] + [flat[i]];
      results := results + [Present(flat[i], q.objects, map[])];
      i := i + 1;
    }
    assert flat[..i] == flat;
    var incomplete := truncated;
    var last := ExtractLastRow(flat);
    var cursor := CursorFor(q, last);
    if !truncated && |results| == q.limit {
      incomplete := true;
    }
    status := QueryStatus(results, incomplete, truncated, if q.wantCount then Some(matching) else None, cursor);
  }

  /** A query with relations. `rows` is what its SQL returns, in path order. */
  method ExecuteWithRelations(q: QuerySpec, rows: seq<Row>, matching: nat) returns (status: QueryStatus)
    requires q.limit > 0 && Pathed(rows) && (q.page.Some? ==> q.page.value.first >= 0)
    ensures status.truncated <==> |rows| > 10000
    ensures Pathed(Scanned(rows)) && status.objects == Assembled(Scanned(rows), q.objects)
    ensures status.incomplete <==> SaysIncomplete(q.limit, rows)
    ensures CursorOfLastRoot(q, Scanned(rows), status.cursor)
    ensures status.count == if q.wantCount then Some(matching) else None
  {
    CursorForLastRoot(q, Scanned(rows));
    var flat, truncated := ScanRows(rows, MAX_TOTAL_ROWS);
    var results := AssembleTree(flat, q.objects);
    var incomplete := truncated;
    var last := ExtractLastRow(flat);
    var cursor := CursorFor(q, last);
    var rootCount := CountRoots(flat);
    if rootCount == q.limit {
      incomplete := true;
    }
    status := QueryStatus(results, incomplete, truncated, if q.wantCount then Some(matching) else None, cursor);
  }

  // ----- completeness -----

  function ObjectsOf(rows: seq<Row>): (os: seq<Obj>)
    ensures |os| == |rows| && forall i :: 0 <= i < |rows| ==> os[i] == rows[i].obj
  {
    if rows == [] then [] else ObjectsOf(rows[..|rows| - 1]) + [rows[|rows| - 1].obj]
  }

  // ----- levels of the generated rows -----

  ghost predicate LevelsPositive(selects: seq<Select>) {
    forall i :: 0 <= i < |selects| ==> PositiveLevel(selects[i])
  }

  predicate PositiveLevel(s: Select) {
    match s
    case Joined(_, _, _, _, _, _, level, _) => level > 0
    case Walked(cte, _, _) => cte.level > 0
    case Attached(_, _, _, _, level, _) => level > 0
  }

  ghost predicate QueuePositive(queue: seq<Pending>) {
    forall i :: 0 <= i < |queue| ==> queue[i].level > 0
  }

  lemma {:induction false} AttachedPositive(cte: Cte, shape: ObjectsSpec, names: seq<string>, level: nat)
    requires level > 0 && forall k :: k in names ==> k in shape.relations
    ensures LevelsPositive(AttachedFor(cte, shape, names, level))
  {
    hide BlockClauses;
    if names != [] {
      AttachedPositive(cte, shape, names[1..], level);
    }
  }

  lemma EmittedPositive(q: Pending, n: nat, maxDepth: int)
    requires !Stuck(q) && q.level > 0
    ensures LevelsPositive(Emitted(q, n, maxDepth).selects)
  {
    hide BlockClauses, AttachedFor, InnerClauses;
    if IsTransitive(q.name) && q.spec.objects.Some? {
      var shape := q.spec.objects.value;
      AttachedPositive(CteFor(q, BaseOf(BaseRelation(q.name)).value, n, maxDepth), shape, Sorted(shape.relations.Keys),
                       q.level + 1);
    }
  }

  lemma SuccessorsPositive(q: Pending, n: nat)
    ensures QueuePositive(Successors(q, n))
  {
    if !IsTransitive(q.name) {
      BlocksPositive(q.spec.objects, q.level + 1, q.ancestors + [StepFor(q, n)]);
    }
  }

  lemma BlocksPositive(shape: Option<ObjectsSpec>, level: nat, ancestors: seq<Step>)
    requires level > 0
    ensures QueuePositive(Blocks(shape, level, ancestors))
  {
    if shape.Some? {
      var names := Sorted(shape.value.relations.Keys);
      forall i | 0 <= i < |names|
        ensures Blocks(shape, level, ancestors)[i].level > 0
      {
        PendingIndex(shape.value, names, level, ancestors, i);
      }
    }
  }

  lemma {:induction false} PassPositive(queue: seq<Pending>, n: nat, maxDepth: int)
    requires QueuePositive(queue) && Pass(queue, n, maxDepth).Generated?
    ensures LevelsPositive(Pass(queue, n, maxDepth).plan.selects)
    decreases Weight(queue)
  {
    if queue != [] {
      hide Emitted, Successors, Weight, Stuck, PositiveLevel;
      var q, rest := queue[0], queue[1..];
      assert queue == [q] + rest;
      WeightTail(queue);
      if q.level > maxDepth {
        PassPositive(rest, n, maxDepth);
      } else {
        SuccessorsLighter(q, n, rest);
        SuccessorsPositive(q, n);
        PassPositive(rest + Successors(q, n), n + 1, maxDepth);
        EmittedPositive(q, n, maxDepth);
      }
    }
  }

  // ----- counting root rows -----

  lemma {:induction false} RootCountConcat(a: seq<Row>, b: seq<Row>)
    ensures RootCount(a + b) == RootCount(a) + RootCount(b)
    decreases |b|
  {
    if b == [] {
      assert a + b == a;
    } else {
      RootCountConcat(a, b[..|b| - 1]);
      assert (a + b)[..|a + b| - 1] == a + b[..|b| - 1];
    }
  }

  lemma RootCountOne(r: Row)
    ensures RootCount([r]) == if r.level == 0 then 1 else 0
  {
    assert [r][..0] == [];
  }

  lemma RootCountMiddle(left: seq<Row>, x: Row, right: seq<Row>)
    ensures RootCount(left + [x] + right) == RootCount([x]) + RootCount(left + right)
  {
    hide RootCount;
    RootCountConcat(left, right);
    RootCountConcat(left + [x], right);
    RootCountConcat(left, [x]);
  }

  lemma {:induction false} RootCountPermutes(a: seq<Row>, b: seq<Row>)
    requires multiset(a) == multiset(b)
    ensures RootCount(a) == RootCount(b)
    decreases |a|
  {
    hide RootCount;
    if a == [] {
      assert b == [] by { assert |multiset(a)| == 0 && |multiset(b)| == |b|; }
    } else {
      var x, rest := a[0], a[1..];
      assert a == [x] + rest;
      var left, right := TakeOut(x, rest, b);
      RootCountPermutes(rest, left + right);
      RootCountConcat([x], rest);
      RootCountMiddle(left, x, right);
    }
  }

  lemma {:induction false} SpotRowsLevel(spots: seq<Spot>, where: seq<Clause>, p: Option<Projection>, level: nat,
                                         rel: string, cat: Catalog)
    ensures level > 0 ==> RootCount(SpotRows(spots, where, p, level, rel, cat)) == 0
    ensures level == 0 && where == [] ==> RootCount(SpotRows(spots, where, p, level, rel, cat)) == |spots|
  {
    hide Accepts;
    if spots != [] {
      SpotRowsLevel(spots[1..], where, p, level, rel, cat);
      var row := SpotRow(spots[0], where, p, level, rel, cat);
      RootCountConcat(row, SpotRows(spots[1..], where, p, level, rel, cat));
      assert where == [] ==> Accepts(where, spots[0].obj, cat) by { AcceptsNothing(spots[0].obj, cat); }
      if row != [] {
        RootCountOne(row[0]);
        assert row == [row[0]];
      }
    }
  }

  lemma AcceptsNothing(o: Obj, cat: Catalog)
    ensures Accepts([], o, cat)
  {
  }

  lemma {:induction false} RootCountPrefix(rows: seq<Row>, k: nat)
    requires k <= |rows| && RootCount(rows) == 0
    ensures RootCount(rows[..k]) == 0
  {
    RootCountConcat(rows[..k], rows[k..]);
    assert rows == rows[..k] + rows[k..];
  }

  lemma SelectRowsLevel(s: Select, roots: seq<Obj>, objects: seq<Obj>, cat: Catalog)
    requires PositiveLevel(s)
    ensures RootCount(SelectRows(s, roots, objects, cat)) == 0
  {
    hide SpotRows, WalkSpots, Envs, SpotsOf, Grow;
    match s
    case Joined(steps, child, path, where, projection, limit, level, rel) =>
      var all := SpotRows(SpotsOf(Envs(roots, steps, objects), child, path), where, projection, level, rel, cat);
      SpotRowsLevel(SpotsOf(Envs(roots, steps, objects), child, path), where, projection, level, rel, cat);
      if limit > 0 && limit < |all| {
        RootCountPrefix(all, limit);
      }
    case Walked(cte, _, limit) =>
      var all := SpotRows(WalkSpots(cte, roots, objects), [], cte.projection, cte.level, cte.rel, cat);
      SpotRowsLevel(WalkSpots(cte, roots, objects), [], cte.projection, cte.level, cte.rel, cat);
      if limit > 0 && limit < |all| {
        RootCountPrefix(all, limit);
      }
    case Attached(cte, join, where, projection, level, rel) =>
      SpotRowsLevel(Grow(WalkSpots(cte, roots, objects), join, objects), where, projection, level, rel, cat);
  }

  lemma {:induction false} UnionRowsLevel(selects: seq<Select>, roots: seq<Obj>, objects: seq<Obj>, cat: Catalog)
    requires LevelsPositive(selects)
    ensures RootCount(UnionRows(selects, roots, objects, cat)) == 0
  {
    hide SelectRows, PositiveLevel;
    if selects != [] {
      UnionRowsLevel(selects[1..], roots, objects, cat);
      SelectRowsLevel(selects[0], roots, objects, cat);
      RootCountConcat(SelectRows(selects[0], roots, objects, cat), UnionRows(selects[1..], roots, objects, cat));
    }
  }

  lemma {:induction false} RootSpotsLength(roots: seq<Obj>)
    ensures |RootSpots(roots)| == |roots|
  {
    if roots != [] {
      RootSpotsLength(roots[1..]);
    }
  }

  /** A generated query returns exactly one root row per root, whatever its relations find. */
  lemma OneRowPerRoot(shape: Option<ObjectsSpec>, maxDepth: int, roots: seq<Obj>, objects: seq<Obj>, cat: Catalog)
    requires PlanFor(shape, maxDepth).Generated?
    ensures RootCount(QueryRows(PlanFor(shape, maxDepth).plan, ShapeProjection(shape), roots, objects, cat)) == |roots|
  {
    hide Blocks, Pass, UnionRows, SpotRows, RootSpots;
    var plan := PlanFor(shape, maxDepth).plan;
    BlocksPositive(shape, 1, []);
    PassPositive(Blocks(shape, 1, []), 1, maxDepth);
    UnionRowsLevel(plan.selects, roots, objects, cat);
    SpotRowsLevel(RootSpots(roots), [], ShapeProjection(shape), 0, "", cat);
    RootSpotsLength(roots);
    RootCountConcat(SpotRows(RootSpots(roots), [], ShapeProjection(shape), 0, "", cat),
                    UnionRows(plan.selects, roots, objects, cat));
  }

  lemma PermutedRootCount(rows: seq<Row>, unordered: seq<Row>)
    requires OrderedByPath(rows, unordered)
    ensures RootCount(rows) == RootCount(unordered)
  {
    RootCountPermutes(rows, unordered);
  }
}
