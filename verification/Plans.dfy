/** The generated query as syntax, and the bag of rows it evaluates to. */
module Plans {
  import opened Options
  import opened Text
  import opened Objects
  import opened Spec
  import opened Paths
  import opened Relations
  import opened Filters
  import opened Projections
  import opened Assembly

  /** `JOIN objects l<child> ON ...` against the row of `l<parent>`. */
  datatype Step = Step(join: JoinKind, parent: nat, child: nat)

  /** What a recursive CTE follows. */
  datatype Base = OwnedBy | OwnerOf | LinkedFrom

  /** A recursive CTE: it starts from the children of `l<parent>` and follows `base` repeatedly. */
  datatype Cte = Cte(number: nat, base: Base, steps: seq<Step>, parent: nat, path: seq<nat>, maxDepth: int,
                     projection: Option<Projection>, level: nat, rel: string)

  /** One branch of the UNION ALL.
      - Joined: select `l<child>`, re-joined from the roots through `steps`; the path is the
        concatenation of the segments of the aliases in `path`.
      - Walked: the rows of a CTE. Its filters are written for the alias inside the CTE.
      - Attached: objects joined to the rows of a CTE. */
  datatype Select =
    | Joined(steps: seq<Step>, child: nat, path: seq<nat>, where: seq<Clause>,
             projection: Option<Projection>, limit: int, level: nat, rel: string)
    | Walked(cte: Cte, whereInner: seq<Clause>, limit: int)
    | Attached(cte: Cte, join: JoinKind, where: seq<Clause>, projection: Option<Projection>, level: nat, rel: string)

  datatype Plan = Plan(ctes: seq<Cte>, selects: seq<Select>)

  // ----- scoping -----

  datatype Alias = RowAlias(n: nat) | RefAlias

  /** The aliases a join chain brings into scope; a linked join also names its annotation element. */
  function Aliases(steps: seq<Step>): seq<Alias> {
    if steps == [] then [RowAlias(0)]
    else
      var last := steps[|steps| - 1];
      Aliases(steps[..|steps| - 1]) + (if last.join == Linked then [RefAlias] else []) + [RowAlias(last.child)]
  }

  ghost predicate Distinct(s: seq<Alias>) {
    forall i, j :: 0 <= i < j < |s| ==> s[i] != s[j]
  }

  /** The database can run the branch without error: every alias is declared once, every alias that is used
      is declared before it, and no JSON path has an empty part. */
  ghost predicate Runnable(s: Select) {
    match s
    case Joined(steps, child, path, where, projection, _, _, _) =>
      && Distinct(Aliases(steps))
      && (forall i :: 0 <= i < |steps| ==> RowAlias(steps[i].parent) in Aliases(steps[..i]))
      && RowAlias(child) in Aliases(steps)
      && (forall a :: a in path ==> RowAlias(a) in Aliases(steps))
      && ClausesReadable(where) && ProjectionReadable(projection)
    case Walked(cte, whereInner, _) =>
      Distinct(Aliases(cte.steps)) && whereInner == [] && ProjectionReadable(cte.projection)
    case Attached(cte, _, where, projection, _, _) =>
      Distinct(Aliases(cte.steps)) && ClausesReadable(where) && ProjectionReadable(projection)
  }

  predicate ReadsSelectors(j: JoinKind) {
    j == Selects || j == SelectedBy
  }

  ghost predicate StepsReadSelectors(steps: seq<Step>) {
    exists i :: 0 <= i < |steps| && ReadsSelectors(steps[i].join)
  }

  /** The branch joins on stored selectors. */
  ghost predicate UsesSelectors(s: Select) {
    match s
    case Joined(steps, _, _, _, _, _, _, _) => StepsReadSelectors(steps)
    case Walked(cte, _, _) => StepsReadSelectors(cte.steps)
    case Attached(cte, join, _, _, _, _) => StepsReadSelectors(cte.steps) || ReadsSelectors(join)
  }

  // ----- evaluation of join chains -----

  /** The current row of each object alias. */
  type Env = map<nat, Obj>

  function RootEnvs(roots: seq<Obj>): seq<Env> {
    if roots == [] then [] else [map[0 := roots[0]]] + RootEnvs(roots[1..])
  }

  function Bind(env: Env, child: nat, xs: seq<Obj>): seq<Env> {
    if xs == [] then [] else [env[child := xs[0]]] + Bind(env, child, xs[1..])
  }

  function JoinAll(envs: seq<Env>, s: Step, objects: seq<Obj>): seq<Env> {
    if envs == [] then []
    else
      (if s.parent in envs[0] then Bind(envs[0], s.child, Matches(s.join, envs[0][s.parent], objects)) else [])
      + JoinAll(envs[1..], s, objects)
  }

  /** All rows of `root_objects l0 JOIN ... JOIN ...`. */
  function Envs(roots: seq<Obj>, steps: seq<Step>, objects: seq<Obj>): seq<Env> {
    if steps == [] then RootEnvs(roots)
    else JoinAll(Envs(roots, steps[..|steps| - 1], objects), steps[|steps| - 1], objects)
  }

  /** The path expression: the segments of the listed aliases, concatenated. */
  function PathText(env: Env, path: seq<nat>): string {
    if path == [] then ""
    else
      var last := path[|path| - 1];
      PathText(env, path[..|path| - 1]) + (if last in env then Segment(env[last]) else "")
  }

  // ----- rows -----

  /** An object together with the path it was reached by. */
  datatype Spot = Spot(path: string, obj: Obj)

  function SpotOf(env: Env, child: nat, path: seq<nat>): seq<Spot> {
    if child in env then [Spot(PathText(env, path), env[child])] else []
  }

  function SpotsOf(envs: seq<Env>, child: nat, path: seq<nat>): seq<Spot> {
    if envs == [] then [] else SpotOf(envs[0], child, path) + SpotsOf(envs[1..], child, path)
  }

  function SpotRow(s: Spot, where: seq<Clause>, projection: Option<Projection>, level: nat, rel: string,
                   cat: Catalog): seq<Row> {
    if Accepts(where, s.obj, cat) then [Row(s.obj, Projected(projection, s.obj), s.path, level, rel)] else []
  }

  /** The rows of the spots that pass the WHERE. */
  function SpotRows(spots: seq<Spot>, where: seq<Clause>, projection: Option<Projection>, level: nat, rel: string,
                    cat: Catalog): seq<Row> {
    if spots == [] then []
    else
      SpotRow(spots[0], where, projection, level, rel, cat) + SpotRows(spots[1..], where, projection, level, rel, cat)
  }

  /** LIMIT without ORDER BY: some `n` of the rows; the first ones stand for them here. */
  function Limited(rows: seq<Row>, limit: int): seq<Row> {
    if limit > 0 && limit < |rows| then rows[..limit] else rows
  }

  /** A limit keeps that many of a branch's rows, or all of them if there are no more. */
  lemma LimitKeeps(rows: seq<Row>, limit: int)
    ensures |Limited(rows, limit)| == if 0 < limit < |rows| then limit else |rows|
    ensures multiset(Limited(rows, limit)) <= multiset(rows)
  {
    if 0 < limit < |rows| {
      assert rows == rows[..limit] + rows[limit..];
    }
  }

  // ----- recursive CTEs -----

  datatype CteRow = CteRow(spot: Spot, depth: int, visited: seq<string>)

  /** The step condition of a CTE; both ends are in one cluster. */
  predicate Follows(base: Base, p: Obj, c: Obj) {
    && c.cluster == p.cluster
    && match base
       case OwnedBy => p.uid in c.ownerUids
       case OwnerOf => c.uid in p.ownerUids
       case LinkedFrom => On(Linked, p, c)
  }

  function Followers(base: Base, p: Obj, objects: seq<Obj>): seq<Obj> {
    if objects == [] then []
    else (if Follows(base, p, objects[0]) then [objects[0]] else []) + Followers(base, p, objects[1..])
  }

  function Starts(s: Spot, xs: seq<Obj>): seq<CteRow> {
    if xs == [] then []
    else [CteRow(Spot(s.path + Segment(xs[0]), xs[0]), 1, [xs[0].uid])] + Starts(s, xs[1..])
  }

  /** The base case: the direct children of each parent spot. */
  function CteBase(base: Base, spots: seq<Spot>, objects: seq<Obj>): seq<CteRow> {
    if spots == [] then []
    else Starts(spots[0], Followers(base, spots[0].obj, objects)) + CteBase(base, spots[1..], objects)
  }

  /** The recursive case for one row: unvisited successors, while the depth allows. */
  function Onward(r: CteRow, xs: seq<Obj>, maxDepth: int): seq<CteRow> {
    if xs == [] then []
    else
      (if xs[0].uid !in r.visited && r.depth < maxDepth
       then [CteRow(Spot(r.spot.path + Segment(xs[0]), xs[0]), r.depth + 1, r.visited + [xs[0].uid])] else [])
      + Onward(r, xs[1..], maxDepth)
  }

  function CteStep(base: Base, working: seq<CteRow>, objects: seq<Obj>, maxDepth: int): seq<CteRow> {
    if working == [] then []
    else
      Onward(working[0], Followers(base, working[0].spot.obj, objects), maxDepth)
        + CteStep(base, working[1..], objects, maxDepth)
  }

  predicate AtDepth(rows: seq<CteRow>, d: int) {
    forall i :: 0 <= i < |rows| ==> rows[i].depth == d
  }

  lemma {:induction false} OnwardDepth(r: CteRow, xs: seq<Obj>, maxDepth: int)
    ensures AtDepth(Onward(r, xs, maxDepth), r.depth + 1)
    ensures r.depth >= maxDepth ==> Onward(r, xs, maxDepth) == []
  {
    if xs != [] {
      OnwardDepth(r, xs[1..], maxDepth);
    }
  }

  lemma {:induction false} CteStepDepth(base: Base, working: seq<CteRow>, objects: seq<Obj>, maxDepth: int, d: int)
    requires AtDepth(working, d)
    ensures AtDepth(CteStep(base, working, objects, maxDepth), d + 1)
    ensures d >= maxDepth ==> CteStep(base, working, objects, maxDepth) == []
  {
    if working != [] {
      CteStepDepth(base, working[1..], objects, maxDepth, d);
      OnwardDepth(working[0], Followers(base, working[0].spot.obj, objects), maxDepth);
    }
  }

  /** WITH RECURSIVE: the working table is replaced by its successors until it is empty, and
      everything it ever held is returned. It empties because no row is deeper than `maxDepth`. */
  function CteRows(base: Base, working: seq<CteRow>, objects: seq<Obj>, maxDepth: int, d: int): seq<CteRow>
    requires AtDepth(working, d) && (working != [] ==> d <= maxDepth || d == 1)
    decreases if working == [] then 0 else if d <= maxDepth then maxDepth - d + 2 else 1
  {
    if working == [] then []
    else
      CteStepDepth(base, working, objects, maxDepth, d);
      working + CteRows(base, CteStep(base, working, objects, maxDepth), objects, maxDepth, d + 1)
  }

  lemma CteRowsStep(base: Base, working: seq<CteRow>, objects: seq<Obj>, maxDepth: int, d: int)
    requires AtDepth(working, d) && working != [] && (d <= maxDepth || d == 1)
    ensures AtDepth(CteStep(base, working, objects, maxDepth), d + 1)
    ensures CteStep(base, working, objects, maxDepth) != [] ==> d + 1 <= maxDepth
    ensures CteRows(base, working, objects, maxDepth, d)
         == working + CteRows(base, CteStep(base, working, objects, maxDepth), objects, maxDepth, d + 1)
  {
    hide CteStep;
    CteStepDepth(base, working, objects, maxDepth, d);
  }

  lemma {:induction false} StartsDepth(s: Spot, xs: seq<Obj>)
    ensures AtDepth(Starts(s, xs), 1)
  {
    if xs != [] {
      StartsDepth(s, xs[1..]);
    }
  }

  lemma {:induction false} CteBaseDepth(base: Base, spots: seq<Spot>, objects: seq<Obj>)
    ensures AtDepth(CteBase(base, spots, objects), 1)
  {
    if spots != [] {
      StartsDepth(spots[0], Followers(base, spots[0].obj, objects));
      CteBaseDepth(base, spots[1..], objects);
    }
  }

  function EvalCte(c: Cte, roots: seq<Obj>, objects: seq<Obj>): seq<CteRow> {
    var parents := SpotsOf(Envs(roots, c.steps, objects), c.parent, c.path);
    CteBaseDepth(c.base, parents, objects);
    CteRows(c.base, CteBase(c.base, parents, objects), objects, c.maxDepth, 1)
  }

  function CteSpots(rows: seq<CteRow>): seq<Spot> {
    if rows == [] then [] else [rows[0].spot] + CteSpots(rows[1..])
  }

  // ----- recursive CTEs on SQLite -----

  /** SQLite LIKE: `%` matches any text, `_` any character, letters match in either ASCII case. */
  predicate Like(p: string, s: string)
    decreases |p| + |s|
  {
    if p == "" then s == ""
    else if p[0] == '%' then Like(p[1..], s) || (s != "" && Like(p, s[1..]))
    else s != "" && (p[0] == '_' || LowerChar(p[0]) == LowerChar(s[0])) && Like(p[1..], s[1..])
  }

  /** The cycle test of the SQLite query: the trail LIKE '%,' || uid || ',%'. */
  predicate Seen(trail: string, uid: string) {
    Like("%," + uid + ",%", trail)
  }

  /** A CTE row as SQLite keeps it. */
  datatype TextRow = TextRow(spot: Spot, depth: int, trail: string)

  function TextOnward(r: TextRow, xs: seq<Obj>, maxDepth: int): seq<TextRow> {
    if xs == [] then []
    else
      (if !Seen(r.trail, xs[0].uid) && r.depth < maxDepth
       then [TextRow(Spot(r.spot.path + Segment(xs[0]), xs[0]), r.depth + 1, r.trail + xs[0].uid + ",")] else [])
      + TextOnward(r, xs[1..], maxDepth)
  }

  function TextStep(base: Base, working: seq<TextRow>, objects: seq<Obj>, maxDepth: int): seq<TextRow> {
    if working == [] then []
    else
      TextOnward(working[0], Followers(base, working[0].spot.obj, objects), maxDepth)
        + TextStep(base, working[1..], objects, maxDepth)
  }

  function TextStarts(s: Spot, xs: seq<Obj>): seq<TextRow> {
    if xs == [] then []
    else [TextRow(Spot(s.path + Segment(xs[0]), xs[0]), 1, "," + xs[0].uid + ",")] + TextStarts(s, xs[1..])
  }

  function TextBase(base: Base, spots: seq<Spot>, objects: seq<Obj>): seq<TextRow> {
    if spots == [] then []
    else TextStarts(spots[0], Followers(base, spots[0].obj, objects)) + TextBase(base, spots[1..], objects)
  }

  predicate TextAtDepth(rows: seq<TextRow>, d: int) {
    forall i :: 0 <= i < |rows| ==> rows[i].depth == d
  }

  lemma {:induction false} TextOnwardDepth(r: TextRow, xs: seq<Obj>, maxDepth: int)
    ensures TextAtDepth(TextOnward(r, xs, maxDepth), r.depth + 1)
    ensures r.depth >= maxDepth ==> TextOnward(r, xs, maxDepth) == []
  {
    hide Seen;
    if xs != [] {
      TextOnwardDepth(r, xs[1..], maxDepth);
    }
  }

  lemma {:induction false} TextStepDepth(base: Base, working: seq<TextRow>, objects: seq<Obj>, maxDepth: int, d: int)
    requires TextAtDepth(working, d)
    ensures TextAtDepth(TextStep(base, working, objects, maxDepth), d + 1)
    ensures d >= maxDepth ==> TextStep(base, working, objects, maxDepth) == []
  {
    if working != [] {
      hide TextOnward, Followers;
      TextStepDepth(base, working[1..], objects, maxDepth, d);
      TextOnwardDepth(working[0], Followers(base, working[0].spot.obj, objects), maxDepth);
    }
  }

  lemma {:induction false} TextStartsDepth(s: Spot, xs: seq<Obj>)
    ensures TextAtDepth(TextStarts(s, xs), 1)
  {
    if xs != [] {
      TextStartsDepth(s, xs[1..]);
    }
  }

  lemma {:induction false} TextBaseDepth(base: Base, spots: seq<Spot>, objects: seq<Obj>)
    ensures TextAtDepth(TextBase(base, spots, objects), 1)
  {
    if spots != [] {
      TextStartsDepth(spots[0], Followers(base, spots[0].obj, objects));
      TextBaseDepth(base, spots[1..], objects);
    }
  }

  /** The recursion with trails kept as text. */
  function TextRows(base: Base, working: seq<TextRow>, objects: seq<Obj>, maxDepth: int, d: int): seq<TextRow>
    requires TextAtDepth(working, d) && (working != [] ==> d <= maxDepth || d == 1)
    decreases if working == [] then 0 else if d <= maxDepth then maxDepth - d + 2 else 1
  {
    if working == [] then []
    else
      TextStepDepth(base, working, objects, maxDepth, d);
      working + TextRows(base, TextStep(base, working, objects, maxDepth), objects, maxDepth, d + 1)
  }

  lemma TextRowsStep(base: Base, working: seq<TextRow>, objects: seq<Obj>, maxDepth: int, d: int)
    requires TextAtDepth(working, d) && working != [] && (d <= maxDepth || d == 1)
    ensures TextAtDepth(TextStep(base, working, objects, maxDepth), d + 1)
    ensures TextStep(base, working, objects, maxDepth) != [] ==> d + 1 <= maxDepth
    ensures TextRows(base, working, objects, maxDepth, d)
         == working + TextRows(base, TextStep(base, working, objects, maxDepth), objects, maxDepth, d + 1)
  {
    hide TextStep;
    TextStepDepth(base, working, objects, maxDepth, d);
  }

  function EvalSqlite(c: Cte, roots: seq<Obj>, objects: seq<Obj>): seq<TextRow> {
    var parents := SpotsOf(Envs(roots, c.steps, objects), c.parent, c.path);
    TextBaseDepth(c.base, parents, objects);
    TextRows(c.base, TextBase(c.base, parents, objects), objects, c.maxDepth, 1)
  }

  function TextSpots(rows: seq<TextRow>): seq<Spot> {
    if rows == [] then [] else [rows[0].spot] + TextSpots(rows[1..])
  }

  /** Where the rows of a CTE are, when SQLite evaluates it. */
  function WalkSpots(c: Cte, roots: seq<Obj>, objects: seq<Obj>): seq<Spot> {
    TextSpots(EvalSqlite(c, roots, objects))
  }

  /** Each spot extended by the objects a join finds for it. */
  function Grow(spots: seq<Spot>, j: JoinKind, objects: seq<Obj>): seq<Spot> {
    if spots == [] then []
    else Reach(spots[0], Matches(j, spots[0].obj, objects)) + Grow(spots[1..], j, objects)
  }

  function Reach(s: Spot, xs: seq<Obj>): seq<Spot> {
    if xs == [] then [] else [Spot(s.path + Segment(xs[0]), xs[0])] + Reach(s, xs[1..])
  }

  // ----- the whole query -----

  function SelectRows(s: Select, roots: seq<Obj>, objects: seq<Obj>, cat: Catalog): seq<Row> {
    match s
    case Joined(steps, child, path, where, projection, limit, level, rel) =>
      Limited(SpotRows(SpotsOf(Envs(roots, steps, objects), child, path), where, projection, level, rel, cat), limit)
    case Walked(cte, _, limit) =>
      Limited(SpotRows(WalkSpots(cte, roots, objects), [], cte.projection, cte.level, cte.rel, cat), limit)
    case Attached(cte, join, where, projection, level, rel) =>
      SpotRows(Grow(WalkSpots(cte, roots, objects), join, objects), where, projection, level, rel, cat)
  }

  function UnionRows(selects: seq<Select>, roots: seq<Obj>, objects: seq<Obj>, cat: Catalog): seq<Row> {
    if selects == [] then []
    else SelectRows(selects[0], roots, objects, cat) + UnionRows(selects[1..], roots, objects, cat)
  }

  function RootSpots(roots: seq<Obj>): seq<Spot> {
    if roots == [] then [] else [Spot(Segment(roots[0]), roots[0])] + RootSpots(roots[1..])
  }

  /** The UNION ALL of the root branch and the relation branches, before ORDER BY path. */
  function QueryRows(plan: Plan, projection: Option<Projection>, roots: seq<Obj>, objects: seq<Obj>,
                     cat: Catalog): seq<Row> {
    SpotRows(RootSpots(roots), [], projection, 0, "", cat) + UnionRows(plan.selects, roots, objects, cat)
  }
}
