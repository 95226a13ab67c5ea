/** What a recursive CTE returns: one row for each chain of distinct objects along its relation,
    and hence exactly the objects within walking distance. */
module Closure {
  import opened Options
  import opened Objects
  import opened Paths
  import opened Plans

  /** Object UIDs are unique within a cluster. */
  ghost predicate UniqueUids(objects: seq<Obj>) {
    forall a, b :: a in objects && b in objects && a.cluster == b.cluster && a.uid == b.uid ==> a == b
  }

  ghost predicate NoRepeats<T>(s: seq<T>) {
    forall i, j :: 0 <= i < j < |s| ==> s[i] != s[j]
  }

  // ----- walks and chains -----

  /** `ws` leads from `r` along the relation, every object stored. */
  ghost predicate IsWalk(base: Base, objects: seq<Obj>, r: Obj, ws: seq<Obj>)
    decreases |ws|
  {
    ws == [] || (IsWalk(base, objects, r, ws[..|ws| - 1]) && ws[|ws| - 1] in objects
      && Follows(base, End(r, ws[..|ws| - 1]), ws[|ws| - 1]))
  }

  /** The last object of a walk; of an empty one, its start. */
  function End(r: Obj, ws: seq<Obj>): Obj {
    if ws == [] then r else ws[|ws| - 1]
  }

  function Uids(ws: seq<Obj>): (us: seq<string>)
    ensures |us| == |ws|
    ensures forall i :: 0 <= i < |ws| ==> us[i] == ws[i].uid
  {
    if ws == [] then [] else Uids(ws[..|ws| - 1]) + [ws[|ws| - 1].uid]
  }

  /** A non-empty walk that visits no UID twice. Its start does not count as visited. */
  ghost predicate IsChain(base: Base, objects: seq<Obj>, r: Obj, c: seq<Obj>) {
    c != [] && IsWalk(base, objects, r, c) && NoRepeats(Uids(c))
  }

  /** The CTE row of a chain below a spot. */
  function RowOf(s: Spot, c: seq<Obj>): CteRow
    requires c != []
  {
    CteRow(Spot(s.path + PathOf(c), c[|c| - 1]), |c|, Uids(c))
  }

  lemma {:induction false} WalkStaysInCluster(base: Base, objects: seq<Obj>, r: Obj, ws: seq<Obj>)
    requires IsWalk(base, objects, r, ws)
    ensures forall i :: 0 <= i < |ws| ==> ws[i] in objects && ws[i].cluster == r.cluster
  {
    if ws != [] {
      WalkStaysInCluster(base, objects, r, ws[..|ws| - 1]);
    }
  }

  lemma {:induction false} WalkPrefix(base: Base, objects: seq<Obj>, r: Obj, ws: seq<Obj>, k: nat)
    requires IsWalk(base, objects, r, ws) && k <= |ws|
    ensures IsWalk(base, objects, r, ws[..k])
  {
    if k < |ws| {
      WalkPrefix(base, objects, r, ws[..|ws| - 1], k);
      assert ws[..|ws| - 1][..k] == ws[..k];
    } else {
      assert ws[..k] == ws;
    }
  }

  lemma {:induction false} WalkConcat(base: Base, objects: seq<Obj>, r: Obj, a: seq<Obj>, b: seq<Obj>)
    requires IsWalk(base, objects, r, a) && IsWalk(base, objects, End(r, a), b)
    ensures IsWalk(base, objects, r, a + b) && End(r, a + b) == End(End(r, a), b)
    decreases |b|
  {
    if b == [] {
      assert a + b == a;
    } else {
      hide Follows;
      var init := b[..|b| - 1];
      WalkConcat(base, objects, r, a, init);
      assert (a + b)[..|a + b| - 1] == a + init;
      assert (a + b)[|a + b| - 1] == b[|b| - 1];
    }
  }

  lemma {:induction false} WalkSuffix(base: Base, objects: seq<Obj>, r: Obj, ws: seq<Obj>, k: nat)
    requires IsWalk(base, objects, r, ws) && k <= |ws|
    ensures IsWalk(base, objects, End(r, ws[..k]), ws[k..]) && End(End(r, ws[..k]), ws[k..]) == End(r, ws)
    decreases |ws|
  {
    if k < |ws| {
      var init := ws[..|ws| - 1];
      WalkSuffix(base, objects, r, init, k);
      assert init[..k] == ws[..k] && ws[k..][..|ws[k..]| - 1] == init[k..];
    } else {
      assert ws[..k] == ws;
    }
  }

  /** Every non-empty walk can be shortened to a chain with the same end. */
  lemma {:induction false} Shorten(base: Base, objects: seq<Obj>, r: Obj, ws: seq<Obj>) returns (c: seq<Obj>)
    requires UniqueUids(objects) && ws != [] && IsWalk(base, objects, r, ws)
    ensures IsChain(base, objects, r, c) && |c| <= |ws| && End(r, c) == End(r, ws)
    decreases |ws|
  {
    hide IsWalk, UniqueUids;
    if NoRepeats(Uids(ws)) {
      c := ws;
    } else {
      var i: nat, j: nat :| i < j < |ws| && Uids(ws)[i] == Uids(ws)[j];
      hide NoRepeats, IsChain;
      var shorter := CutLoop(base, objects, r, ws, i, j);
      c := Shorten(base, objects, r, shorter);
    }
  }

  lemma SameUidSameObject(base: Base, objects: seq<Obj>, r: Obj, ws: seq<Obj>, i: nat, j: nat)
    requires UniqueUids(objects) && IsWalk(base, objects, r, ws) && i < j < |ws| && ws[i].uid == ws[j].uid
    ensures ws[i] == ws[j]
  {
    hide IsWalk;
    WalkStaysInCluster(base, objects, r, ws);
  }

  /** A walk that meets a UID twice can skip what lies between. */
  lemma CutLoop(base: Base, objects: seq<Obj>, r: Obj, ws: seq<Obj>, i: nat, j: nat) returns (shorter: seq<Obj>)
    requires UniqueUids(objects) && IsWalk(base, objects, r, ws) && i < j < |ws| && ws[i].uid == ws[j].uid
    ensures IsWalk(base, objects, r, shorter) && 0 < |shorter| < |ws| && End(r, shorter) == End(r, ws)
  {
    hide IsWalk, UniqueUids;
    SameUidSameObject(base, objects, r, ws, i, j);
    var head, tail := ws[..i + 1], ws[j + 1..];
    WalkPrefix(base, objects, r, ws, i + 1);
    WalkSuffix(base, objects, r, ws, j + 1);
    assert End(r, ws[..j + 1]) == ws[j] == End(r, head);
    WalkConcat(base, objects, r, head, tail);
    shorter := head + tail;
  }

  // ----- the rows of the CTE -----

  lemma {:induction false} FollowersExact(base: Base, p: Obj, objects: seq<Obj>, x: Obj)
    ensures x in Followers(base, p, objects) <==> x in objects && Follows(base, p, x)
  {
    if objects != [] {
      FollowersExact(base, p, objects[1..], x);
      assert x in objects <==> x == objects[0] || x in objects[1..];
    }
  }

  lemma {:induction false} FollowersOnce(base: Base, p: Obj, objects: seq<Obj>)
    requires NoRepeats(objects)
    ensures NoRepeats(Followers(base, p, objects))
  {
    if objects != [] {
      FollowersOnce(base, p, objects[1..]);
      FollowersExact(base, p, objects[1..], objects[0]);
      assert objects[0] !in objects[1..];
    }
  }

  function Extended(r: CteRow, x: Obj): CteRow {
    CteRow(Spot(r.spot.path + Segment(x), x), r.depth + 1, r.visited + [x.uid])
  }

  ghost predicate Extends(r: CteRow, x: Obj, xs: seq<Obj>, maxDepth: int) {
    x in xs && x.uid !in r.visited && r.depth < maxDepth
  }

  lemma {:induction false} OnwardExact(r: CteRow, xs: seq<Obj>, maxDepth: int, row: CteRow)
    ensures row in Onward(r, xs, maxDepth)
            <==> Extends(r, row.spot.obj, xs, maxDepth) && row == Extended(r, row.spot.obj)
  {
    if xs != [] {
      OnwardExact(r, xs[1..], maxDepth, row);
      assert row.spot.obj in xs <==> row.spot.obj == xs[0] || row.spot.obj in xs[1..];
    }
  }

  /** `row` extends a row of the working table by one object. */
  ghost predicate Steps(base: Base, working: seq<CteRow>, objects: seq<Obj>, maxDepth: int, row: CteRow) {
    exists r :: r in working && row in Onward(r, Followers(base, r.spot.obj, objects), maxDepth)
  }

  lemma {:induction false} CteStepExact(base: Base, working: seq<CteRow>, objects: seq<Obj>, maxDepth: int, row: CteRow)
    ensures row in CteStep(base, working, objects, maxDepth) <==> Steps(base, working, objects, maxDepth, row)
  {
    hide Onward, Followers;
    if working != [] {
      CteStepExact(base, working[1..], objects, maxDepth, row);
      assert working == [working[0]] + working[1..];
      if Steps(base, working, objects, maxDepth, row) {
        var r :| r in working && row in Onward(r, Followers(base, r.spot.obj, objects), maxDepth);
        assert r == working[0] || r in working[1..];
      }
    }
  }

  /** `row` is the row of a chain of `d` objects below the spot. */
  ghost predicate IsRow(base: Base, objects: seq<Obj>, s: Spot, d: int, row: CteRow) {
    exists c :: c != [] && IsChain(base, objects, s.obj, c) && |c| == d && row == RowOf(s, c)
  }

  /** The table holds the rows of the chains of `d` objects, each of them and no others. */
  ghost predicate Exactly(base: Base, objects: seq<Obj>, s: Spot, working: seq<CteRow>, d: int) {
    forall row :: row in working <==> IsRow(base, objects, s, d, row)
  }

  lemma SingleChain(base: Base, objects: seq<Obj>, s: Spot, x: Obj)
    requires x in objects && Follows(base, s.obj, x)
    ensures IsChain(base, objects, s.obj, [x])
    ensures RowOf(s, [x]) == CteRow(Spot(s.path + Segment(x), x), 1, [x.uid])
  {
    hide Segment;
    assert [x][..0] == [];
    assert IsWalk(base, objects, s.obj, []);
    assert Uids([x]) == [x.uid];
    assert PathOf([x]) == PathOf([]) + Segment(x);
  }

  lemma {:induction false} StartsExact(s: Spot, xs: seq<Obj>, row: CteRow)
    ensures row in Starts(s, xs)
            <==> row.spot.obj in xs
                 && row == CteRow(Spot(s.path + Segment(row.spot.obj), row.spot.obj), 1, [row.spot.obj.uid])
  {
    hide Segment;
    if xs != [] {
      StartsExact(s, xs[1..], row);
      assert row.spot.obj in xs <==> row.spot.obj == xs[0] || row.spot.obj in xs[1..];
    }
  }

  lemma BaseExact(base: Base, objects: seq<Obj>, s: Spot)
    ensures Exactly(base, objects, s, CteBase(base, [s], objects), 1)
  {
    hide Segment, Starts, Followers, Uids, NoRepeats, Follows;
    var xs := Followers(base, s.obj, objects);
    assert [s][1..] == [];
    assert CteBase(base, [s], objects) == Starts(s, xs);
    forall row
      ensures row in Starts(s, xs) <==> IsRow(base, objects, s, 1, row)
    {
      var x := row.spot.obj;
      StartsExact(s, xs, row);
      FollowersExact(base, s.obj, objects, x);
      if row in Starts(s, xs) {
        SingleChain(base, objects, s, x);
      }
      if IsRow(base, objects, s, 1, row) {
        var c :| c != [] && IsChain(base, objects, s.obj, c) && |c| == 1 && row == RowOf(s, c);
        assert c == [x] && c[..0] == [];
        SingleChain(base, objects, s, x);
      }
    }
  }

  lemma AppendUid(c: seq<Obj>, x: Obj)
    ensures (c + [x])[..|c|] == c && Uids(c + [x]) == Uids(c) + [x.uid]
  {
    assert (c + [x])[..|c|] == c;
  }

  lemma AppendNew(us: seq<string>, u: string)
    ensures NoRepeats(us + [u]) <==> NoRepeats(us) && u !in us
  {
    if u in us {
      var i :| 0 <= i < |us| && us[i] == u;
      assert (us + [u])[i] == (us + [u])[|us|];
    }
    if NoRepeats(us + [u]) {
      assert forall i, j :: 0 <= i < j < |us| ==> (us + [u])[i] == us[i] && (us + [u])[j] == us[j];
    }
  }

  /** Extending a chain's row by a successor gives the row of the extended chain. */
  lemma ChainExtends(base: Base, objects: seq<Obj>, s: Spot, c: seq<Obj>, x: Obj)
    requires IsChain(base, objects, s.obj, c)
    ensures IsChain(base, objects, s.obj, c + [x])
            <==> x in objects && Follows(base, c[|c| - 1], x) && x.uid !in Uids(c)
  {
    hide Follows, NoRepeats, Uids;
    AppendUid(c, x);
    AppendNew(Uids(c), x.uid);
  }

  lemma RowExtends(s: Spot, c: seq<Obj>, x: Obj)
    requires c != []
    ensures RowOf(s, c + [x]) == Extended(RowOf(s, c), x)
  {
    hide Segment, Uids;
    AppendUid(c, x);
    assert s.path + (PathOf(c) + Segment(x)) == (s.path + PathOf(c)) + Segment(x);
  }

  lemma StepIsRow(base: Base, objects: seq<Obj>, s: Spot, working: seq<CteRow>, d: int, maxDepth: int, row: CteRow)
    requires Exactly(base, objects, s, working, d) && Steps(base, working, objects, maxDepth, row)
    ensures IsRow(base, objects, s, d + 1, row)
  {
    hide Segment, Onward, Followers, IsChain, RowOf, Extended, Uids, Follows;
    var r :| r in working && row in Onward(r, Followers(base, r.spot.obj, objects), maxDepth);
    var x := row.spot.obj;
    OnwardExact(r, Followers(base, r.spot.obj, objects), maxDepth, row);
    FollowersExact(base, r.spot.obj, objects, x);
    assert IsRow(base, objects, s, d, r);
    var c :| c != [] && IsChain(base, objects, s.obj, c) && |c| == d && r == RowOf(s, c);
    ChainRow(base, objects, s, c);
    ChainExtends(base, objects, s, c, x);
    RowExtends(s, c, x);
    assert |c + [x]| == d + 1;
  }

  lemma ChainRow(base: Base, objects: seq<Obj>, s: Spot, c: seq<Obj>)
    requires IsChain(base, objects, s.obj, c)
    ensures c != [] && RowOf(s, c).spot.obj == c[|c| - 1] && RowOf(s, c).visited == Uids(c) && RowOf(s, c).depth == |c|
  {
  }

  lemma ChainInit(base: Base, objects: seq<Obj>, s: Spot, c: seq<Obj>)
    requires IsChain(base, objects, s.obj, c) && |c| > 1
    ensures IsChain(base, objects, s.obj, c[..|c| - 1]) && c == c[..|c| - 1] + [c[|c| - 1]]
  {
    hide Follows;
    var init := c[..|c| - 1];
    assert forall i :: 0 <= i < |init| ==> Uids(init)[i] == Uids(c)[i];
  }

  lemma RowIsStep(base: Base, objects: seq<Obj>, s: Spot, working: seq<CteRow>, d: nat, maxDepth: int, row: CteRow)
    requires Exactly(base, objects, s, working, d) && 1 <= d < maxDepth && IsRow(base, objects, s, d + 1, row)
    ensures Steps(base, working, objects, maxDepth, row)
  {
    hide Segment, Onward, Followers, IsChain, RowOf, Extended, Uids, NoRepeats, Follows;
    var c :| c != [] && IsChain(base, objects, s.obj, c) && |c| == d + 1 && row == RowOf(s, c);
    var init, x := c[..d], c[d];
    ChainInit(base, objects, s, c);
    ChainExtends(base, objects, s, init, x);
    RowExtends(s, init, x);
    ChainRow(base, objects, s, init);
    ChainRow(base, objects, s, c);
    var r := RowOf(s, init);
    assert IsRow(base, objects, s, d, r);
    FollowersExact(base, r.spot.obj, objects, x);
    OnwardExact(r, Followers(base, r.spot.obj, objects), maxDepth, row);
  }

  lemma StepExact(base: Base, objects: seq<Obj>, s: Spot, working: seq<CteRow>, d: nat, maxDepth: int)
    requires Exactly(base, objects, s, working, d) && 1 <= d < maxDepth
    ensures Exactly(base, objects, s, CteStep(base, working, objects, maxDepth), d + 1)
  {
    hide CteStep, Steps, IsRow;
    forall row
      ensures row in CteStep(base, working, objects, maxDepth) <==> IsRow(base, objects, s, d + 1, row)
    {
      CteStepExact(base, working, objects, maxDepth, row);
      if Steps(base, working, objects, maxDepth, row) {
        StepIsRow(base, objects, s, working, d, maxDepth, row);
      }
      if IsRow(base, objects, s, d + 1, row) {
        RowIsStep(base, objects, s, working, d, maxDepth, row);
      }
    }
  }

  /** `row` is the row of a chain whose length is between `d` and the limit. */
  ghost predicate IsRowFrom(base: Base, objects: seq<Obj>, s: Spot, d: nat, maxDepth: int, row: CteRow) {
    exists k: nat :: d <= k <= maxDepth && IsRow(base, objects, s, k, row)
  }

  lemma {:induction false} CteRowsExact(base: Base, objects: seq<Obj>, s: Spot, working: seq<CteRow>, d: nat,
                                        maxDepth: int, row: CteRow)
    requires AtDepth(working, d) && 1 <= d <= maxDepth && Exactly(base, objects, s, working, d)
    ensures row in CteRows(base, working, objects, maxDepth, d) <==> IsRowFrom(base, objects, s, d, maxDepth, row)
    decreases maxDepth - d
  {
    hide CteStep, IsRow, AtDepth;
    var next := CteStep(base, working, objects, maxDepth);
    CteStepDepth(base, working, objects, maxDepth, d);
    if d < maxDepth {
      StepExact(base, objects, s, working, d, maxDepth);
      CteRowsExact(base, objects, s, next, d + 1, maxDepth, row);
      if working == [] {
        NoLongerRow(base, objects, s, working, d, row);
        assert next == [] by { NoStep(base, objects, maxDepth); }
      }
      assert IsRowFrom(base, objects, s, d, maxDepth, row)
             <==> IsRow(base, objects, s, d, row) || IsRowFrom(base, objects, s, d + 1, maxDepth, row);
    } else {
      assert next == [];
    }
  }

  lemma NoLongerRow(base: Base, objects: seq<Obj>, s: Spot, working: seq<CteRow>, d: nat, row: CteRow)
    requires working == [] && Exactly(base, objects, s, working, d)
    ensures !IsRow(base, objects, s, d, row)
  {
    hide IsRow;
    assert row !in working;
  }

  lemma NoStep(base: Base, objects: seq<Obj>, maxDepth: int)
    ensures CteStep(base, [], objects, maxDepth) == []
  {
  }

  /** The rows that the CTE returns below one spot. */
  function RowsBelow(base: Base, s: Spot, objects: seq<Obj>, maxDepth: int): seq<CteRow> {
    CteBaseDepth(base, [s], objects);
    CteRows(base, CteBase(base, [s], objects), objects, maxDepth, 1)
  }

  /** The CTE returns the row of every chain of at most `maxDepth` objects, and no other row. */
  lemma RowsAreChains(base: Base, s: Spot, objects: seq<Obj>, maxDepth: int, row: CteRow)
    requires maxDepth >= 1
    ensures row in RowsBelow(base, s, objects, maxDepth) <==> IsRowFrom(base, objects, s, 1, maxDepth, row)
  {
    hide CteBase, CteRows, IsRowFrom, Exactly;
    CteBaseDepth(base, [s], objects);
    BaseExact(base, objects, s);
    CteRowsExact(base, objects, s, CteBase(base, [s], objects), 1, maxDepth, row);
  }

  // ----- reachability -----

  /** The CTE finds `o` below the spot. */
  ghost predicate Finds(base: Base, s: Spot, objects: seq<Obj>, maxDepth: int, o: Obj) {
    exists row :: row in RowsBelow(base, s, objects, maxDepth) && row.spot.obj == o
  }

  /** `o` is at the end of a walk of 1 to `limit` steps. */
  ghost predicate WithinReach(base: Base, objects: seq<Obj>, r: Obj, limit: int, o: Obj) {
    exists ws :: ws != [] && |ws| <= limit && IsWalk(base, objects, r, ws) && End(r, ws) == o
  }

  lemma FoundIsWithinReach(base: Base, s: Spot, objects: seq<Obj>, maxDepth: int, o: Obj)
    requires maxDepth >= 1 && Finds(base, s, objects, maxDepth, o)
    ensures WithinReach(base, objects, s.obj, maxDepth, o)
  {
    hide RowsBelow, NoRepeats, Uids, IsWalk;
    var row :| row in RowsBelow(base, s, objects, maxDepth) && row.spot.obj == o;
    RowsAreChains(base, s, objects, maxDepth, row);
    var k: nat :| 1 <= k <= maxDepth && IsRow(base, objects, s, k, row);
    var c :| c != [] && IsChain(base, objects, s.obj, c) && |c| == k && row == RowOf(s, c);
    assert End(s.obj, c) == o;
  }

  lemma WithinReachIsFound(base: Base, s: Spot, objects: seq<Obj>, maxDepth: int, o: Obj)
    requires UniqueUids(objects) && maxDepth >= 1 && WithinReach(base, objects, s.obj, maxDepth, o)
    ensures Finds(base, s, objects, maxDepth, o)
  {
    hide RowsBelow, UniqueUids, IsWalk, NoRepeats, Uids;
    var ws :| ws != [] && |ws| <= maxDepth && IsWalk(base, objects, s.obj, ws) && End(s.obj, ws) == o;
    var c := Shorten(base, objects, s.obj, ws);
    var row := RowOf(s, c);
    assert IsRow(base, objects, s, |c|, row);
    RowsAreChains(base, s, objects, maxDepth, row);
  }

  /** Closure exactness: the objects a transitive relation returns for a root are exactly those
      within reach of 1 to `maxDepth` steps, cycles or not. */
  lemma ClosureExact(base: Base, s: Spot, objects: seq<Obj>, maxDepth: int, o: Obj)
    requires UniqueUids(objects) && maxDepth >= 1
    ensures Finds(base, s, objects, maxDepth, o) <==> WithinReach(base, objects, s.obj, maxDepth, o)
  {
    hide Finds, WithinReach, UniqueUids;
    if Finds(base, s, objects, maxDepth, o) {
      FoundIsWithinReach(base, s, objects, maxDepth, o);
    }
    if WithinReach(base, objects, s.obj, maxDepth, o) {
      WithinReachIsFound(base, s, objects, maxDepth, o);
    }
  }

  // ----- walking back -----

  function Opposite(base: Base): Option<Base> {
    match base case OwnedBy => Some(OwnerOf) case OwnerOf => Some(OwnedBy) case LinkedFrom => None
  }

  /** The objects of a walk backwards, from the one before its end to its start. */
  function Back(r: Obj, ws: seq<Obj>): seq<Obj> {
    if ws == [] then [] else [End(r, ws[..|ws| - 1])] + Back(r, ws[..|ws| - 1])
  }

  lemma {:induction false} WalkReverses(base: Base, objects: seq<Obj>, r: Obj, ws: seq<Obj>)
    requires Opposite(base).Some? && r in objects && IsWalk(base, objects, r, ws)
    ensures IsWalk(Opposite(base).value, objects, End(r, ws), Back(r, ws))
    ensures |Back(r, ws)| == |ws| && End(End(r, ws), Back(r, ws)) == r
    decreases |ws|
  {
    if ws != [] {
      var back := Opposite(base).value;
      var init, last := ws[..|ws| - 1], ws[|ws| - 1];
      var before := End(r, init);
      WalkReverses(base, objects, r, init);
      WalkStaysInCluster(base, objects, r, init);
      assert before in objects;
      SingleStep(back, objects, last, before);
      WalkConcat(back, objects, last, [before], Back(r, init));
    }
  }

  lemma SingleStep(base: Base, objects: seq<Obj>, r: Obj, x: Obj)
    requires x in objects && Follows(base, r, x)
    ensures IsWalk(base, objects, r, [x]) && End(r, [x]) == x
  {
    assert [x][..0] == [];
    assert IsWalk(base, objects, r, []);
  }

  lemma ReachReverses(base: Base, objects: seq<Obj>, a: Obj, b: Obj, limit: int)
    requires Opposite(base).Some? && a in objects && WithinReach(base, objects, a, limit, b)
    ensures WithinReach(Opposite(base).value, objects, b, limit, a)
  {
    var ws :| ws != [] && |ws| <= limit && IsWalk(base, objects, a, ws) && End(a, ws) == b;
    WalkReverses(base, objects, a, ws);
    var back := Back(a, ws);
    assert back != [];
  }

  /** Transitive descendants and transitive owners are exact converses at equal depth limits. */
  lemma TransitiveConverse(a: Spot, b: Spot, objects: seq<Obj>, maxDepth: int)
    requires UniqueUids(objects) && maxDepth >= 1 && a.obj in objects && b.obj in objects
    ensures Finds(OwnedBy, a, objects, maxDepth, b.obj) <==> Finds(OwnerOf, b, objects, maxDepth, a.obj)
  {
    hide Finds, WithinReach, UniqueUids;
    ClosureExact(OwnedBy, a, objects, maxDepth, b.obj);
    ClosureExact(OwnerOf, b, objects, maxDepth, a.obj);
    if WithinReach(OwnedBy, objects, a.obj, maxDepth, b.obj) {
      ReachReverses(OwnedBy, objects, a.obj, b.obj, maxDepth);
    }
    if WithinReach(OwnerOf, objects, b.obj, maxDepth, a.obj) {
      ReachReverses(OwnerOf, objects, b.obj, a.obj, maxDepth);
    }
  }

  // ----- one row per chain -----

  ghost predicate DistinctTrails(rows: seq<CteRow>) {
    forall i, j :: 0 <= i < j < |rows| ==> rows[i].visited != rows[j].visited
  }

  ghost predicate TrailLength(rows: seq<CteRow>, d: nat) {
    forall i :: 0 <= i < |rows| ==> |rows[i].visited| == d
  }

  ghost predicate DistinctUids(xs: seq<Obj>) {
    forall i, j :: 0 <= i < j < |xs| ==> xs[i].uid != xs[j].uid
  }

  lemma FollowersDistinct(base: Base, p: Obj, objects: seq<Obj>)
    requires NoRepeats(objects) && UniqueUids(objects)
    ensures DistinctUids(Followers(base, p, objects))
  {
    var xs := Followers(base, p, objects);
    FollowersOnce(base, p, objects);
    forall i, j | 0 <= i < j < |xs|
      ensures xs[i].uid != xs[j].uid
    {
      assert xs[i] in xs && xs[j] in xs;
      FollowersExact(base, p, objects, xs[i]);
      FollowersExact(base, p, objects, xs[j]);
    }
  }

  lemma {:induction false} StartsTrails(s: Spot, xs: seq<Obj>)
    requires DistinctUids(xs)
    ensures DistinctTrails(Starts(s, xs)) && TrailLength(Starts(s, xs), 1)
    ensures forall row :: row in Starts(s, xs) ==> row.visited == [row.spot.obj.uid] && row.spot.obj in xs
  {
    hide Segment;
    if xs != [] {
      StartsTrails(s, xs[1..]);
      assert forall x :: x in xs[1..] ==> x.uid != xs[0].uid;
    }
  }

  /** Each extended row keeps its trail and adds a new UID at the end. */
  lemma {:induction false} OnwardTrails(r: CteRow, xs: seq<Obj>, maxDepth: int)
    requires DistinctUids(xs)
    ensures DistinctTrails(Onward(r, xs, maxDepth))
    ensures forall row :: row in Onward(r, xs, maxDepth)
              ==> row.spot.obj in xs && row.visited == r.visited + [row.spot.obj.uid]
  {
    hide Segment;
    if xs != [] {
      OnwardTrails(r, xs[1..], maxDepth);
      assert forall x :: x in xs[1..] ==> x.uid != xs[0].uid;
      forall row | row in Onward(r, xs[1..], maxDepth)
        ensures row.visited != r.visited + [xs[0].uid]
      {
        assert row.visited[|r.visited|] == row.spot.obj.uid;
      }
    }
  }

  lemma {:induction false} CteStepTrails(base: Base, working: seq<CteRow>, objects: seq<Obj>, maxDepth: int, d: nat)
    requires NoRepeats(objects) && UniqueUids(objects)
    requires DistinctTrails(working) && TrailLength(working, d)
    ensures DistinctTrails(CteStep(base, working, objects, maxDepth))
    ensures forall row :: row in CteStep(base, working, objects, maxDepth)
              ==> |row.visited| == d + 1 && IsTrail(working, row.visited[..d])
  {
    if working != [] {
      hide Onward, Followers, UniqueUids, NoRepeats, DistinctTrails, IsTrail, DistinctUids;
      var r, rest := working[0], working[1..];
      var onward := Onward(r, Followers(base, r.spot.obj, objects), maxDepth);
      assert working == [r] + rest;
      RestTrails(r, rest);
      CteStepTrails(base, rest, objects, maxDepth, d);
      FollowersDistinct(base, r.spot.obj, objects);
      OnwardTrails(r, Followers(base, r.spot.obj, objects), maxDepth);
      assert CteStep(base, working, objects, maxDepth) == onward + CteStep(base, rest, objects, maxDepth);
      TrailsMerge(r, rest, d, onward, CteStep(base, rest, objects, maxDepth));
    }
  }

  lemma RestTrails(r: CteRow, rest: seq<CteRow>)
    requires DistinctTrails([r] + rest)
    ensures DistinctTrails(rest)
  {
    assert forall i :: 0 <= i < |rest| ==> rest[i] == ([r] + rest)[i + 1];
  }

  /** `t` is the trail of a row of the table. */
  ghost predicate IsTrail(rows: seq<CteRow>, t: seq<string>) {
    exists i :: 0 <= i < |rows| && rows[i].visited == t
  }

  lemma TrailsMerge(r: CteRow, rest: seq<CteRow>, d: nat, a: seq<CteRow>, b: seq<CteRow>)
    requires DistinctTrails([r] + rest) && TrailLength([r] + rest, d) && DistinctTrails(a) && DistinctTrails(b)
    requires forall row :: row in a ==> row.visited == r.visited + [row.spot.obj.uid]
    requires forall row :: row in b ==> |row.visited| == d + 1 && IsTrail(rest, row.visited[..d])
    ensures DistinctTrails(a + b)
    ensures forall row :: row in a + b ==> |row.visited| == d + 1 && IsTrail([r] + rest, row.visited[..d])
  {
    var all := [r] + rest;
    assert all[0] == r;
    forall row | row in a
      ensures |row.visited| == d + 1 && row.visited[..d] == r.visited && IsTrail(all, row.visited[..d])
    {
      assert all[0].visited == row.visited[..d];
    }
    forall row | row in b
      ensures IsTrail(all, row.visited[..d]) && row.visited[..d] != r.visited
    {
      var i :| 0 <= i < |rest| && rest[i].visited == row.visited[..d];
      assert all[i + 1] == rest[i];
    }
  }

  ghost predicate LongTrails(rows: seq<CteRow>, d: nat) {
    forall i :: 0 <= i < |rows| ==> |rows[i].visited| >= d
  }

  lemma {:induction false} CteRowsTrails(base: Base, working: seq<CteRow>, objects: seq<Obj>, maxDepth: int, d: nat)
    requires AtDepth(working, d) && (working != [] ==> d <= maxDepth || d == 1)
    requires NoRepeats(objects) && UniqueUids(objects) && DistinctTrails(working) && TrailLength(working, d)
    ensures DistinctTrails(CteRows(base, working, objects, maxDepth, d))
    ensures LongTrails(CteRows(base, working, objects, maxDepth, d), d)
    decreases if working == [] then 0 else if d <= maxDepth then maxDepth - d + 2 else 1
  {
    if working != [] {
      hide CteStep, UniqueUids, NoRepeats, CteRows, AtDepth, DistinctTrails, TrailLength, LongTrails;
      CteRowsStep(base, working, objects, maxDepth, d);
      NextTrails(base, working, objects, maxDepth, d);
      var next := CteStep(base, working, objects, maxDepth);
      CteRowsTrails(base, next, objects, maxDepth, d + 1);
      TrailsApart(working, CteRows(base, next, objects, maxDepth, d + 1), d);
    }
  }

  lemma NextTrails(base: Base, working: seq<CteRow>, objects: seq<Obj>, maxDepth: int, d: nat)
    requires NoRepeats(objects) && UniqueUids(objects) && DistinctTrails(working) && TrailLength(working, d)
    ensures DistinctTrails(CteStep(base, working, objects, maxDepth))
            && TrailLength(CteStep(base, working, objects, maxDepth), d + 1)
  {
    hide CteStep, UniqueUids, NoRepeats, DistinctTrails, IsTrail;
    CteStepTrails(base, working, objects, maxDepth, d);
  }

  lemma TrailsApart(a: seq<CteRow>, b: seq<CteRow>, d: nat)
    requires DistinctTrails(a) && DistinctTrails(b) && TrailLength(a, d) && LongTrails(b, d + 1)
    ensures DistinctTrails(a + b) && LongTrails(a + b, d)
  {
    forall i, j | 0 <= i < j < |a + b|
      ensures (a + b)[i].visited != (a + b)[j].visited
    {
      if i < |a| <= j {
        assert (a + b)[j] == b[j - |a|];
      }
    }
  }

  /** No two rows of the CTE have the same trail. */
  lemma TrailsDiffer(base: Base, s: Spot, objects: seq<Obj>, maxDepth: int)
    requires NoRepeats(objects) && UniqueUids(objects)
    ensures DistinctTrails(RowsBelow(base, s, objects, maxDepth))
  {
    hide CteRows, Starts, Followers, UniqueUids, NoRepeats, DistinctTrails;
    CteBaseDepth(base, [s], objects);
    FollowersDistinct(base, s.obj, objects);
    StartsTrails(s, Followers(base, s.obj, objects));
    assert [s][1..] == [];
    assert CteBase(base, [s], objects) == Starts(s, Followers(base, s.obj, objects));
    CteRowsTrails(base, CteBase(base, [s], objects), objects, maxDepth, 1);
  }

  /** A chain is determined by its trail. */
  lemma TrailFixesChain(base: Base, objects: seq<Obj>, r: Obj, a: seq<Obj>, b: seq<Obj>)
    requires UniqueUids(objects) && IsChain(base, objects, r, a) && IsChain(base, objects, r, b) && Uids(a) == Uids(b)
    ensures a == b
  {
    WalkStaysInCluster(base, objects, r, a);
    WalkStaysInCluster(base, objects, r, b);
    forall i | 0 <= i < |a|
      ensures a[i] == b[i]
    {
      assert Uids(a)[i] == Uids(b)[i];
    }
  }

  /** One row per chain: each row of the CTE is the row of exactly one chain, no chain has two rows,
      its depth is the chain's length, within the limit, and its path continues the spot's path
      with the chain's segments. */
  lemma OneRowPerChain(base: Base, s: Spot, objects: seq<Obj>, maxDepth: int, i: nat) returns (c: seq<Obj>)
    requires NoRepeats(objects) && UniqueUids(objects) && maxDepth >= 1 && i < |RowsBelow(base, s, objects, maxDepth)|
    ensures IsChain(base, objects, s.obj, c) && |c| <= maxDepth
    ensures var row := RowsBelow(base, s, objects, maxDepth)[i];
      row.depth == |c| && row.visited == Uids(c) && row.spot.obj == End(s.obj, c) && row.spot.path == s.path + PathOf(c)
    ensures forall d :: IsChain(base, objects, s.obj, d) && RowsBelow(base, s, objects, maxDepth)[i].visited == Uids(d)
              ==> d == c
    ensures forall j ::
              0 <= j < |RowsBelow(base, s, objects, maxDepth)|
              && RowsBelow(base, s, objects, maxDepth)[j].visited == Uids(c)
              ==> j == i
  {
    hide RowsBelow, NoRepeats, UniqueUids, IsChain, PathOf;
    var rows := RowsBelow(base, s, objects, maxDepth);
    var row := rows[i];
    RowsAreChains(base, s, objects, maxDepth, row);
    var k: nat :| 1 <= k <= maxDepth && IsRow(base, objects, s, k, row);
    c :| c != [] && IsChain(base, objects, s.obj, c) && |c| == k && row == RowOf(s, c);
    TrailsDiffer(base, s, objects, maxDepth);
    forall d | IsChain(base, objects, s.obj, d) && row.visited == Uids(d)
      ensures d == c
    {
      TrailFixesChain(base, objects, s.obj, c, d);
    }
  }

  // ----- bounds -----

  function UidSet(objects: seq<Obj>): set<string> {
    set o | o in objects :: o.uid
  }

  lemma {:induction false} DistinctFitIn(us: seq<string>, all: set<string>)
    requires NoRepeats(us) && forall u :: u in us ==> u in all
    ensures |us| <= |all|
  {
    if us != [] {
      var init, last := us[..|us| - 1], us[|us| - 1];
      assert last !in init;
      DistinctFitIn(init, all - {last});
    }
  }

  /** A chain is no longer than the number of stored UIDs. */
  lemma ChainBound(base: Base, objects: seq<Obj>, r: Obj, c: seq<Obj>)
    requires IsChain(base, objects, r, c)
    ensures |c| <= |UidSet(objects)|
  {
    WalkStaysInCluster(base, objects, r, c);
    forall u | u in Uids(c)
      ensures u in UidSet(objects)
    {
      var i :| 0 <= i < |c| && Uids(c)[i] == u;
      assert c[i] in objects;
    }
    DistinctFitIn(Uids(c), UidSet(objects));
  }

  /** With a limit of at least the number of stored UIDs, a transitive relation returns everything
      reachable at any distance. */
  lemma DeepEnough(base: Base, s: Spot, objects: seq<Obj>, maxDepth: int, ws: seq<Obj>)
    requires UniqueUids(objects) && maxDepth >= 1 && maxDepth >= |UidSet(objects)|
    requires ws != [] && IsWalk(base, objects, s.obj, ws)
    ensures Finds(base, s, objects, maxDepth, End(s.obj, ws))
  {
    hide Finds, UniqueUids, NoRepeats, Uids, IsWalk;
    var c := Shorten(base, objects, s.obj, ws);
    ChainBound(base, objects, s.obj, c);
    assert WithinReach(base, objects, s.obj, maxDepth, End(s.obj, ws));
    ClosureExact(base, s, objects, maxDepth, End(s.obj, ws));
  }

  /** Every row that is not a direct child has its predecessor's row in the result, at the path it extends. */
  lemma PrefixClosed(base: Base, s: Spot, objects: seq<Obj>, maxDepth: int, row: CteRow) returns (before: CteRow)
    requires maxDepth >= 1 && row in RowsBelow(base, s, objects, maxDepth) && row.depth > 1
    ensures before in RowsBelow(base, s, objects, maxDepth)
    ensures row.spot.path == before.spot.path + Segment(row.spot.obj) && row.depth == before.depth + 1
    ensures row.visited == before.visited + [row.spot.obj.uid]
  {
    hide RowsBelow, IsChain, Segment, RowOf, Uids;
    RowsAreChains(base, s, objects, maxDepth, row);
    var k: nat :| 1 <= k <= maxDepth && IsRow(base, objects, s, k, row);
    var c :| c != [] && IsChain(base, objects, s.obj, c) && |c| == k && row == RowOf(s, c);
    ChainRow(base, objects, s, c);
    before := OneShorter(base, objects, s, c);
    assert IsRowFrom(base, objects, s, 1, maxDepth, before) by { assert IsRow(base, objects, s, k - 1, before); }
    RowsAreChains(base, s, objects, maxDepth, before);
  }

  lemma OneShorter(base: Base, objects: seq<Obj>, s: Spot, c: seq<Obj>) returns (before: CteRow)
    requires IsChain(base, objects, s.obj, c) && |c| > 1
    ensures IsRow(base, objects, s, |c| - 1, before) && RowOf(s, c) == Extended(before, c[|c| - 1])
  {
    hide IsChain, Segment, RowOf, Uids;
    ChainInit(base, objects, s, c);
    var init := c[..|c| - 1];
    before := RowOf(s, init);
    RowExtends(s, init, c[|c| - 1]);
  }
}
