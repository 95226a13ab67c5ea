/** The relation forest behind an answer: every joined object in its place, flattened into
    rows by the database and put back together by assembly. */
module Forest {
  import opened Objects
  import opened Paths
  import opened Assembly

  /** One joined object. `kept` is false when the object was joined but its own row is
      filtered out; objects below it are still joined, and their rows are still produced. */
  datatype Tree = Node(obj: Obj, projected: Json, rel: string, level: nat, kept: bool, kids: seq<Tree>)

  /** A tree together with the path it hangs under. */
  datatype Place = Place(under: string, tree: Tree)

  function PathAt(p: Place): string {
    p.under + Segment(p.tree.obj)
  }

  function RowAt(p: Place): Row {
    Row(p.tree.obj, p.tree.projected, PathAt(p), p.tree.level, p.tree.rel)
  }

  /** Every place in a forest that hangs under `under`. */
  function Places(under: string, ts: seq<Tree>): (ps: seq<Place>)
    decreases ts
  {
    if ts == [] then []
    else
      var here := Place(under, ts[0]);
      [here] + Places(PathAt(here), ts[0].kids) + Places(under, ts[1..])
  }

  function RowsOf(p: Place): seq<Row> {
    if p.tree.kept then [RowAt(p)] else []
  }

  /** The rows of the places that are kept. */
  function Rows(ps: seq<Place>): seq<Row> {
    if ps == [] then [] else RowsOf(ps[0]) + Rows(ps[1..])
  }

  lemma RowsStep(p: Place, ps: seq<Place>)
    ensures Rows([p] + ps) == RowsOf(p) + Rows(ps)
  {
    assert ([p] + ps)[1..] == ps;
  }

  lemma {:induction false} RowsConcat(ps: seq<Place>, qs: seq<Place>)
    ensures Rows(ps + qs) == Rows(ps) + Rows(qs)
  {
    if ps == [] {
      assert ps + qs == qs;
    } else {
      var p, tail := ps[0], ps[1..];
      calc {
        Rows(ps + qs);
        { assert ps + qs == [p] + (tail + qs); RowsStep(p, tail + qs); }
        RowsOf(p) + Rows(tail + qs);
        { RowsConcat(tail, qs); }
        RowsOf(p) + (Rows(tail) + Rows(qs));
        (RowsOf(p) + Rows(tail)) + Rows(qs);
      }
    }
  }

  lemma {:induction false} RowsMembers(ps: seq<Place>, r: Row)
    ensures r in Rows(ps) <==> exists p :: p in ps && p.tree.kept && RowAt(p) == r
  {
    if ps != [] {
      RowsMembers(ps[1..], r);
      assert ps == [ps[0]] + ps[1..];
      if exists p :: p in ps && p.tree.kept && RowAt(p) == r {
        var p :| p in ps && p.tree.kept && RowAt(p) == r;
        assert p == ps[0] || p in ps[1..];
      }
    }
  }

  // ----- parents and kids among places -----

  /** `q` is a kid of `p`. */
  predicate KidOf(p: Place, q: Place) {
    q.under == PathAt(p) && q.tree in p.tree.kids
  }

  lemma {:induction false} TopPlaces(under: string, ts: seq<Tree>, t: Tree)
    requires t in ts
    ensures Place(under, t) in Places(under, ts)
    decreases ts
  {
    if t != ts[0] {
      TopPlaces(under, ts[1..], t);
    }
  }

  /** Each kid of a place is a place. */
  lemma {:induction false} KidsArePlaces(under: string, ts: seq<Tree>, p: Place, q: Place)
    requires p in Places(under, ts) && KidOf(p, q)
    ensures q in Places(under, ts)
    decreases ts
  {
    var here := Place(under, ts[0]);
    if p == here {
      TopPlaces(PathAt(here), ts[0].kids, q.tree);
    } else if p in Places(PathAt(here), ts[0].kids) {
      KidsArePlaces(PathAt(here), ts[0].kids, p, q);
    } else {
      KidsArePlaces(under, ts[1..], p, q);
    }
  }

  /** Each place is at the top or a kid of a place. */
  lemma {:induction false} PlacesHaveParents(under: string, ts: seq<Tree>, q: Place)
    requires q in Places(under, ts)
    ensures (q.under == under && q.tree in ts) || exists p :: p in Places(under, ts) && KidOf(p, q)
    decreases ts
  {
    var here := Place(under, ts[0]);
    if q == here {
    } else if q in Places(PathAt(here), ts[0].kids) {
      PlacesHaveParents(PathAt(here), ts[0].kids, q);
      if q.under == PathAt(here) && q.tree in ts[0].kids {
        assert KidOf(here, q);
      }
    } else {
      PlacesHaveParents(under, ts[1..], q);
    }
  }

  /** No two places have the same path. */
  ghost predicate DistinctPaths(ps: seq<Place>) {
    forall i, j :: 0 <= i < j < |ps| ==> PathAt(ps[i]) != PathAt(ps[j])
  }

  lemma SamePathSamePlace(ps: seq<Place>, p: Place, q: Place)
    requires DistinctPaths(ps) && p in ps && q in ps && PathAt(p) == PathAt(q)
    ensures p == q
  {
    var i :| 0 <= i < |ps| && ps[i] == p;
    var j :| 0 <= j < |ps| && ps[j] == q;
  }

  // ----- forests that a query can produce -----

  /** Roots are at level 0 and kept; everything below is at a later level and has no dot in
      its kind, namespace or name. */
  ghost predicate WellLevelled(ts: seq<Tree>) {
    && (forall t :: t in ts ==> t.level == 0 && t.kept)
    && (forall p, q :: p in Places("", ts) && KidOf(p, q) ==> q.tree.level != 0)
  }

  ghost predicate DotFreeBelow(ts: seq<Tree>) {
    forall p, q :: p in Places("", ts) && KidOf(p, q) ==> DotFree(q.tree.obj)
  }

  lemma PathsStartWithDot(ts: seq<Tree>, p: Place)
    requires p in Places("", ts)
    ensures PathAt(p) != "" && PathAt(p)[0] == '.'
  {
    PlacesUnderDot("", ts, p);
  }

  lemma {:induction false} PlacesUnderDot(under: string, ts: seq<Tree>, p: Place)
    requires p in Places(under, ts) && (under == "" || under[0] == '.')
    ensures PathAt(p) != "" && PathAt(p)[0] == '.'
    decreases ts
  {
    var here := Place(under, ts[0]);
    if p == here {
    } else if p in Places(PathAt(here), ts[0].kids) {
      PlacesUnderDot(PathAt(here), ts[0].kids, p);
    } else {
      PlacesUnderDot(under, ts[1..], p);
    }
  }

  /** The rows that assembly hangs from a place are exactly the rows of its kids. */
  lemma HangingIsKid(ts: seq<Tree>, p: Place, q: Place)
    requires WellLevelled(ts) && DotFreeBelow(ts) && DistinctPaths(Places("", ts))
    requires p in Places("", ts) && q in Places("", ts)
    ensures q.tree.level != 0 && ParentPath(PathAt(q)) == PathAt(p) <==> KidOf(p, q)
  {
    PathsStartWithDot(ts, p);
    if KidOf(p, q) {
      ParentOfChild(PathAt(p), q.tree.obj);
    }
    if q.tree.level != 0 && ParentPath(PathAt(q)) == PathAt(p) {
      PlacesHaveParents("", ts, q);
      var p' :| p' in Places("", ts) && KidOf(p', q);
      PathsStartWithDot(ts, p');
      ParentOfChild(PathAt(p'), q.tree.obj);
      SamePathSamePlace(Places("", ts), p, p');
    }
  }
}
