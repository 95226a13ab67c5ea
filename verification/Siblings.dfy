/** When all objects of an answer have their own paths, and what happens when two share one. */
module Siblings {
  import opened Options
  import opened Text
  import opened Objects
  import opened Spec
  import opened Paths
  import opened Relations
  import opened Assembly
  import opened Forest
  import opened Reassembly
  import opened Generator
  import opened Meaning
  import opened Closure
  import opened Truncation

  // ----- a shared path -----

  /** Paths leave out cluster and API group, so two objects can share one. Of rows in path order that do,
      whatever belongs below either object hangs from the later one. */
  lemma LaterTwinTakesAll(rows: seq<Row>, a: nat, b: nat, k: nat)
    requires InPathOrder(rows) && Pathed(rows) && a < b < |rows| && rows[a].path == rows[b].path
    requires k < |rows| && rows[k].level != 0 && ParentPath(rows[k].path) == rows[a].path
    ensures Owner(rows, k).Some? && b <= Owner(rows, k).value < k
  {
    hide ParentPath, Less;
    ParentSortsFirst(rows[k].path);
    LessIrreflexive(rows[k].path);
    assert b < k;
  }

  // ----- segments without dots -----

  predicate Continues(r: string) {
    r == "" || r[0] == '.'
  }

  lemma RestDotFree(o: Obj)
    requires DotFree(o)
    ensures Free(Lower(o.kind), '.') && Free(o.namespace + "/" + o.name, '.')
  {
    LowerKeepsDots(o.kind);
    var rest := o.namespace + "/" + o.name;
    assert forall c :: c in rest <==> c in o.namespace || c in "/" || c in o.name;
  }

  lemma ThreeParts(kind: string, rest: string)
    requires Free(kind, '.') && Free(rest, '.')
    ensures Split("." + kind + "." + rest, '.') == ["", kind, rest]
  {
    hide Split;
    SplitFree("", '.');
    SplitFree(kind, '.');
    SplitFree(rest, '.');
    SplitConcat("", kind, '.');
    SplitConcat("." + kind, rest, '.');
    assert "" + "." + kind == "." + kind;
  }

  lemma SegmentSplits(o: Obj, r: string)
    requires DotFree(o) && Continues(r)
    ensures |Split(Segment(o) + r, '.')| >= 3
    ensures Split(Segment(o) + r, '.')[..3] == ["", Lower(o.kind), o.namespace + "/" + o.name]
  {
    hide Split, Lower, DotFree;
    RestDotFree(o);
    ThreeParts(Lower(o.kind), o.namespace + "/" + o.name);
    SegmentRegroups(o);
    hide Segment;
    if r != "" {
      SplitConcat(Segment(o), r[1..], '.');
      assert Segment(o) + r == Segment(o) + "." + r[1..];
    } else {
      assert Segment(o) + r == Segment(o);
    }
  }

  /** Of what begins with a dot-free object's segment and goes on with a dot, the segment can be read off. */
  lemma SegmentReadOff(a: Obj, b: Obj, r: string, s: string)
    requires DotFree(a) && DotFree(b) && Continues(r) && Continues(s) && Segment(a) + r == Segment(b) + s
    ensures Segment(a) == Segment(b)
  {
    hide Split;
    SegmentSplits(a, r);
    SegmentSplits(b, s);
    var x := ["", Lower(a.kind), a.namespace + "/" + a.name];
    var y := ["", Lower(b.kind), b.namespace + "/" + b.name];
    assert x[1] == y[1] && x[2] == y[2];
    SegmentRegroups(a);
    SegmentRegroups(b);
  }

  lemma SegmentRegroups(o: Obj)
    ensures Segment(o) == "." + Lower(o.kind) + "." + (o.namespace + "/" + o.name)
  {
  }

  // ----- siblings -----

  /** No two siblings, at the top or below any object, have the same segment. */
  ghost predicate SiblingsApart(ts: seq<Tree>)
    decreases ts
  {
    ts != [] ==> NewSegment(ts[0], ts[1..]) && SiblingsApart(ts[0].kids) && SiblingsApart(ts[1..])
  }

  ghost predicate AllDotFree(ts: seq<Tree>)
    decreases ts
  {
    ts != [] ==> DotFree(ts[0].obj) && AllDotFree(ts[0].kids) && AllDotFree(ts[1..])
  }

  /** A place is below a top of the forest, and its path goes on from there. */
  ghost predicate Under(p: Place, under: string, t: Tree) {
    exists r :: Continues(r) && PathAt(p) == under + (Segment(t.obj) + r)
  }

  lemma {:induction false} PathOfTop(p: Place, under: string, ts: seq<Tree>)
    requires p in Places(under, ts)
    ensures exists t :: t in ts && Under(p, under, t)
    decreases ts
  {
    hide Segment;
    var here := Place(under, ts[0]);
    if p == here {
      assert Continues("") && PathAt(p) == under + (Segment(ts[0].obj) + "");
      assert Under(p, under, ts[0]);
    } else if p in Places(PathAt(here), ts[0].kids) {
      PathOfTop(p, PathAt(here), ts[0].kids);
      var u :| u in ts[0].kids && Under(p, PathAt(here), u);
      var r :| Continues(r) && PathAt(p) == PathAt(here) + (Segment(u.obj) + r);
      SegmentContinues(u.obj, r);
      Regrouped(under, Segment(ts[0].obj), Segment(u.obj) + r);
      assert Under(p, under, ts[0]);
    } else {
      PathOfTop(p, under, ts[1..]);
    }
  }

  lemma SegmentContinues(o: Obj, r: string)
    ensures Continues(Segment(o) + r)
  {
  }

  lemma {:induction false} TopsDotFree(ts: seq<Tree>, t: Tree)
    requires AllDotFree(ts) && t in ts
    ensures DotFree(t.obj)
  {
    if t != ts[0] {
      TopsDotFree(ts[1..], t);
    }
  }

  ghost predicate Apart(a: seq<Place>, b: seq<Place>) {
    forall p, q :: p in a && q in b ==> PathAt(p) != PathAt(q)
  }

  lemma DistinctConcat(a: seq<Place>, b: seq<Place>)
    ensures DistinctPaths(a + b) <==> DistinctPaths(a) && DistinctPaths(b) && Apart(a, b)
  {
    hide PathAt;
    var s := a + b;
    if DistinctPaths(s) {
      assert forall i :: 0 <= i < |a| ==> s[i] == a[i];
      assert forall i :: 0 <= i < |b| ==> s[|a| + i] == b[i];
      forall p, q | p in a && q in b
        ensures PathAt(p) != PathAt(q)
      {
        var i :| 0 <= i < |a| && a[i] == p;
        var j :| 0 <= j < |b| && b[j] == q;
        assert s[i] == p && s[|a| + j] == q;
      }
    }
  }

  /** Places below `t` and places below siblings with other segments have different paths. */
  lemma OtherTopsApart(under: string, t: Tree, rest: seq<Tree>, p: Place, q: Place)
    requires DotFree(t.obj) && AllDotFree(rest) && NewSegment(t, rest)
    requires Under(p, under, t) && q in Places(under, rest)
    ensures PathAt(p) != PathAt(q)
  {
    hide Segment, PathAt, Places, DotFree, Continues;
    PathOfTop(q, under, rest);
    var u :| u in rest && Under(q, under, u);
    TopsDotFree(rest, u);
    var r :| Continues(r) && PathAt(p) == under + (Segment(t.obj) + r);
    var s :| Continues(s) && PathAt(q) == under + (Segment(u.obj) + s);
    if PathAt(p) == PathAt(q) {
      SamePrefix(under, Segment(t.obj) + r, Segment(u.obj) + s);
      SegmentReadOff(t.obj, u.obj, r, s);
    }
  }

  lemma SamePrefix(p: string, a: string, b: string)
    requires p + a == p + b
    ensures a == b
  {
    assert (p + a)[|p|..] == a && (p + b)[|p|..] == b;
  }

  lemma BelowTop(here: Place, p: Place)
    requires p in Places(PathAt(here), here.tree.kids)
    ensures Under(p, here.under, here.tree) && PathAt(p) != PathAt(here)
  {
    hide Segment, Places;
    PathOfTop(p, PathAt(here), here.tree.kids);
    var u :| u in here.tree.kids && Under(p, PathAt(here), u);
    var r :| Continues(r) && PathAt(p) == PathAt(here) + (Segment(u.obj) + r);
    SegmentContinues(u.obj, r);
    Regrouped(here.under, Segment(here.tree.obj), Segment(u.obj) + r);
    assert |PathAt(p)| > |PathAt(here)|;
  }

  lemma TopUnder(here: Place)
    ensures Under(here, here.under, here.tree)
  {
    hide Segment;
    assert Continues("") && PathAt(here) == here.under + (Segment(here.tree.obj) + "");
  }

  /** Splitting a forest at its first tree. */
  lemma FirstTreeDistinct(under: string, t: Tree, rest: seq<Tree>)
    requires DotFree(t.obj) && AllDotFree(rest)
    ensures DistinctPaths(Places(under, [t] + rest))
       <==> && NewSegment(t, rest) && DistinctPaths(Places(under + Segment(t.obj), t.kids))
            && DistinctPaths(Places(under, rest))
  {
    hide DistinctPaths, Segment, DotFree, AllDotFree;
    var here := Place(under, t);
    var below, others := Places(PathAt(here), t.kids), Places(under, rest);
    assert ([t] + rest)[1..] == rest;
    assert Places(under, [t] + rest) == ([here] + below) + others;
    hide Places, Under;
    DistinctConcat([here], below);
    DistinctConcat([here] + below, others);
    OneDistinct(here);
    forall p | p in [here] + below
      ensures Under(p, under, t) && (p in below ==> PathAt(p) != PathAt(here))
    {
      TopUnder(here);
      if p in below {
        BelowTop(here, p);
      }
    }
    if NewSegment(t, rest) {
      forall p, q | p in [here] + below && q in others
        ensures PathAt(p) != PathAt(q)
      {
        OtherTopsApart(under, t, rest, p, q);
      }
    } else {
      var u :| u in rest && Segment(u.obj) == Segment(t.obj);
      TopPlaces(under, rest, u);
      assert here in [here] + below && PathAt(here) == PathAt(Place(under, u));
    }
  }

  lemma OneDistinct(p: Place)
    ensures DistinctPaths([p])
  {
  }

  /** Where no kind, namespace or name has a dot: all paths are different exactly if siblings always are. */
  lemma {:induction false} DistinctIff(under: string, ts: seq<Tree>)
    requires AllDotFree(ts)
    ensures DistinctPaths(Places(under, ts)) <==> SiblingsApart(ts)
    decreases ts
  {
    if ts != [] {
      hide DistinctPaths, Places, NewSegment, DotFree;
      var t, rest := ts[0], ts[1..];
      assert ts == [t] + rest;
      FirstTreeDistinct(under, t, rest);
      DistinctIff(under + Segment(t.obj), t.kids);
      DistinctIff(under, rest);
    }
  }

  // ----- on stored data -----

  /** Stored objects have their own segments: one cluster, and no kind in two API groups. */
  ghost predicate UniqueSegments(objects: seq<Obj>) {
    forall a, b :: a in objects && b in objects && Segment(a) == Segment(b) ==> a == b
  }

  /** Everything that the blocks of a shape find for `o`, block after block. */
  function FoundFor(w: World, o: Obj, shape: ObjectsSpec, names: seq<string>): seq<Obj>
    requires forall k :: k in names ==> k in shape.relations
  {
    if names == [] then []
    else Matches(JoinFor(BaseRelation(names[0]), shape.relations[names[0]].filters), o, w.objects)
         + FoundFor(w, o, shape, names[1..])
  }

  /** For no stored object do the blocks of the shape find another object twice, and so on below. */
  ghost predicate FindsOnce(w: World, shape: Option<ObjectsSpec>)
    decreases shape
  {
    shape.Some? ==>
      && (forall o :: o in w.objects ==> NoRepeats(FoundFor(w, o, shape.value, Sorted(shape.value.relations.Keys))))
      && (forall k :: k in shape.value.relations ==> FindsOnce(w, shape.value.relations[k].objects))
  }

  function Objs(ts: seq<Tree>): (xs: seq<Obj>)
    ensures |xs| == |ts| && forall i :: 0 <= i < |ts| ==> xs[i] == ts[i].obj
  {
    if ts == [] then [] else [ts[0].obj] + Objs(ts[1..])
  }

  lemma ObjsConcat(a: seq<Tree>, b: seq<Tree>)
    ensures Objs(a + b) == Objs(a) + Objs(b)
  {
  }

  /** `t` is what one of the blocks finds: a stored object, with everything its own shape asks for. */
  ghost predicate FoundTree(w: World, shape: ObjectsSpec, level: nat, t: Tree) {
    exists k :: k in shape.relations && t.obj in w.objects
      && t.kids == Beneath(w, t.obj, shape.relations[k].objects, level + 1)
  }

  lemma {:induction false} JoinTreesFound(w: World, xs: seq<Obj>, name: string, shape: ObjectsSpec, level: nat)
    requires name in shape.relations && forall x :: x in xs ==> x in w.objects
    ensures Objs(JoinTrees(w, xs, name, shape.relations[name], level)) == xs
    ensures forall t :: t in JoinTrees(w, xs, name, shape.relations[name], level) ==> FoundTree(w, shape, level, t)
  {
    hide Beneath, BlockClauses;
    if xs != [] {
      JoinTreesFound(w, xs[1..], name, shape, level);
      var t := JoinTree(w, xs[0], name, shape.relations[name], level);
      assert FoundTree(w, shape, level, t);
      assert JoinTrees(w, xs, name, shape.relations[name], level)
          == [t] + JoinTrees(w, xs[1..], name, shape.relations[name], level);
    }
  }

  lemma {:induction false} NamedFound(w: World, o: Obj, shape: ObjectsSpec, names: seq<string>, level: nat)
    requires forall k :: k in names ==> k in shape.relations && !IsTransitive(k)
    ensures forall t :: t in BeneathNamed(w, o, shape, names, level) ==> FoundTree(w, shape, level, t)
    ensures level <= w.maxDepth ==> Objs(BeneathNamed(w, o, shape, names, level)) == FoundFor(w, o, shape, names)
    ensures level > w.maxDepth ==> BeneathNamed(w, o, shape, names, level) == []
  {
    if names != [] {
      hide FoundTree, JoinTrees, Matches, IsTransitive, JoinFor;
      var name, spec := names[0], shape.relations[names[0]];
      var xs := Matches(JoinFor(BaseRelation(name), spec.filters), o, w.objects);
      NamedFound(w, o, shape, names[1..], level);
      forall x | x in xs
        ensures x in w.objects
      {
        MatchesExact(JoinFor(BaseRelation(name), spec.filters), o, w.objects, x);
      }
      JoinTreesFound(w, xs, name, shape, level);
      ObjsConcat(Related(w, o, name, spec, level), BeneathNamed(w, o, shape, names[1..], level));
    }
  }

  lemma {:induction false} NewByObjects(w: World, ts: seq<Tree>)
    requires UniqueSegments(w.objects) && ts != [] && NoRepeats(Objs(ts)) && forall t :: t in ts ==> t.obj in w.objects
    ensures NewSegment(ts[0], ts[1..])
  {
    hide Segment, Objs;
    var t, rest := ts[0], ts[1..];
    forall u | u in rest
      ensures Segment(u.obj) != Segment(t.obj)
    {
      var i :| 0 <= i < |rest| && rest[i] == u;
      assert Objs(ts)[0] == t.obj && Objs(ts)[i + 1] == u.obj;
    }
  }

  lemma {:induction false} ApartByObjects(w: World, ts: seq<Tree>)
    requires UniqueSegments(w.objects) && NoRepeats(Objs(ts))
    requires forall t :: t in ts ==> t.obj in w.objects && SiblingsApart(t.kids)
    ensures SiblingsApart(ts)
  {
    if ts != [] {
      hide UniqueSegments, Objs;
      NewByObjects(w, ts);
      assert Objs(ts[1..]) == Objs(ts)[1..];
      ApartByObjects(w, ts[1..]);
    }
  }

  lemma {:induction false} DotFreeByObjects(w: World, ts: seq<Tree>)
    requires forall o :: o in w.objects ==> DotFree(o)
    requires forall t :: t in ts ==> t.obj in w.objects && AllDotFree(t.kids)
    ensures AllDotFree(ts)
  {
    if ts != [] {
      DotFreeByObjects(w, ts[1..]);
    }
  }

  lemma {:induction false} BeneathApart(w: World, o: Obj, shape: Option<ObjectsSpec>, level: nat)
    requires UniqueSegments(w.objects) && FindsOnce(w, shape) && NoTransitive(shape) && o in w.objects
    requires forall x :: x in w.objects ==> DotFree(x)
    ensures SiblingsApart(Beneath(w, o, shape, level)) && AllDotFree(Beneath(w, o, shape, level))
    decreases shape
  {
    if shape.Some? {
      hide UniqueSegments, DotFree, BeneathNamed, FoundFor, IsTransitive;
      var names := Sorted(shape.value.relations.Keys);
      var ts := Beneath(w, o, shape, level);
      NamedFound(w, o, shape.value, names, level);
      forall t | t in ts
        ensures t.obj in w.objects && SiblingsApart(t.kids) && AllDotFree(t.kids)
      {
        assert FoundTree(w, shape.value, level, t);
        var k :| k in shape.value.relations && t.obj in w.objects
          && t.kids == Beneath(w, t.obj, shape.value.relations[k].objects, level + 1);
        BeneathApart(w, t.obj, shape.value.relations[k].objects, level + 1);
      }
      ApartByObjects(w, ts);
      DotFreeByObjects(w, ts);
    }
  }

  lemma {:induction false} AnswerTrees(w: World, roots: seq<Obj>, shape: Option<ObjectsSpec>)
    ensures Objs(Answer(w, roots, shape)) == roots
    ensures forall t :: t in Answer(w, roots, shape) ==> t.obj in roots && t.kids == Beneath(w, t.obj, shape, 1)
  {
    hide Beneath;
    if roots != [] {
      AnswerTrees(w, roots[1..], shape);
    }
  }

  lemma DotFreePlaces(under: string, ts: seq<Tree>, p: Place, q: Place)
    requires AllDotFree(ts) && p in Places(under, ts) && KidOf(p, q)
    ensures DotFree(q.tree.obj)
  {
    hide DotFree;
    KidsArePlaces(under, ts, p, q);
    PlaceDotFree(under, ts, q);
  }

  lemma {:induction false} PlaceDotFree(under: string, ts: seq<Tree>, p: Place)
    requires AllDotFree(ts) && p in Places(under, ts)
    ensures DotFree(p.tree.obj)
    decreases ts
  {
    hide DotFree;
    var here := Place(under, ts[0]);
    if p == here {
    } else if p in Places(PathAt(here), ts[0].kids) {
      PlaceDotFree(PathAt(here), ts[0].kids, p);
    } else {
      PlaceDotFree(under, ts[1..], p);
    }
  }

  /** A condition on the stored data for what the end-to-end theorem asks of paths: no kind, namespace or
      name has a dot, segments are unique, roots are stored and listed once, and no relation finds an object
      twice below another. */
  lemma PathsUsableOnData(w: World, roots: seq<Obj>, shape: Option<ObjectsSpec>)
    requires UniqueSegments(w.objects) && (forall x :: x in w.objects ==> DotFree(x))
    requires NoRepeats(roots) && (forall x :: x in roots ==> x in w.objects)
    requires NoTransitive(shape) && FindsOnce(w, shape)
    ensures DistinctPaths(Places("", Answer(w, roots, shape))) && DotFreeBelow(Answer(w, roots, shape))
  {
    hide UniqueSegments, DotFree, Beneath, FindsOnce, NoTransitive, SiblingsApart, AllDotFree, DistinctPaths, Places;
    var ts := Answer(w, roots, shape);
    AnswerTrees(w, roots, shape);
    forall t | t in ts
      ensures t.obj in w.objects && SiblingsApart(t.kids) && AllDotFree(t.kids)
    {
      BeneathApart(w, t.obj, shape, 1);
    }
    ApartByObjects(w, ts);
    DotFreeByObjects(w, ts);
    DistinctIff("", ts);
    forall p, q | p in Places("", ts) && KidOf(p, q)
      ensures DotFree(q.tree.obj)
    {
      DotFreePlaces("", ts, p, q);
    }
  }
}
