/** Which response shape the nodes of an answer are presented with, in particular in transitive blocks. */
module Presentation {
  import opened Options
  import opened Text
  import opened Objects
  import opened Spec
  import opened Assembly
  import opened Forest
  import opened Reassembly

  /** One step down an answer: the relation, and the position among its results. */
  datatype Hop = Hop(rel: string, index: nat)

  function Follow(r: ObjectResult, hops: seq<Hop>): Option<ObjectResult>
    decreases |hops|
  {
    if hops == [] then Some(r)
    else if hops[0].rel in r.relations && hops[0].index < |r.relations[hops[0].rel]|
    then Follow(r.relations[hops[0].rel][hops[0].index], hops[1..])
    else None
  }

  /** The same steps down the forest, among the kept kids in the order of their segments. */
  ghost function PlaceDown(p: Place, hops: seq<Hop>): Option<Place>
    decreases |hops|
  {
    if hops == [] then Some(p)
    else
      var kids := SortBySegment(KeptUnder(p.tree.kids, hops[0].rel));
      if hops[0].index < |kids| then PlaceDown(Place(PathAt(p), kids[hops[0].index]), hops[1..]) else None
  }

  /** The shape that the lookup by relation name arrives at. */
  function ShapeDown(shape: Option<ObjectsSpec>, hops: seq<Hop>): Option<ObjectsSpec>
    decreases |hops|
  {
    if hops == [] then shape else ShapeDown(RelationShape(shape, hops[0].rel), hops[1..])
  }

  lemma PresentKeeps(row: Row, shape: Option<ObjectsSpec>, m: map<string, seq<ObjectResult>>)
    ensures Present(row, shape, m).relations == m
  {
  }

  lemma FollowOnce(p: Place, shape: Option<ObjectsSpec>, h: Hop)
    ensures var kids, r := SortBySegment(KeptUnder(p.tree.kids, h.rel)), Render(p, shape);
      && (h.rel in r.relations && h.index < |r.relations[h.rel]| <==> h.index < |kids|)
      && (h.index < |kids|
          ==> r.relations[h.rel][h.index] == Render(Place(PathAt(p), kids[h.index]), RelationShape(shape, h.rel)))
  {
    hide SortBySegment, KeptUnder, Present;
    var kids, r := SortBySegment(KeptUnder(p.tree.kids, h.rel)), Render(p, shape);
    PresentKeeps(RowAt(p), shape, RenderRelations(p, shape));
    assert h.rel in r.relations ==> r.relations[h.rel] == RenderKids(p, h.rel, shape);
    if h.index < |kids| {
      assert kids[h.index] in kids;
      assert h.rel in KeptRels(p.tree.kids);
    }
  }

  lemma {:induction false} FollowDown(p: Place, shape: Option<ObjectsSpec>, h: Hop, rest: seq<Hop>)
    ensures var kids := SortBySegment(KeptUnder(p.tree.kids, h.rel));
      Follow(Render(p, shape), [h] + rest)
      == if h.index < |kids| then Follow(Render(Place(PathAt(p), kids[h.index]), RelationShape(shape, h.rel)), rest)
         else None
  {
    hide SortBySegment, KeptUnder, Render, RelationShape;
    FollowOnce(p, shape, h);
    assert ([h] + rest)[1..] == rest;
  }

  ghost function Shown(q: Option<Place>, shape: Option<ObjectsSpec>): Option<ObjectResult> {
    match q
    case None => None
    case Some(place) => Some(Render(place, shape))
  }

  /** Some steps down, an answer holds what is at that place of the forest, shown with the shape that the
      lookup by relation name arrives at. */
  lemma {:induction false} FollowShape(p: Place, shape: Option<ObjectsSpec>, hops: seq<Hop>)
    ensures Follow(Render(p, shape), hops) == Shown(PlaceDown(p, hops), ShapeDown(shape, hops))
    decreases |hops|
  {
    hide SortBySegment, KeptUnder, Render, RelationShape;
    if hops != [] {
      hide Follow;
      var h, rest := hops[0], hops[1..];
      assert hops == [h] + rest;
      FollowDown(p, shape, h, rest);
      var kids := SortBySegment(KeptUnder(p.tree.kids, h.rel));
      if h.index < |kids| {
        FollowShape(Place(PathAt(p), kids[h.index]), RelationShape(shape, h.rel), rest);
      }
    }
  }

  lemma ShapeOneDown(shape: Option<ObjectsSpec>, h: Hop)
    ensures ShapeDown(shape, [h]) == RelationShape(shape, h.rel)
  {
    assert [h][1..] == [];
  }

  /** Along one relation name, as the walk of a transitive block goes: a result one step down is shown with
      the block's shape, but one two steps down with the shape that the block's shape lists under that name. */
  lemma {:induction false} TransitiveShown(p: Place, shape: ObjectsSpec, name: string, x: nat, y: nat)
    requires name in shape.relations
    ensures var r, block := Render(p, Some(shape)), shape.relations[name].objects;
      && Follow(r, [Hop(name, x)]) == Shown(PlaceDown(p, [Hop(name, x)]), block)
      && Follow(r, [Hop(name, x), Hop(name, y)])
         == Shown(PlaceDown(p, [Hop(name, x), Hop(name, y)]), RelationShape(block, name))
  {
    hide Render, Follow, PlaceDown, Shown;
    FollowShape(p, Some(shape), [Hop(name, x)]);
    var two := [Hop(name, x), Hop(name, y)];
    FollowShape(p, Some(shape), two);
    ShapeOneDown(Some(shape), Hop(name, x));
    ShapeOneDown(shape.relations[name].objects, Hop(name, y));
    assert two[1..] == [Hop(name, y)];
  }

  // ----- results without fields -----

  predicate Bare(r: ObjectResult) {
    r.id == "" && r.cluster == "" && r.mutablePath == ""
  }

  lemma {:induction false} NothingListed(hops: seq<Hop>)
    ensures ShapeDown(None, hops) == None
  {
    if hops != [] {
      NothingListed(hops[1..]);
    }
  }

  /** Unless the block's shape lists the relation again, every result two steps down, and everything at any
      depth below it, shows neither id nor cluster nor mutable path, whatever the block asks for. */
  lemma {:induction false} DeepResultsAreBare(p: Place, shape: ObjectsSpec, name: string, x: nat, y: nat,
                                              rest: seq<Hop>)
    requires name in shape.relations && RelationShape(shape.relations[name].objects, name) == None
    ensures var r := Follow(Render(p, Some(shape)), [Hop(name, x), Hop(name, y)] + rest); r.Some? ==> Bare(r.value)
  {
    hide Follow, PlaceDown, RenderRelations;
    var hops := [Hop(name, x), Hop(name, y)] + rest;
    FollowShape(p, Some(shape), hops);
    assert hops[1..] == [Hop(name, y)] + rest && ([Hop(name, y)] + rest)[1..] == rest;
    NothingListed(rest);
  }

  /** A result shows the object at its place: id, cluster and mutable path if the shape asks for them, and
      the projected document. */
  ghost predicate ShowsPlace(r: ObjectResult, q: Place, shape: Option<ObjectsSpec>) {
    && r.id == (if shape.Some? && shape.value.wantId then q.tree.obj.id else "")
    && r.cluster == (if shape.Some? && shape.value.wantCluster then q.tree.obj.cluster else "")
    && r.mutablePath == (if shape.Some? && shape.value.wantMutablePath then MutablePath(q.tree.obj) else "")
    && r.document == q.tree.projected
  }

  /** At any depth of an answer a result shows the object at its place, with the shape found for it. */
  lemma {:induction false} ResultsShow(p: Place, shape: Option<ObjectsSpec>, hops: seq<Hop>, q: Place)
    requires PlaceDown(p, hops) == Some(q)
    ensures var r := Follow(Render(p, shape), hops); r.Some? && ShowsPlace(r.value, q, ShapeDown(shape, hops))
  {
    hide PlaceDown, Follow, RenderRelations, MutablePath;
    FollowShape(p, shape, hops);
  }

  /** One step down a result shows the fields that the block asks for. */
  lemma {:induction false} FirstResultsShow(p: Place, shape: ObjectsSpec, block: ObjectsSpec, name: string, x: nat,
                                            q: Place)
    requires name in shape.relations && shape.relations[name].objects == Some(block)
    requires PlaceDown(p, [Hop(name, x)]) == Some(q)
    ensures var r := Follow(Render(p, Some(shape)), [Hop(name, x)]);
      && r.Some? && r.value.id == (if block.wantId then q.tree.obj.id else "")
      && r.value.cluster == (if block.wantCluster then q.tree.obj.cluster else "")
      && r.value.mutablePath == (if block.wantMutablePath then MutablePath(q.tree.obj) else "")
      && r.value.document == q.tree.projected
  {
    hide PlaceDown, Follow, Render, MutablePath;
    ResultsShow(p, Some(shape), [Hop(name, x)], q);
    ShapeOneDown(Some(shape), Hop(name, x));
  }

  // ----- the mutable path -----

  /** No field that goes into a mutable path has a slash. */
  predicate PathFields(o: Obj) {
    && Free(o.apiGroup, '/') && Free(o.apiVersion, '/') && Free(o.namespace, '/') && Free(o.resource, '/')
    && Free(o.name, '/')
  }

  /** The parts of an object's path on its API server. */
  function PathParts(o: Obj): seq<string> {
    ["", if o.apiGroup == "" then "api" else "apis"] + (if o.apiGroup == "" then [] else [o.apiGroup])
    + [o.apiVersion] + (if o.namespace == "" then [] else ["namespaces", o.namespace]) + [o.resource, o.name]
  }

  lemma OnePart(path: string, part: string)
    requires Free(part, '/')
    ensures Split(path + "/" + part, '/') == Split(path, '/') + [part]
  {
    hide Split;
    SplitConcat(path, part, '/');
    SplitFree(part, '/');
  }

  lemma PrefixParts(o: Obj)
    requires PathFields(o)
    ensures o.apiGroup == "" ==> Split("/api/" + o.apiVersion, '/') == ["", "api", o.apiVersion]
    ensures o.apiGroup != ""
            ==> Split("/apis/" + o.apiGroup + "/" + o.apiVersion, '/') == ["", "apis", o.apiGroup, o.apiVersion]
  {
    hide Split;
    SplitFree("", '/');
    OnePart("", "api");
    OnePart("", "apis");
    assert "" + "/" + "api" == "/api" && "" + "/" + "apis" == "/apis";
    assert "/api" + "/" + o.apiVersion == "/api/" + o.apiVersion;
    assert "/apis" + "/" + o.apiGroup == "/apis/" + o.apiGroup;
    OnePart("/api", o.apiVersion);
    OnePart("/apis", o.apiGroup);
    OnePart("/apis/" + o.apiGroup, o.apiVersion);
  }

  /** Split at its slashes, the mutable path has exactly these parts. */
  lemma MutablePathSplits(o: Obj)
    requires PathFields(o)
    ensures Split(MutablePath(o), '/') == PathParts(o)
  {
    hide Split;
    PrefixParts(o);
    var prefix := if o.apiGroup == "" then "/api/" + o.apiVersion else "/apis/" + o.apiGroup + "/" + o.apiVersion;
    if o.namespace != "" {
      OnePart(prefix, "namespaces");
      OnePart(prefix + "/" + "namespaces", o.namespace);
      var scoped := prefix + "/" + "namespaces" + "/" + o.namespace;
      assert scoped == prefix + "/namespaces/" + o.namespace;
      OnePart(scoped, o.resource);
      OnePart(scoped + "/" + o.resource, o.name);
    } else {
      OnePart(prefix, o.resource);
      OnePart(prefix + "/" + o.resource, o.name);
    }
  }

  /** Two objects with one mutable path agree in group, version, namespace, resource and name. */
  lemma MutablePathTells(a: Obj, b: Obj)
    requires PathFields(a) && PathFields(b) && MutablePath(a) == MutablePath(b)
    ensures a.apiGroup == b.apiGroup && a.apiVersion == b.apiVersion && a.namespace == b.namespace
            && a.resource == b.resource && a.name == b.name
  {
    hide MutablePath;
    MutablePathSplits(a);
    MutablePathSplits(b);
    var x, y := PathParts(a), PathParts(b);
    assert x[1] == y[1] && |x| == |y| && x[|x| - 1] == y[|y| - 1] && x[|x| - 2] == y[|y| - 2] && x[2] == y[2];
    if a.apiGroup != "" {
      assert x[3] == y[3];
      if a.namespace != "" {
        assert x[5] == y[5];
      }
    } else if a.namespace != "" {
      assert x[4] == y[4];
    }
  }
}
