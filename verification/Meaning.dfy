/** What a relation spec asks for, by plain recursion: below each object, each relation's
    objects, and below those their relations in turn, down to the depth limit. */
module Meaning {
  import opened Options
  import opened Text
  import opened Objects
  import opened Spec
  import opened Relations
  import opened Filters
  import opened Projections
  import opened Forest
  import opened Plans
  import opened Generator

  /** The stored data a query sees, and its depth limit. */
  datatype World = World(objects: seq<Obj>, cat: Catalog, maxDepth: int)

  /** Everything below `o` that the shape asks for. */
  ghost function Beneath(w: World, o: Obj, shape: Option<ObjectsSpec>, level: nat): seq<Tree>
    decreases shape, 1, 0
  {
    if shape.None? then [] else BeneathNamed(w, o, shape.value, Sorted(shape.value.relations.Keys), level)
  }

  ghost function BeneathNamed(w: World, o: Obj, shape: ObjectsSpec, names: seq<string>, level: nat): seq<Tree>
    requires forall k :: k in names ==> k in shape.relations
    decreases shape, 1, |names|
  {
    if names == [] then []
    else Related(w, o, names[0], shape.relations[names[0]], level) + BeneathNamed(w, o, shape, names[1..], level)
  }

  /** The objects that one relation block finds for `o`, each with everything below it. */
  ghost function Related(w: World, o: Obj, name: string, spec: RelationSpec, level: nat): seq<Tree>
    decreases spec, 2, 0
  {
    if level > w.maxDepth then []
    else if !IsTransitive(name) then
      JoinTrees(w, Matches(JoinFor(BaseRelation(name), spec.filters), o, w.objects), name, spec, level)
    else if BaseOf(BaseRelation(name)).None? then []
    else
      var base := BaseOf(BaseRelation(name)).value;
      WalkTrees(w, base, name, spec, level, Followers(base, o, w.objects), [], 1)
  }

  ghost function JoinTrees(w: World, xs: seq<Obj>, name: string, spec: RelationSpec, level: nat): seq<Tree>
    decreases spec, 1, |xs|
  {
    if xs == [] then []
    else [JoinTree(w, xs[0], name, spec, level)] + JoinTrees(w, xs[1..], name, spec, level)
  }

  ghost function JoinTree(w: World, x: Obj, name: string, spec: RelationSpec, level: nat): Tree
    decreases spec, 0, 0
  {
    Node(x, Projected(ShapeProjection(spec.objects), x), name, level,
         Accepts(BlockClauses(name, spec), x, w.cat), Beneath(w, x, spec.objects, level + 1))
  }

  /** Walks along a transitive relation: each of `xs` not yet visited, and onward from there while
      the depth allows. Every object carries the attached sub-relations of the block. */
  ghost function WalkTrees(w: World, base: Base, name: string, spec: RelationSpec, level: nat,
                           xs: seq<Obj>, visited: seq<string>, depth: int): seq<Tree>
    decreases if depth <= w.maxDepth then w.maxDepth - depth + 1 else 0, |xs|
  {
    if xs == [] then []
    else
      (if xs[0].uid !in visited
       then [WalkTree(w, base, name, spec, level, xs[0], visited + [xs[0].uid], depth)] else [])
      + WalkTrees(w, base, name, spec, level, xs[1..], visited, depth)
  }

  ghost function WalkTree(w: World, base: Base, name: string, spec: RelationSpec, level: nat,
                          x: Obj, visited: seq<string>, depth: int): Tree
    decreases if depth <= w.maxDepth then w.maxDepth - depth + 1 else 0, 0
  {
    var onward := if depth < w.maxDepth
                  then WalkTrees(w, base, name, spec, level, Followers(base, x, w.objects), visited, depth + 1) else [];
    Node(x, Projected(ShapeProjection(spec.objects), x), name, level, true,
         onward + Subs(w, x, spec.objects, level + 1))
  }

  /** The non-transitive sub-relations of a transitive block, one level deep. */
  ghost function Subs(w: World, x: Obj, shape: Option<ObjectsSpec>, level: nat): seq<Tree> {
    if shape.None? then [] else SubsNamed(w, x, shape.value, Sorted(shape.value.relations.Keys), level)
  }

  ghost function SubsNamed(w: World, x: Obj, shape: ObjectsSpec, names: seq<string>, level: nat): seq<Tree>
    requires forall k :: k in names ==> k in shape.relations
  {
    if names == [] then []
    else
      (if IsTransitive(names[0]) then []
       else SubTrees(w, Matches(JoinFor(BaseRelation(names[0]), shape.relations[names[0]].filters), x, w.objects),
                     names[0], shape.relations[names[0]], level))
      + SubsNamed(w, x, shape, names[1..], level)
  }

  ghost function SubTrees(w: World, ys: seq<Obj>, name: string, spec: RelationSpec, level: nat): seq<Tree> {
    if ys == [] then []
    else
      [Node(ys[0], Projected(ShapeProjection(spec.objects), ys[0]), name, level,
            Accepts(BlockClauses(name, spec), ys[0], w.cat), [])]
      + SubTrees(w, ys[1..], name, spec, level)
  }

  /** The roots with everything below them. */
  ghost function Answer(w: World, roots: seq<Obj>, shape: Option<ObjectsSpec>): seq<Tree> {
    if roots == [] then []
    else
      [Node(roots[0], Projected(ShapeProjection(shape), roots[0]), "", 0, true, Beneath(w, roots[0], shape, 1))]
      + Answer(w, roots[1..], shape)
  }
}
