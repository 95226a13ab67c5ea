/** Rebuilding the nested answer from flat rows. `AssembleTree` works on mutable nodes; the
    functions here say, by row index, which row hangs from which and what answer results. */
module Assembly {
  import opened Options
  import opened Objects
  import opened Spec
  import opened Paths

  datatype Row = Row(obj: Obj, projected: Json, path: string, level: nat, rel: string)

  /** `document` is JNull when the answer carries no object. */
  datatype ObjectResult = ObjectResult(
    id: string, cluster: string, mutablePath: string, document: Json,
    relations: map<string, seq<ObjectResult>>)

  /** The REST path of an object. */
  function MutablePath(o: Obj): string {
    var prefix := if o.apiGroup == "" then "/api/" + o.apiVersion
                  else "/apis/" + o.apiGroup + "/" + o.apiVersion;
    if o.namespace != "" then prefix + "/namespaces/" + o.namespace + "/" + o.resource + "/" + o.name
    else prefix + "/" + o.resource + "/" + o.name
  }

  /** The response shape of a named relation below `parent`. */
  function RelationShape(parent: Option<ObjectsSpec>, rel: string): Option<ObjectsSpec> {
    if parent.Some? && rel in parent.value.relations then parent.value.relations[rel].objects else None
  }

  /** One answer node: the fields the shape asks for, and the given related answers. */
  function Presented(o: Obj, projected: Json, shape: Option<ObjectsSpec>,
                     relations: map<string, seq<ObjectResult>>): ObjectResult {
    ObjectResult(
      if shape.Some? && shape.value.wantId then o.id else "",
      if shape.Some? && shape.value.wantCluster then o.cluster else "",
      if shape.Some? && shape.value.wantMutablePath then MutablePath(o) else "",
      projected,
      relations)
  }

  function Present(row: Row, shape: Option<ObjectsSpec>, relations: map<string, seq<ObjectResult>>): ObjectResult {
    Presented(row.obj, row.projected, shape, relations)
  }

  // ----- which row hangs from which -----

  /** The last of the first `n` rows that has the given path. */
  function LastAt(rows: seq<Row>, n: nat, path: string): (r: Option<nat>)
    requires n <= |rows|
    ensures r.Some? ==> r.value < n && rows[r.value].path == path
    ensures r.Some? ==> forall k :: r.value < k < n ==> rows[k].path != path
    ensures r.None? ==> forall k :: 0 <= k < n ==> rows[k].path != path
  {
    if n == 0 then None
    else if rows[n - 1].path == path then Some(n - 1)
    else LastAt(rows, n - 1, path)
  }

  /** The row that row `j` hangs from: the latest row so far at its parent path. */
  function Owner(rows: seq<Row>, j: nat): Option<nat>
    requires j < |rows|
  {
    if rows[j].level == 0 then None else LastAt(rows, j + 1, ParentPath(rows[j].path))
  }

  /** The rows below the root level have a path. An empty one would be its own parent. */
  ghost predicate Pathed(rows: seq<Row>) {
    forall j :: 0 <= j < |rows| && rows[j].level != 0 ==> rows[j].path != ""
  }

  predicate IsKid(rows: seq<Row>, i: nat, rel: string, j: nat)
    requires j < |rows|
  {
    Owner(rows, j) == Some(i) && rows[j].rel == rel
  }

  /** The rows among the first `n` that hang from row `i` under `rel`, in row order. */
  function Kids(rows: seq<Row>, n: nat, i: nat, rel: string): (ks: seq<nat>)
    requires n <= |rows|
    ensures Below(ks, n)
  {
    if n == 0 then []
    else if IsKid(rows, i, rel, n - 1) then Kids(rows, n - 1, i, rel) + [n - 1]
    else Kids(rows, n - 1, i, rel)
  }

  predicate Below(ks: seq<nat>, n: nat) {
    forall x :: 0 <= x < |ks| ==> ks[x] < n
  }

  predicate Increasing(ks: seq<nat>) {
    forall x, y :: 0 <= x < y < |ks| ==> ks[x] < ks[y]
  }

  /** `Kids` lists exactly the rows that hang from `i` under `rel`, each once, in row order. */
  lemma {:induction false} KidsExact(rows: seq<Row>, n: nat, i: nat, rel: string)
    requires n <= |rows|
    ensures Increasing(Kids(rows, n, i, rel))
    ensures forall j :: 0 <= j < n ==> (IsKid(rows, i, rel, j) <==> j in Kids(rows, n, i, rel))
  {
    if n > 0 {
      KidsExact(rows, n - 1, i, rel);
      var fewer := Kids(rows, n - 1, i, rel);
      assert forall j :: j in fewer + [n - 1] <==> j in fewer || j == n - 1;
    }
  }

  function KidRels(rows: seq<Row>, i: nat): set<string> {
    set j | 0 <= j < |rows| && Owner(rows, j) == Some(i) :: rows[j].rel
  }

  /** No row hangs from itself or from a later row, so following owners ends. */
  lemma OwnersComeFirst(rows: seq<Row>, j: nat)
    requires Pathed(rows) && j < |rows| && Owner(rows, j).Some?
    ensures Owner(rows, j).value < j
  {
  }

  predicate IsRoot(rows: seq<Row>, j: nat)
    requires j < |rows|
  {
    rows[j].level == 0
  }

  function Roots(rows: seq<Row>, n: nat): (rs: seq<nat>)
    requires n <= |rows|
    ensures Below(rs, n)
  {
    if n == 0 then []
    else if IsRoot(rows, n - 1) then Roots(rows, n - 1) + [n - 1]
    else Roots(rows, n - 1)
  }

  lemma {:induction false} RootsExact(rows: seq<Row>, n: nat)
    requires n <= |rows|
    ensures Increasing(Roots(rows, n))
    ensures forall j :: 0 <= j < n ==> (IsRoot(rows, j) <==> j in Roots(rows, n))
  {
    if n > 0 {
      RootsExact(rows, n - 1);
      var fewer := Roots(rows, n - 1);
      assert forall j :: j in fewer + [n - 1] <==> j in fewer || j == n - 1;
    }
  }

  // ----- the answer -----

  ghost function ResultAt(rows: seq<Row>, i: nat, shape: Option<ObjectsSpec>): ObjectResult
    requires Pathed(rows) && i < |rows|
    decreases |rows| - i, 0
  {
    Present(rows[i], shape, RelationsAt(rows, i, shape))
  }

  ghost function RelationsAt(rows: seq<Row>, i: nat, shape: Option<ObjectsSpec>): (m: map<string, seq<ObjectResult>>)
    requires Pathed(rows) && i < |rows|
    ensures m.Keys == KidRels(rows, i)
    decreases |rows| - i - 1, 3
  {
    map rel | rel in KidRels(rows, i) :: KidResults(rows, i, rel, shape)
  }

  lemma RelationsAgree(rows: seq<Row>, i: nat, shape: Option<ObjectsSpec>, m: map<string, seq<ObjectResult>>)
    requires Pathed(rows) && i < |rows|
    requires m.Keys == KidRels(rows, i)
    requires forall rel :: rel in m ==> m[rel] == KidResults(rows, i, rel, shape)
    ensures m == RelationsAt(rows, i, shape)
  {
    var other := RelationsAt(rows, i, shape);
    assert forall rel :: rel in m ==> m[rel] == other[rel];
  }

  ghost function KidResults(rows: seq<Row>, i: nat, rel: string, shape: Option<ObjectsSpec>): seq<ObjectResult>
    requires Pathed(rows) && i < |rows|
    decreases |rows| - i - 1, 2
  {
    KidsComeLater(rows, i, rel);
    ResultsAt(rows, Kids(rows, |rows|, i, rel), RelationShape(shape, rel), i + 1)
  }

  /** The answers of the listed rows, all of which are at `lo` or later. */
  ghost function ResultsAt(rows: seq<Row>, ks: seq<nat>, shape: Option<ObjectsSpec>, lo: nat): (rs: seq<ObjectResult>)
    requires Listing(rows, ks, lo)
    ensures |rs| == |ks|
    decreases |rows| - lo, 1, |ks|
  {
    if ks == [] then []
    else
      var last := |ks| - 1;
      ResultsAt(rows, ks[..last], shape, lo) + [ResultAt(rows, ks[last], shape)]
  }

  lemma {:induction false} ResultsIndex(rows: seq<Row>, ks: seq<nat>, shape: Option<ObjectsSpec>, lo: nat, x: nat)
    requires Listing(rows, ks, lo) && x < |ks|
    ensures ResultsAt(rows, ks, shape, lo)[x] == ResultAt(rows, ks[x], shape)
    decreases |ks|
  {
    hide ResultAt;
    var last := |ks| - 1;
    if x < last {
      ResultsIndex(rows, ks[..last], shape, lo, x);
    }
  }

  predicate AtLeast(ks: seq<nat>, lo: nat) {
    forall x :: 0 <= x < |ks| ==> lo <= ks[x]
  }

  /** `ks` are indices of rows at `lo` or later. */
  ghost predicate Listing(rows: seq<Row>, ks: seq<nat>, lo: nat) {
    Pathed(rows) && Below(ks, |rows|) && AtLeast(ks, lo) && lo <= |rows|
  }

  lemma KidsComeLater(rows: seq<Row>, i: nat, rel: string)
    requires Pathed(rows) && i < |rows|
    ensures Listing(rows, Kids(rows, |rows|, i, rel), i + 1)
  {
    var ks := Kids(rows, |rows|, i, rel);
    KidsExact(rows, |rows|, i, rel);
    forall x | 0 <= x < |ks|
      ensures i + 1 <= ks[x]
    {
      assert IsKid(rows, i, rel, ks[x]);
      OwnersComeFirst(rows, ks[x]);
    }
  }

  ghost function Assembled(rows: seq<Row>, shape: Option<ObjectsSpec>): seq<ObjectResult>
    requires Pathed(rows)
  {
    ResultsAt(rows, Roots(rows, |rows|), shape, 0)
  }

  // ----- assembly on the heap -----

  class TreeNode {
    const row: Row
    var children: map<string, seq<TreeNode>>

    constructor (row: Row)
      ensures this.row == row && children == map[]
    {
      this.row := row;
      children := map[];
    }
  }

  /** `nodes[i]` carries row `i`. */
  ghost predicate Numbered(nodes: seq<TreeNode>, rows: seq<Row>) {
    && |nodes| <= |rows|
    && (forall i :: 0 <= i < |nodes| ==> nodes[i].row == rows[i])
    && (forall i, j :: 0 <= i < j < |nodes| ==> nodes[i] != nodes[j])
  }

  ghost function Pick(nodes: seq<TreeNode>, ks: seq<nat>): seq<TreeNode>
    requires Below(ks, |nodes|)
  {
    seq(|ks|, x requires 0 <= x < |ks| => nodes[ks[x]])
  }

  lemma PickGrow(nodes: seq<TreeNode>, node: TreeNode, ks: seq<nat>)
    requires Below(ks, |nodes|)
    ensures Pick(nodes + [node], ks) == Pick(nodes, ks)
    ensures Pick(nodes + [node], ks + [|nodes|]) == Pick(nodes, ks) + [node]
  {
  }

  /** The list under `rel` is present exactly when row `k` has such kids, and is those nodes. */
  ghost predicate HoldsRel(children: map<string, seq<TreeNode>>, nodes: seq<TreeNode>, rows: seq<Row>, k: nat,
                           rel: string)
    requires |nodes| <= |rows|
  {
    var ks := Kids(rows, |nodes|, k, rel);
    && (rel in children <==> ks != [])
    && (rel in children ==> children[rel] == Pick(nodes, ks))
  }

  /** Node `k` holds exactly its kids among the first `|nodes|` rows. */
  ghost predicate Holds(children: map<string, seq<TreeNode>>, nodes: seq<TreeNode>, rows: seq<Row>, k: nat)
    requires |nodes| <= |rows|
  {
    forall rel :: HoldsRel(children, nodes, rows, k, rel)
  }

  /** All rows have been placed. */
  ghost predicate Built(nodes: seq<TreeNode>, rows: seq<Row>)
    reads nodes
  {
    && Pathed(rows)
    && |nodes| == |rows|
    && Numbered(nodes, rows)
    && (forall k :: 0 <= k < |nodes| ==> Holds(nodes[k].children, nodes, rows, k))
  }

  ghost predicate IndexedAt(byPath: map<string, TreeNode>, nodes: seq<TreeNode>, rows: seq<Row>, p: string)
    requires |nodes| <= |rows|
  {
    var last := LastAt(rows, |nodes|, p);
    (p in byPath <==> last.Some?) && (p in byPath ==> byPath[p] == nodes[last.value])
  }

  /** The path index knows the latest node at each path. */
  ghost predicate Indexed(byPath: map<string, TreeNode>, nodes: seq<TreeNode>, rows: seq<Row>)
    requires |nodes| <= |rows|
  {
    forall p :: IndexedAt(byPath, nodes, rows, p)
  }

  lemma IndexedGrow(byPath: map<string, TreeNode>, nodes: seq<TreeNode>, node: TreeNode, rows: seq<Row>)
    requires |nodes| < |rows| && Indexed(byPath, nodes, rows)
    ensures Indexed(byPath[rows[|nodes|].path := node], nodes + [node], rows)
  {
    var grown, more := byPath[rows[|nodes|].path := node], nodes + [node];
    forall p
      ensures IndexedAt(grown, more, rows, p)
    {
      assert IndexedAt(byPath, nodes, rows, p);
    }
  }

  /** `children` after `node` was appended to the list under `rel`. */
  function Appended(children: map<string, seq<TreeNode>>, rel: string, node: TreeNode): map<string, seq<TreeNode>> {
    children[rel := (if rel in children then children[rel] else []) + [node]]
  }

  lemma HoldsRelGrow(children: map<string, seq<TreeNode>>, nodes: seq<TreeNode>, node: TreeNode, rows: seq<Row>,
                     k: nat, r: string)
    requires |nodes| < |rows| && HoldsRel(children, nodes, rows, k, r)
    ensures !IsKid(rows, k, r, |nodes|) ==> HoldsRel(children, nodes + [node], rows, k, r)
    ensures IsKid(rows, k, r, |nodes|) ==> HoldsRel(Appended(children, r, node), nodes + [node], rows, k, r)
  {
    PickGrow(nodes, node, Kids(rows, |nodes|, k, r));
  }

  /** One more row: only its owner's list under its relation grows, by this row. */
  lemma HoldsGrow(children: map<string, seq<TreeNode>>, nodes: seq<TreeNode>, node: TreeNode, rows: seq<Row>, k: nat)
    requires |nodes| < |rows| && Holds(children, nodes, rows, k)
    ensures Owner(rows, |nodes|) != Some(k) ==> Holds(children, nodes + [node], rows, k)
    ensures Owner(rows, |nodes|) == Some(k) ==>
              Holds(Appended(children, rows[|nodes|].rel, node), nodes + [node], rows, k)
  {
    var n, rel := |nodes|, rows[|nodes|].rel;
    var grown := Appended(children, rel, node);
    forall r
      ensures Owner(rows, n) != Some(k) ==> HoldsRel(children, nodes + [node], rows, k, r)
      ensures Owner(rows, n) == Some(k) ==> HoldsRel(grown, nodes + [node], rows, k, r)
    {
      assert HoldsRel(children, nodes, rows, k, r);
      HoldsRelGrow(children, nodes, node, rows, k, r);
    }
  }

  lemma NewestHasNoKids(rows: seq<Row>, i: nat, rel: string)
    requires Pathed(rows) && i < |rows|
    ensures Kids(rows, i + 1, i, rel) == []
  {
    KidsExact(rows, i + 1, i, rel);
    var ks := Kids(rows, i + 1, i, rel);
    if ks != [] {
      assert IsKid(rows, i, rel, ks[0]);
      OwnersComeFirst(rows, ks[0]);
    }
  }

  lemma NewestHoldsNothing(nodes: seq<TreeNode>, rows: seq<Row>)
    requires Pathed(rows) && 0 < |nodes| <= |rows|
    ensures Holds(map[], nodes, rows, |nodes| - 1)
  {
    var last := |nodes| - 1;
    forall rel
      ensures HoldsRel(map[], nodes, rows, last, rel)
    {
      NewestHasNoKids(rows, last, rel);
    }
  }

  /** `held[k]` is what node `k` holds. */
  ghost predicate AllHold(held: seq<map<string, seq<TreeNode>>>, nodes: seq<TreeNode>, rows: seq<Row>) {
    && |held| == |nodes| <= |rows|
    && (forall k :: 0 <= k < |held| ==> Holds(held[k], nodes, rows, k))
  }

  /** What the nodes hold once the next row's node is placed. */
  ghost function HeldNext(held: seq<map<string, seq<TreeNode>>>, node: TreeNode,
                          rows: seq<Row>): seq<map<string, seq<TreeNode>>>
    requires |held| < |rows| && Pathed(rows)
  {
    var owner := Owner(rows, |held|);
    (if owner.Some? then held[owner.value := Appended(held[owner.value], rows[|held|].rel, node)] else held) + [map[]]
  }

  lemma AllHoldGrow(held: seq<map<string, seq<TreeNode>>>, nodes: seq<TreeNode>, node: TreeNode, rows: seq<Row>)
    requires Pathed(rows) && AllHold(held, nodes, rows) && |nodes| < |rows|
    ensures AllHold(HeldNext(held, node, rows), nodes + [node], rows)
  {
    NewestHoldsNothing(nodes + [node], rows);
    forall k | 0 <= k < |nodes|
      ensures Holds(HeldNext(held, node, rows)[k], nodes + [node], rows, k)
    {
      HoldsGrow(held[k], nodes, node, rows, k);
    }
  }

  method BuildNodes(rows: seq<Row>) returns (rootNodes: seq<TreeNode>, ghost nodes: seq<TreeNode>)
    requires Pathed(rows)
    ensures Built(nodes, rows)
    ensures forall k :: 0 <= k < |nodes| ==> fresh(nodes[k])
    ensures rootNodes == Pick(nodes, Roots(rows, |rows|))
  {
    hide Kids, Holds, ParentPath;
    var byPath: map<string, TreeNode> := map[];
    rootNodes, nodes := [], [];
    ghost var held := [];
    var i := 0;
    while i < |rows|
      invariant 0 <= i <= |rows| && |nodes| == i
      invariant Numbered(nodes, rows)
      invariant forall k :: 0 <= k < i ==> fresh(nodes[k])
      invariant Indexed(byPath, nodes, rows)
      invariant rootNodes == Pick(nodes, Roots(rows, i))
      invariant AllHold(held, nodes, rows)
      invariant forall k :: 0 <= k < i ==> nodes[k].children == held[k]
    {
      var row := rows[i];
      var node := new TreeNode(row);
      IndexedGrow(byPath, nodes, node, rows);
      PickGrow(nodes, node, Roots(rows, i));
      AllHoldGrow(held, nodes, node, rows);
      byPath := byPath[row.path := node];
      nodes := nodes + [node];
      if row.level == 0 {
        rootNodes := rootNodes + [node];
      } else {
        var parentPath := ParentPath(row.path);
        assert IndexedAt(byPath, nodes, rows, parentPath);
        if parentPath in byPath {
          var parent := byPath[parentPath];
          parent.children := Appended(parent.children, row.rel, node);
        }
      }
      held := HeldNext(held, node, rows);
      i := i + 1;
    }
  }

  method AssembleTree(rows: seq<Row>, shape: Option<ObjectsSpec>) returns (results: seq<ObjectResult>)
    requires Pathed(rows)
    ensures results == Assembled(rows, shape)
  {
    if |rows| == 0 {
      return [];
    }
    var rootNodes, nodes := BuildNodes(rows);
    results := NodesToResults(rootNodes, shape, nodes, rows, Roots(rows, |rows|), 0);
  }

  method NodeToResult(node: TreeNode, shape: Option<ObjectsSpec>,
                      ghost nodes: seq<TreeNode>, ghost rows: seq<Row>, ghost i: nat)
    returns (result: ObjectResult)
    requires Built(nodes, rows)
    requires i < |rows| && node == nodes[i]
    ensures result == ResultAt(rows, i, shape)
    decreases |rows| - i, 0
  {
    var relations := ChildRelations(node.children, shape, nodes, rows, i);
    result := Present(node.row, shape, relations);
  }

  method ChildRelations(children: map<string, seq<TreeNode>>, shape: Option<ObjectsSpec>,
                        ghost nodes: seq<TreeNode>, ghost rows: seq<Row>, ghost i: nat)
    returns (relations: map<string, seq<ObjectResult>>)
    requires Built(nodes, rows)
    requires i < |rows| && Holds(children, nodes, rows, i)
    ensures relations == RelationsAt(rows, i, shape)
    decreases |rows| - i - 1, 2
  {
    hide Numbered, Kids, KidRels, Pathed, ResultsAt, RelationShape, RelationsAt;
    relations := map[];
    HeldRels(children, nodes, rows, i);
    var todo := children.Keys;
    while todo != {}
      invariant todo <= children.Keys == KidRels(rows, i) && relations.Keys == children.Keys - todo
      invariant forall rel :: rel in relations ==> relations[rel] == KidResults(rows, i, rel, shape)
      decreases |todo|
    {
      var rel :| rel in todo;
      assert HoldsRel(children, nodes, rows, i, rel);
      KidsComeLater(rows, i, rel);
      var childResults := NodesToResults(children[rel], RelationShape(shape, rel), nodes, rows,
                                         Kids(rows, |rows|, i, rel), i + 1);
      relations := relations[rel := childResults];
      todo := todo - {rel};
    }
    RelationsAgree(rows, i, shape, relations);
  }

  method NodesToResults(children: seq<TreeNode>, shape: Option<ObjectsSpec>,
                        ghost nodes: seq<TreeNode>, ghost rows: seq<Row>, ghost ks: seq<nat>, ghost lo: nat)
    returns (results: seq<ObjectResult>)
    requires Built(nodes, rows)
    requires Listing(rows, ks, lo) && children == Pick(nodes, ks)
    ensures results == ResultsAt(rows, ks, shape, lo)
    decreases |rows| - lo, 1
  {
    results := [];
    var c := 0;
    while c < |children|
      invariant 0 <= c <= |children|
      invariant results == ResultsAt(rows, ks[..c], shape, lo)
    {
      var result := NodeToResult(children[c], shape, nodes, rows, ks[c]);
      results := results + [result];
      assert ks[..c + 1][..c] == ks[..c];
      c := c + 1;
    }
    assert ks[..c] == ks;
  }

  lemma KidRelsExact(rows: seq<Row>, i: nat, rel: string)
    ensures rel in KidRels(rows, i) <==> Kids(rows, |rows|, i, rel) != []
  {
    var ks := Kids(rows, |rows|, i, rel);
    KidsExact(rows, |rows|, i, rel);
    if ks != [] {
      assert IsKid(rows, i, rel, ks[0]);
    }
    if rel in KidRels(rows, i) {
      var j :| 0 <= j < |rows| && Owner(rows, j) == Some(i) && rows[j].rel == rel;
      assert IsKid(rows, i, rel, j);
    }
  }

  lemma HeldRels(children: map<string, seq<TreeNode>>, nodes: seq<TreeNode>, rows: seq<Row>, i: nat)
    requires |nodes| == |rows| && Holds(children, nodes, rows, i)
    ensures children.Keys == KidRels(rows, i)
  {
    forall rel
      ensures rel in children <==> rel in KidRels(rows, i)
    {
      assert HoldsRel(children, nodes, rows, i, rel);
      KidRelsExact(rows, i, rel);
    }
  }
}
