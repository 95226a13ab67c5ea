module Options {
  datatype Option<+T> = None | Some(value: T)
}

/** The rows of the `objects` and `resource_types` tables. */
module Objects {
  import opened Options

  datatype Json =
    | JNull
    | JBool(b: bool)
    | JNumber(n: int)
    | JString(s: string)
    | JArray(items: seq<Json>)
    | JObject(fields: map<string, Json>)

  /** One element of the `kuery.io/relates-to` annotation; absent members are None. */
  datatype LinkRef = LinkRef(
    cluster: Option<string>, group: Option<string>, kind: Option<string>,
    namespace: Option<string>, name: Option<string>)

  /** A name that a spec field of an object mentions, with the kind that field points at. */
  datatype SpecRef = SpecRef(targetKind: string, name: string)

  datatype Condition = Condition(kind: string, status: Option<string>, reason: Option<string>)

  /** A stored object. Columns holding JSON lists and maps are kept in decoded form. */
  datatype Obj = Obj(
    id: string, uid: string, cluster: string, apiGroup: string, apiVersion: string,
    kind: string, resource: string, namespace: string, name: string,
    labels: map<string, string>, ownerUids: seq<string>,
    relatesTo: seq<LinkRef>, specRefs: seq<SpecRef>,
    conditions: seq<Condition>, createdAt: Option<int>, doc: Json)

  datatype ResourceType = ResourceType(
    cluster: string, apiGroup: string, kind: string, resource: string, singular: string,
    shortNames: seq<string>, categories: seq<string>)

  datatype Database = Database(objects: seq<Obj>, resourceTypes: seq<ResourceType>)
}

/** The query specification a client submits. */
module Spec {
  import opened Options

  /** A sparse projection: true, false, a nested map, or any other (truthy) value. */
  datatype Projection = Include | Exclude | Fields(fields: map<string, Projection>) | Other

  datatype GroupKind = GroupKind(apiGroup: string, kind: string)

  datatype LabelOp = In | NotIn | Exists | DoesNotExist | UnknownOp

  datatype LabelExpression = LabelExpression(key: string, op: LabelOp, values: seq<string>)

  datatype ConditionFilter = ConditionFilter(kind: string, status: string, reason: string)

  /** Empty strings, maps and lists mean that a criterion is not given. */
  datatype ObjectFilter = ObjectFilter(
    groupKind: Option<GroupKind>, name: string, namespace: string,
    labels: map<string, string>, labelExpressions: seq<LabelExpression>,
    conditions: seq<ConditionFilter>, after: Option<int>, before: Option<int>,
    id: string, categories: seq<string>)

  datatype ObjectsSpec = ObjectsSpec(
    wantId: bool, wantCluster: bool, wantMutablePath: bool,
    projection: Option<Projection>, relations: map<string, RelationSpec>)

  datatype RelationSpec = RelationSpec(
    limit: int, filters: seq<ObjectFilter>, objects: Option<ObjectsSpec>)

  datatype Direction = Unset | Asc | Desc | OtherDirection

  datatype OrderSpec = OrderSpec(field: string, direction: Direction)

  /** What the client sent as a page token: nothing, text that does not decode, or the key values it carries. */
  datatype Cursor = NoCursor | Undecodable | Values(values: map<string, string>)

  datatype PageSpec = PageSpec(first: int, cursor: Cursor)

  datatype QuerySpec = QuerySpec(
    clusterName: string, clusterLabels: map<string, string>,
    filters: seq<ObjectFilter>, limit: int, page: Option<PageSpec>, order: seq<OrderSpec>,
    wantCount: bool, wantCursor: bool, maxDepth: int, objects: Option<ObjectsSpec>)
}
