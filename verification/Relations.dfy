/** JSON access and the join conditions of the relation types. */
module Relations {
  import opened Options
  import opened Text
  import opened Objects
  import opened Spec

  // ----- JSON -----

  /** The value reached by descending through the given keys. */
  function Lookup(j: Json, keys: seq<string>): Option<Json> {
    if keys == [] then Some(j)
    else if j.JObject? && keys[0] in j.fields then Lookup(j.fields[keys[0]], keys[1..])
    else None
  }

  /** What SQLite finds at a path: nothing, a value, or an error. */
  datatype Extraction = Missing | Found(value: Json) | BadPath

  /** SQLite descends part by part; an empty part is a syntax error, found when it is reached. (Older
      versions find it only below an object, which makes no difference to what is stated here.) */
  function SqliteLookup(j: Json, parts: seq<string>): Extraction {
    if parts == [] then Found(j)
    else if parts[0] == "" then BadPath
    else if j.JObject? && parts[0] in j.fields then SqliteLookup(j.fields[parts[0]], parts[1..])
    else Missing
  }

  /** SQLite `json_extract(j, '$.' || path)`: every dot in the path is a step down. */
  function Extracted(j: Json, path: string): Extraction {
    SqliteLookup(j, Split(path, '.'))
  }

  /** No part of the path is empty. */
  predicate NoEmptyPart(path: string) {
    "" !in Split(path, '.')
  }

  lemma {:induction false} ReadsLikeLookup(j: Json, parts: seq<string>)
    requires "" !in parts
    ensures SqliteLookup(j, parts) == if Lookup(j, parts).Some? then Found(Lookup(j, parts).value) else Missing
  {
    if parts != [] {
      assert parts[0] in parts;
      if j.JObject? && parts[0] in j.fields {
        ReadsLikeLookup(j.fields[parts[0]], parts[1..]);
      }
    }
  }

  function LabelsJson(labels: map<string, string>): Json {
    JObject(map k | k in labels :: JString(labels[k]))
  }

  /** A label read the way the SQLite queries read it. */
  function ExtractLabel(labels: map<string, string>, key: string): Option<string> {
    match Extracted(LabelsJson(labels), key)
    case Found(JString(s)) => Some(s)
    case _ => None
  }

  /** Reading the label raises an error. */
  predicate LabelRaises(labels: map<string, string>, key: string) {
    Extracted(LabelsJson(labels), key) == BadPath
  }

  predicate PlainKey(key: string) {
    key != "" && Free(key, '.')
  }

  /** Reading a label by path finds the label exactly when its key is not empty and has no dot; a dotted
      key reads as absent whatever the labels are. */
  lemma ExtractLabelMeaning(labels: map<string, string>, key: string)
    ensures ExtractLabel(labels, key) == if PlainKey(key) && key in labels then Some(labels[key]) else None
  {
    var parts := Split(key, '.');
    if Free(key, '.') {
      SplitFree(key, '.');
      if key in labels {
        assert SqliteLookup(JString(labels[key]), parts[1..]) == Found(JString(labels[key]));
      }
    } else {
      if |parts| == 1 {
        SplitLengthOne(key, '.');
      }
      assert parts[1..] != [];
      assert parts[0] in labels ==> !SqliteLookup(JString(labels[parts[0]]), parts[1..]).Found?;
    }
  }

  /** A key without empty part never raises; the empty key always does. */
  lemma WhenLabelRaises(labels: map<string, string>, key: string)
    ensures NoEmptyPart(key) ==> !LabelRaises(labels, key)
    ensures LabelRaises(labels, "")
  {
    if NoEmptyPart(key) {
      ReadsLikeLookup(LabelsJson(labels), Split(key, '.'));
    }
  }

  lemma PlainKeyReadable(key: string)
    requires PlainKey(key)
    ensures NoEmptyPart(key)
  {
    SplitFree(key, '.');
  }

  /** Reading the key raises nothing and finds the label if it is there. */
  predicate ReadsRight(labels: map<string, string>, key: string) {
    !LabelRaises(labels, key) && ExtractLabel(labels, key) == if key in labels then Some(labels[key]) else None
  }

  /** Reading a key is right on all labels exactly when the key is not empty and has no dot. */
  lemma LabelsReadableIff(key: string)
    ensures PlainKey(key) <==> forall labels :: ReadsRight(labels, key)
  {
    hide ExtractLabel, LabelRaises;
    if PlainKey(key) {
      PlainKeyReadable(key);
      forall labels
        ensures ReadsRight(labels, key)
      {
        ExtractLabelMeaning(labels, key);
        WhenLabelRaises(labels, key);
      }
    } else {
      var one := map[key := ""];
      ExtractLabelMeaning(one, key);
      assert !ReadsRight(one, key);
    }
  }

  // ----- selectors -----

  function Selector(o: Obj): Option<map<string, Json>> {
    match Lookup(o.doc, ["spec", "selector", "matchLabels"])
    case Some(JObject(m)) => Some(m)
    case _ => None
  }

  /** SQL truth values. */
  datatype Truth = True | False | Unknown

  function Or3(a: Truth, b: Truth): Truth {
    if a == True || b == True then True else if a == False && b == False then False else Unknown
  }

  function And3(a: Truth, b: Truth): Truth {
    if a == False || b == False then False else if a == True && b == True then True else Unknown
  }

  function Known(b: bool): Truth { if b then True else False }

  /** `x != v` for a text value (or NULL) and a JSON value; a JSON null reads as NULL. */
  function NotEqual3(x: Option<string>, v: Json): Truth {
    if x.None? || v == JNull then Unknown else Known(v != JString(x.value))
  }

  /** The row test inside the SQLite NOT EXISTS: this selector entry is not met. */
  function Unmet(labels: map<string, string>, key: string, v: Json): Truth {
    var x := ExtractLabel(labels, key);
    Or3(Known(x.None?), NotEqual3(x, v))
  }

  /** The SQLite encoding of "the labels match the selector". */
  predicate SqliteSelects(sel: map<string, Json>, labels: map<string, string>) {
    !exists k :: k in sel && Unmet(labels, k, sel[k]) == True
  }

  /** The Postgres encoding: the labels contain the selector. */
  predicate Contains(labels: map<string, string>, sel: map<string, Json>) {
    forall k :: k in sel ==> k in labels && sel[k] == JString(labels[k])
  }

  ghost predicate StringValued(sel: map<string, Json>) {
    forall k :: k in sel ==> sel[k].JString?
  }

  /** Testing the selector can raise an error: one of its keys does. */
  ghost predicate SelectorRaises(sel: map<string, Json>, labels: map<string, string>) {
    exists k :: k in sel && LabelRaises(labels, k)
  }

  /** For selectors with text values the SQLite encoding holds, and cannot raise, exactly when the labels
      contain the selector and every selector key is non-empty and has no dot; with an empty key it can
      always raise. */
  lemma SqliteSelectsExact(sel: map<string, Json>, labels: map<string, string>)
    requires StringValued(sel)
    ensures SqliteSelects(sel, labels) && !SelectorRaises(sel, labels)
            <==> Contains(labels, sel) && forall k :: k in sel ==> PlainKey(k)
    ensures "" in sel ==> SelectorRaises(sel, labels)
  {
    hide LabelRaises, ExtractLabel;
    forall k | k in sel
      ensures Unmet(labels, k, sel[k]) != True <==> PlainKey(k) && k in labels && sel[k] == JString(labels[k])
      ensures PlainKey(k) ==> !LabelRaises(labels, k)
    {
      ExtractLabelMeaning(labels, k);
      WhenLabelRaises(labels, k);
      if PlainKey(k) {
        PlainKeyReadable(k);
      }
    }
    WhenLabelRaises(labels, "");
  }

  /** No stored selector has a key that could raise. */
  ghost predicate SelectorsReadable(objects: seq<Obj>) {
    forall o :: o in objects && Selector(o).Some? ==> forall k :: k in Selector(o).value ==> NoEmptyPart(k)
  }

  /** Then no selector test raises, whatever it is tested on. */
  lemma ReadableSelectorsNeverRaise(objects: seq<Obj>, holder: Obj, labels: map<string, string>)
    requires SelectorsReadable(objects) && holder in objects && Selector(holder).Some?
    ensures !SelectorRaises(Selector(holder).value, labels)
  {
    hide LabelRaises, NoEmptyPart, Selector;
    forall k | k in Selector(holder).value
      ensures !LabelRaises(labels, k)
    {
      WhenLabelRaises(labels, k);
    }
  }

  // ----- joins -----

  /** What a relation joins on. `References` carries the kinds its filters name. */
  datatype JoinKind =
    | Descendants | Owners | References(kinds: seq<string>) | Selects | SelectedBy
    | Events | Linked | Grouped | Never

  const GROUP_LABEL := "kuery.io/group"

  /** The kinds that the filters of a relation block name. */
  function TargetKinds(filters: seq<ObjectFilter>): seq<string> {
    if filters == [] then []
    else
      var f := filters[0];
      (if f.groupKind.Some? && f.groupKind.value.kind != "" then [f.groupKind.value.kind] else [])
      + TargetKinds(filters[1..])
  }

  function JoinFor(relation: string, filters: seq<ObjectFilter>): JoinKind {
    match relation
    case "descendants" => Descendants
    case "owners" => Owners
    case "references" => References(TargetKinds(filters))
    case "selects" => Selects
    case "selected-by" => SelectedBy
    case "events" => Events
    case "linked" => Linked
    case "grouped" => Grouped
    case _ => Never
  }

  predicate SameScope(p: Obj, c: Obj) {
    c.cluster == p.cluster && c.namespace == p.namespace
  }

  /** The join of `selects`: the parent holds a selector, and the child's labels match it. */
  predicate SelectsChild(p: Obj, c: Obj) {
    && c.cluster == p.cluster && c.namespace == p.namespace
    && Selector(p).Some?
    && c.id != p.id
    && SqliteSelects(Selector(p).value, c.labels)
  }

  /** The join of `selected-by`: the child holds a selector, and the parent's labels match it. */
  predicate SelectedByChild(p: Obj, c: Obj) {
    && c.cluster == p.cluster && c.namespace == p.namespace
    && Selector(c).Some?
    && c.id != p.id
    && SqliteSelects(Selector(c).value, p.labels)
  }

  function InvolvedUid(o: Obj): Option<string> {
    match Lookup(o.doc, ["involvedObject", "uid"])
    case Some(JString(s)) => Some(s)
    case _ => None
  }

  predicate RefersTo(p: Obj, name: string, kinds: seq<string>) {
    exists i :: 0 <= i < |p.specRefs| && p.specRefs[i].name == name
      && (kinds == [] || exists k :: 0 <= k < |kinds| && Lower(kinds[k]) == Lower(p.specRefs[i].targetKind))
  }

  /** The join condition between a parent and a child object. */
  predicate On(j: JoinKind, p: Obj, c: Obj) {
    match j
    case Descendants => c.cluster == p.cluster && p.uid in c.ownerUids
    case Owners => c.cluster == p.cluster && c.uid in p.ownerUids
    case References(kinds) => SameScope(p, c) && RefersTo(p, c.name, kinds)
    case Selects => SelectsChild(p, c)
    case SelectedBy => SelectedByChild(p, c)
    case Events => c.cluster == p.cluster && c.kind == "Event" && InvolvedUid(c) == Some(p.uid)
    case Grouped =>
      && GROUP_LABEL in p.labels && GROUP_LABEL in c.labels
      && c.labels[GROUP_LABEL] == p.labels[GROUP_LABEL] && c.id != p.id
    case Linked => exists i :: 0 <= i < |p.relatesTo| && PointsAt(p, p.relatesTo[i], c)
    case Never => false
  }

  /** One annotation element names the child; an absent cluster means the parent's own, an
      absent group or namespace the empty one. */
  predicate PointsAt(p: Obj, r: LinkRef, c: Obj) {
    && c.cluster == (if r.cluster.Some? then r.cluster.value else p.cluster)
    && c.apiGroup == (if r.group.Some? then r.group.value else "")
    && r.kind == Some(c.kind)
    && c.namespace == (if r.namespace.Some? then r.namespace.value else "")
    && r.name == Some(c.name)
  }

  function Where(j: JoinKind, p: Obj, objects: seq<Obj>): seq<Obj> {
    if objects == [] then []
    else (if On(j, p, objects[0]) then [objects[0]] else []) + Where(j, p, objects[1..])
  }

  function Pointed(p: Obj, r: LinkRef, objects: seq<Obj>): seq<Obj> {
    if objects == [] then []
    else (if PointsAt(p, r, objects[0]) then [objects[0]] else []) + Pointed(p, r, objects[1..])
  }

  function PointedBy(p: Obj, refs: seq<LinkRef>, objects: seq<Obj>): seq<Obj> {
    if refs == [] then [] else Pointed(p, refs[0], objects) + PointedBy(p, refs[1..], objects)
  }

  /** The children a join adds to one parent row. A linked join yields a child once per
      annotation element that names it; every other join yields it once. */
  function Matches(j: JoinKind, p: Obj, objects: seq<Obj>): seq<Obj> {
    if j == Linked then PointedBy(p, p.relatesTo, objects) else Where(j, p, objects)
  }

  lemma {:induction false} WhereMembers(j: JoinKind, p: Obj, objects: seq<Obj>, c: Obj)
    ensures c in Where(j, p, objects) <==> c in objects && On(j, p, c)
  {
    if objects != [] {
      WhereMembers(j, p, objects[1..], c);
      assert c in objects <==> c == objects[0] || c in objects[1..];
    }
  }

  lemma {:induction false} PointedMembers(p: Obj, r: LinkRef, objects: seq<Obj>, c: Obj)
    ensures c in Pointed(p, r, objects) <==> c in objects && PointsAt(p, r, c)
  {
    if objects != [] {
      PointedMembers(p, r, objects[1..], c);
      assert c in objects <==> c == objects[0] || c in objects[1..];
    }
  }

  lemma {:induction false} PointedByMembers(p: Obj, refs: seq<LinkRef>, objects: seq<Obj>, c: Obj)
    ensures c in PointedBy(p, refs, objects)
       <==> c in objects && exists i :: 0 <= i < |refs| && PointsAt(p, refs[i], c)
  {
    if refs != [] {
      PointedMembers(p, refs[0], objects, c);
      PointedByMembers(p, refs[1..], objects, c);
      if i :| 0 <= i < |refs| && PointsAt(p, refs[i], c) {
        assert i == 0 || refs[1..][i - 1] == refs[i];
      }
      if i :| 0 <= i < |refs[1..]| && PointsAt(p, refs[1..][i], c) {
        assert refs[i + 1] == refs[1..][i];
      }
    }
  }

  /** A join finds exactly the stored objects that satisfy its condition. */
  lemma MatchesExact(j: JoinKind, p: Obj, objects: seq<Obj>, c: Obj)
    ensures c in Matches(j, p, objects) <==> c in objects && On(j, p, c)
  {
    if j == Linked {
      PointedByMembers(p, p.relatesTo, objects, c);
    } else {
      WhereMembers(j, p, objects, c);
    }
  }

  /** The relation that answers the opposite question. */
  function Converse(j: JoinKind): Option<JoinKind> {
    match j
    case Descendants => Some(Owners)
    case Owners => Some(Descendants)
    case Selects => Some(SelectedBy)
    case SelectedBy => Some(Selects)
    case Grouped => Some(Grouped)
    case _ => None
  }

  /** Descendants and owners, selects and selected-by, and grouped with itself are exact
      converses over every set of stored objects. */
  lemma ConversesAgree(j: JoinKind, a: Obj, b: Obj, objects: seq<Obj>)
    requires Converse(j).Some? && a in objects && b in objects
    ensures b in Matches(j, a, objects) <==> a in Matches(Converse(j).value, b, objects)
  {
    MatchesExact(j, a, objects, b);
    MatchesExact(Converse(j).value, b, objects, a);
  }

  /** Grouping chains together: two objects grouped with a third are grouped or the same. */
  lemma GroupedTransitive(a: Obj, b: Obj, c: Obj)
    requires On(Grouped, a, b) && On(Grouped, b, c)
    ensures a.id == c.id || On(Grouped, a, c)
  {
  }
}
