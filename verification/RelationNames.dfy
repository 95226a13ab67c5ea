/** What each relation name finds, in terms of the stored columns: which objects, how often, and after the
    filters of the block; and what the transitive names reach. */
module RelationNames {
  import opened Options
  import opened Text
  import opened Objects
  import opened Spec
  import opened Paths
  import opened Relations
  import opened Filters
  import opened Projections
  import Assembly
  import opened Plans
  import opened Generator
  import opened Meaning
  import opened Bags
  import opened Closure
  import opened Reachability
  import opened Reference

  // ----- one name at a time -----

  /** A document with the label selector `m` at spec.selector.matchLabels. */
  predicate SelectsBy(doc: Json, m: map<string, Json>) {
    && doc.JObject? && "spec" in doc.fields
    && doc.fields["spec"].JObject? && "selector" in doc.fields["spec"].fields
    && var selector := doc.fields["spec"].fields["selector"];
    && selector.JObject? && "matchLabels" in selector.fields && selector.fields["matchLabels"] == JObject(m)
  }

  /** Every entry of the selector, its key without dots, is among the labels, or its value is null. */
  predicate LabelsMeet(labels: map<string, string>, m: map<string, Json>) {
    forall k :: k in m ==> k != "" && '.' !in k && k in labels && (m[k] == JString(labels[k]) || m[k] == JNull)
  }

  ghost predicate HolderSelects(holder: Obj, target: Obj) {
    && target.cluster == holder.cluster && target.namespace == holder.namespace && target.id != holder.id
    && exists m :: SelectsBy(holder.doc, m) && LabelsMeet(target.labels, m)
  }

  /** The filters name no kind, or one of them names this one, in whatever case. */
  ghost predicate KindAsked(filters: seq<ObjectFilter>, kind: string) {
    || (forall f :: f in filters ==> f.groupKind.None? || f.groupKind.value.kind == "")
    || exists f :: f in filters && f.groupKind.Some? && f.groupKind.value.kind != ""
         && Lower(f.groupKind.value.kind) == Lower(kind)
  }

  ghost predicate MentionsName(p: Obj, filters: seq<ObjectFilter>, name: string) {
    exists r :: r in p.specRefs && r.name == name && KindAsked(filters, r.targetKind)
  }

  /** An element of the relates-to annotation names the object. */
  predicate ElementNames(p: Obj, r: LinkRef, c: Obj) {
    && (r.cluster == Some(c.cluster) || (r.cluster == None && c.cluster == p.cluster))
    && (r.group == Some(c.apiGroup) || (r.group == None && c.apiGroup == ""))
    && r.kind == Some(c.kind) && r.name == Some(c.name)
    && (r.namespace == Some(c.namespace) || (r.namespace == None && c.namespace == ""))
  }

  predicate InvolvesUid(doc: Json, uid: string) {
    && doc.JObject? && "involvedObject" in doc.fields && doc.fields["involvedObject"].JObject?
    && var involved := doc.fields["involvedObject"].fields;
    "uid" in involved && involved["uid"] == JString(uid)
  }

  /** The relation of the given name leads from `p` to `c`; `filters` are those of its block. */
  ghost predicate Relates(name: string, filters: seq<ObjectFilter>, p: Obj, c: Obj) {
    match name
    case "descendants" => c.cluster == p.cluster && p.uid in c.ownerUids
    case "owners" => c.cluster == p.cluster && c.uid in p.ownerUids
    case "references" => c.cluster == p.cluster && c.namespace == p.namespace && MentionsName(p, filters, c.name)
    case "selects" => HolderSelects(p, c)
    case "selected-by" => HolderSelects(c, p)
    case "events" => c.cluster == p.cluster && c.kind == "Event" && InvolvesUid(c.doc, p.uid)
    case "linked" => exists r :: r in p.relatesTo && ElementNames(p, r, c)
    case "grouped" =>
      c.id != p.id && "kuery.io/group" in c.labels && "kuery.io/group" in p.labels
      && c.labels["kuery.io/group"] == p.labels["kuery.io/group"]
    case _ => false
  }

  lemma StepIn(j: Json, key: string, rest: seq<string>)
    ensures Lookup(j, [key] + rest)
         == if j.JObject? && key in j.fields then Lookup(j.fields[key], rest) else None
    ensures Lookup(j, []) == Some(j)
    ensures rest == [] && j.JObject? && key in j.fields ==> Lookup(j, [key] + rest) == Some(j.fields[key])
  {
    assert ([key] + rest)[1..] == rest;
  }

  lemma SelectorIs(o: Obj, m: map<string, Json>)
    ensures SelectsBy(o.doc, m) <==> Selector(o) == Some(m)
  {
    hide Lookup;
    StepIn(o.doc, "spec", ["selector", "matchLabels"]);
    assert ["spec"] + ["selector", "matchLabels"] == ["spec", "selector", "matchLabels"];
    if o.doc.JObject? && "spec" in o.doc.fields {
      var spec := o.doc.fields["spec"];
      StepIn(spec, "selector", ["matchLabels"]);
      assert ["selector"] + ["matchLabels"] == ["selector", "matchLabels"];
      if spec.JObject? && "selector" in spec.fields {
        StepIn(spec.fields["selector"], "matchLabels", []);
        assert ["matchLabels"] + [] == ["matchLabels"];
      }
    }
  }

  lemma EntryMet(labels: map<string, string>, m: map<string, Json>, k: string)
    requires k in m
    ensures Unmet(labels, k, m[k]) != True
       <==> k != "" && '.' !in k && k in labels && (m[k] == JString(labels[k]) || m[k] == JNull)
  {
    hide ExtractLabel;
    ExtractLabelMeaning(labels, k);
  }

  lemma LabelsMeetIff(labels: map<string, string>, m: map<string, Json>)
    ensures SqliteSelects(m, labels) <==> LabelsMeet(labels, m)
  {
    hide Unmet;
    forall k | k in m
      ensures Unmet(labels, k, m[k]) != True
         <==> k != "" && '.' !in k && k in labels && (m[k] == JString(labels[k]) || m[k] == JNull)
    {
      EntryMet(labels, m, k);
    }
  }

  lemma HolderSelectsIff(holder: Obj, target: Obj)
    ensures HolderSelects(holder, target)
       <==> && target.cluster == holder.cluster && target.namespace == holder.namespace && target.id != holder.id
            && Selector(holder).Some? && SqliteSelects(Selector(holder).value, target.labels)
  {
    hide SelectsBy, LabelsMeet, SqliteSelects, Selector;
    if Selector(holder).Some? {
      SelectorIs(holder, Selector(holder).value);
      LabelsMeetIff(target.labels, Selector(holder).value);
    }
    forall m | SelectsBy(holder.doc, m)
      ensures Selector(holder) == Some(m)
    {
      SelectorIs(holder, m);
    }
  }

  lemma InvolvesIff(o: Obj, uid: string)
    ensures InvolvesUid(o.doc, uid) <==> InvolvedUid(o) == Some(uid)
  {
    hide Lookup;
    StepIn(o.doc, "involvedObject", ["uid"]);
    assert ["involvedObject"] + ["uid"] == ["involvedObject", "uid"];
    if o.doc.JObject? && "involvedObject" in o.doc.fields {
      StepIn(o.doc.fields["involvedObject"], "uid", []);
      assert ["uid"] + [] == ["uid"];
    }
  }

  lemma {:induction false} TargetKindsAre(filters: seq<ObjectFilter>, kind: string)
    ensures kind in TargetKinds(filters)
       <==> exists f :: f in filters && f.groupKind.Some? && f.groupKind.value.kind != ""
              && f.groupKind.value.kind == kind
  {
    if filters != [] {
      TargetKindsAre(filters[1..], kind);
      assert forall f :: f in filters <==> f == filters[0] || f in filters[1..];
    }
  }

  lemma {:induction false} NoTargetKinds(filters: seq<ObjectFilter>)
    ensures TargetKinds(filters) == []
       <==> forall f :: f in filters ==> f.groupKind.None? || f.groupKind.value.kind == ""
  {
    if filters != [] {
      NoTargetKinds(filters[1..]);
      assert forall f :: f in filters <==> f == filters[0] || f in filters[1..];
    }
  }

  lemma KindAskedIff(filters: seq<ObjectFilter>, kind: string)
    ensures var kinds := TargetKinds(filters);
      KindAsked(filters, kind) <==> kinds == [] || exists i :: 0 <= i < |kinds| && Lower(kinds[i]) == Lower(kind)
  {
    hide Lower, TargetKinds;
    var kinds := TargetKinds(filters);
    NoTargetKinds(filters);
    if exists f :: f in filters && f.groupKind.Some? && f.groupKind.value.kind != ""
         && Lower(f.groupKind.value.kind) == Lower(kind)
    {
      var f :| f in filters && f.groupKind.Some? && f.groupKind.value.kind != ""
        && Lower(f.groupKind.value.kind) == Lower(kind);
      TargetKindsAre(filters, f.groupKind.value.kind);
      var i :| 0 <= i < |kinds| && kinds[i] == f.groupKind.value.kind;
    }
    if i :| 0 <= i < |kinds| && Lower(kinds[i]) == Lower(kind) {
      assert kinds[i] in kinds;
      TargetKindsAre(filters, kinds[i]);
    }
  }

  lemma MentionsIff(p: Obj, filters: seq<ObjectFilter>, name: string)
    ensures MentionsName(p, filters, name) <==> RefersTo(p, name, TargetKinds(filters))
  {
    hide KindAsked, TargetKinds;
    forall r: SpecRef
      ensures var kinds := TargetKinds(filters);
        KindAsked(filters, r.targetKind)
        <==> kinds == [] || exists i :: 0 <= i < |kinds| && Lower(kinds[i]) == Lower(r.targetKind)
    {
      KindAskedIff(filters, r.targetKind);
    }
  }

  lemma LinkedIff(p: Obj, c: Obj)
    ensures (exists r :: r in p.relatesTo && ElementNames(p, r, c))
       <==> exists i :: 0 <= i < |p.relatesTo| && PointsAt(p, p.relatesTo[i], c)
  {
    assert forall r :: ElementNames(p, r, c) <==> PointsAt(p, r, c);
    if i :| 0 <= i < |p.relatesTo| && PointsAt(p, p.relatesTo[i], c) {
      assert p.relatesTo[i] in p.relatesTo;
    }
  }

  lemma JoinsAsNamed(name: string, filters: seq<ObjectFilter>, p: Obj, c: Obj)
    ensures On(JoinFor(name, filters), p, c) <==> Relates(name, filters, p, c)
  {
    hide RefersTo, MentionsName, HolderSelects, SqliteSelects, Selector, InvolvesUid, InvolvedUid, PointsAt,
         ElementNames, TargetKinds;
    match name
    case "references" => MentionsIff(p, filters, c.name);
    case "selects" => HolderSelectsIff(p, c);
    case "selected-by" => HolderSelectsIff(c, p);
    case "events" => InvolvesIff(c, p.uid);
    case "linked" => LinkedIff(p, c);
    case _ =>
  }

  /** From any object, a relation of any name finds exactly the stored objects that it leads to. */
  lemma NamedMatches(name: string, filters: seq<ObjectFilter>, p: Obj, objects: seq<Obj>, c: Obj)
    ensures c in Matches(JoinFor(name, filters), p, objects) <==> c in objects && Relates(name, filters, p, c)
  {
    hide Relates, On, Matches, JoinFor;
    MatchesExact(JoinFor(name, filters), p, objects, c);
    JoinsAsNamed(name, filters, p, c);
  }

  // ----- how often -----

  /** How many elements of the annotation name the object. */
  function NamedTimes(p: Obj, refs: seq<LinkRef>, c: Obj): nat {
    if refs == [] then 0 else (if ElementNames(p, refs[0], c) then 1 else 0) + NamedTimes(p, refs[1..], c)
  }

  lemma {:induction false} WhereOften(j: JoinKind, p: Obj, objects: seq<Obj>, c: Obj)
    ensures multiset(Where(j, p, objects))[c] == if On(j, p, c) then multiset(objects)[c] else 0
  {
    hide On;
    if objects != [] {
      WhereOften(j, p, objects[1..], c);
      assert objects == [objects[0]] + objects[1..];
    }
  }

  lemma ElementPoints(p: Obj, r: LinkRef, c: Obj)
    ensures ElementNames(p, r, c) <==> PointsAt(p, r, c)
  {
  }

  lemma {:induction false} PointedOften(p: Obj, r: LinkRef, objects: seq<Obj>, c: Obj)
    ensures multiset(Pointed(p, r, objects))[c] == if ElementNames(p, r, c) then multiset(objects)[c] else 0
  {
    ElementPoints(p, r, c);
    hide PointsAt, ElementNames;
    if objects != [] {
      PointedOften(p, r, objects[1..], c);
      assert objects == [objects[0]] + objects[1..];
    }
  }

  lemma {:induction false} PointedByOften(p: Obj, refs: seq<LinkRef>, objects: seq<Obj>, c: Obj)
    ensures multiset(PointedBy(p, refs, objects))[c] == NamedTimes(p, refs, c) * multiset(objects)[c]
  {
    hide Pointed, ElementNames;
    if refs != [] {
      hide PointedBy;
      var rest := PointedBy(p, refs[1..], objects);
      PointedByOften(p, refs[1..], objects, c);
      PointedOften(p, refs[0], objects, c);
      PointedByStep(p, refs, objects);
      assert multiset(PointedBy(p, refs, objects))[c]
          == multiset(Pointed(p, refs[0], objects))[c] + multiset(rest)[c];
      OneMore(if ElementNames(p, refs[0], c) then 1 else 0, NamedTimes(p, refs[1..], c), multiset(objects)[c]);
    }
  }

  lemma PointedByStep(p: Obj, refs: seq<LinkRef>, objects: seq<Obj>)
    requires refs != []
    ensures PointedBy(p, refs, objects) == Pointed(p, refs[0], objects) + PointedBy(p, refs[1..], objects)
  {
  }

  lemma OneMore(a: nat, b: nat, n: nat)
    ensures (a + b) * n == a * n + b * n && 0 * n == 0 && 1 * n == n
  {
  }

  /** A relation yields an object as often as it is stored; a linked one does so for each annotation element
      that names it. */
  lemma NamedOften(name: string, filters: seq<ObjectFilter>, p: Obj, objects: seq<Obj>, c: Obj)
    ensures multiset(Matches(JoinFor(name, filters), p, objects))[c]
         == if name == "linked" then NamedTimes(p, p.relatesTo, c) * multiset(objects)[c]
            else if Relates(name, filters, p, c) then multiset(objects)[c] else 0
  {
    hide Where, PointedBy, On, Relates, TargetKinds;
    JoinsAsNamed(name, filters, p, c);
    if name == "linked" {
      PointedByOften(p, p.relatesTo, objects, c);
    } else {
      WhereOften(JoinFor(name, filters), p, objects, c);
    }
  }

  // ----- the filters of a block -----

  lemma {:induction false} AllFiltersAccept(fs: seq<ObjectFilter>, x: Obj, cat: Catalog)
    ensures Accepts(AllFilterClauses(fs), x, cat) <==> forall f :: f in fs ==> FilterMatches(f, VisibleObj(x), cat)
  {
    hide Accepts, FilterClauses, FilterMatches, VisibleObj;
    if fs == [] {
      NothingAsked(x, cat);
    } else {
      AllFiltersAccept(fs[1..], x, cat);
      FilterMeaning(fs[0], x, cat);
      AcceptsConcat(FilterClauses(fs[0]), AllFilterClauses(fs[1..]), x, cat);
      assert forall f :: f in fs <==> f == fs[0] || f in fs[1..];
    }
  }

  lemma NothingAsked(x: Obj, cat: Catalog)
    ensures Accepts([], x, cat)
  {
  }

  /** A reference block also asks for one of the kinds that its filters name, if any, exactly spelled. */
  ghost predicate KindListed(name: string, filters: seq<ObjectFilter>, kind: string) {
    BaseRelation(name) == "references" ==>
      || (forall f :: f in filters ==> f.groupKind.None? || f.groupKind.value.kind == "")
      || exists f :: f in filters && f.groupKind.Some? && f.groupKind.value.kind != "" && f.groupKind.value.kind == kind
  }

  lemma JoinAccepts(name: string, filters: seq<ObjectFilter>, x: Obj, cat: Catalog)
    ensures Accepts(JoinClauses(JoinFor(BaseRelation(name), filters)), x, cat) <==> KindListed(name, filters, x.kind)
  {
    hide TargetKinds, In3, EvalAll;
    var kinds := TargetKinds(filters);
    NoTargetKinds(filters);
    TargetKindsAre(filters, x.kind);
    NothingAsked(x, cat);
    AcceptsOne(InList(KindColumn, kinds), x, cat);
    In3Meaning(Some(x.kind), kinds);
  }

  /** The WHERE of a relation block accepts exactly the objects that meet every filter entry of the block,
      labels read the way SQLite reads them. */
  lemma BlockAccepts(name: string, spec: RelationSpec, x: Obj, cat: Catalog)
    ensures Accepts(BlockClauses(name, spec), x, cat)
       <==> (forall f :: f in spec.filters ==> FilterMatches(f, VisibleObj(x), cat))
            && KindListed(name, spec.filters, x.kind)
  {
    hide Accepts, JoinClauses, JoinFor, AllFilterClauses, FilterMatches, VisibleObj, KindListed, BaseRelation;
    JoinAccepts(name, spec.filters, x, cat);
    AllFiltersAccept(spec.filters, x, cat);
    AcceptsConcat(JoinClauses(JoinFor(BaseRelation(name), spec.filters)), AllFilterClauses(spec.filters), x, cat);
  }

  /** A transitive block filters on kind, name or namespace if one of its filter entries gives any. */
  lemma {:induction false} InnerClausesIff(fs: seq<ObjectFilter>)
    ensures InnerClauses(fs) == []
       <==> forall f :: f in fs
              ==> (f.groupKind.Some? ==> f.groupKind.value.kind == "") && f.name == "" && f.namespace == ""
  {
    if fs != [] {
      InnerClausesIff(fs[1..]);
      assert forall f :: f in fs <==> f == fs[0] || f in fs[1..];
    }
  }

  // ----- what the reference answer lists -----

  lemma {:induction false} KeptOften(w: World, xs: seq<Obj>, name: string, spec: RelationSpec, y: Obj)
    ensures multiset(Kept(w, xs, name, spec))[y]
            == if Accepts(BlockClauses(name, spec), y, w.cat) then multiset(xs)[y] else 0
  {
    hide Accepts, BlockClauses;
    if xs != [] {
      KeptOften(w, xs[1..], name, spec, y);
      assert xs == [xs[0]] + xs[1..];
    }
  }

  lemma {:induction false} InsertKeeps(x: Obj, xs: seq<Obj>)
    ensures multiset(InsertObj(x, xs)) == multiset(xs) + multiset{x}
  {
    hide Less, Segment;
    if xs != [] {
      InsertKeeps(x, xs[1..]);
      assert xs == [xs[0]] + xs[1..];
    }
  }

  ghost predicate InSegmentOrder(xs: seq<Obj>) {
    forall i, j :: 0 <= i < j < |xs| ==> !Less(Segment(xs[j]), Segment(xs[i]))
  }

  lemma NotLessChains(a: string, b: string, c: string)
    requires !Less(b, a) && !Less(c, b)
    ensures !Less(c, a)
  {
    LessTotal(a, b);
    LessTotal(b, c);
    if Less(a, b) && Less(b, c) {
      LessTransitive(a, b, c);
    }
    if Less(a, c) {
      LessAsymmetric(a, c);
    }
    LessIrreflexive(a);
  }

  lemma {:induction false} InsertOrders(x: Obj, xs: seq<Obj>)
    requires InSegmentOrder(xs)
    ensures InSegmentOrder(InsertObj(x, xs))
  {
    hide Less, Segment;
    if xs != [] {
      var rest := xs[1..];
      if Less(Segment(xs[0]), Segment(x)) {
        InsertOrders(x, rest);
        LessAsymmetric(Segment(xs[0]), Segment(x));
        InsertKeeps(x, rest);
        var tail := InsertObj(x, rest);
        forall i | 0 <= i < |tail|
          ensures !Less(Segment(tail[i]), Segment(xs[0]))
        {
          assert tail[i] in multiset(tail);
          assert tail[i] == x || tail[i] in rest;
        }
      } else {
        forall i | 0 <= i < |xs|
          ensures !Less(Segment(xs[i]), Segment(x))
        {
          if i > 0 {
            NotLessChains(Segment(x), Segment(xs[0]), Segment(xs[i]));
          }
        }
      }
    }
  }

  lemma {:induction false} SortSorts(xs: seq<Obj>)
    ensures multiset(SortObjs(xs)) == multiset(xs) && InSegmentOrder(SortObjs(xs))
  {
    if xs != [] {
      hide InsertObj, InSegmentOrder;
      SortSorts(xs[1..]);
      InsertKeeps(xs[0], SortObjs(xs[1..]));
      InsertOrders(xs[0], SortObjs(xs[1..]));
      assert xs == [xs[0]] + xs[1..];
    } else {
      NoneInOrder();
    }
  }

  lemma NoneInOrder()
    ensures InSegmentOrder([])
  {
  }

  /** Below an object the reference answer lists, for a relation block within the depth limit, exactly the
      stored objects that the name leads to and that meet all filters of the block, in segment order. */
  lemma FoundAsNamed(w: World, x: Obj, name: string, spec: RelationSpec, level: nat, y: Obj)
    requires level <= w.maxDepth && !IsTransitive(name)
    ensures InSegmentOrder(FoundBelow(w, x, name, spec, level))
    ensures y in FoundBelow(w, x, name, spec, level)
       <==> && y in w.objects && Relates(name, spec.filters, x, y)
            && (forall f :: f in spec.filters ==> FilterMatches(f, VisibleObj(y), w.cat))
            && KindListed(name, spec.filters, y.kind)
    ensures name != "linked" && y in FoundBelow(w, x, name, spec, level)
            ==> multiset(FoundBelow(w, x, name, spec, level))[y] == multiset(w.objects)[y]
  {
    hide Matches, JoinFor, Relates, Kept, SortObjs, InSegmentOrder, FilterMatches, VisibleObj, BlockClauses, Accepts,
         KindListed;
    var xs := Matches(JoinFor(name, spec.filters), x, w.objects);
    var kept := Kept(w, xs, name, spec);
    SortSorts(kept);
    KeptOften(w, xs, name, spec, y);
    NamedMatches(name, spec.filters, x, w.objects, y);
    NamedOften(name, spec.filters, x, w.objects, y);
    BlockAccepts(name, spec, y, w.cat);
    assert y in FoundBelow(w, x, name, spec, level) <==> multiset(FoundBelow(w, x, name, spec, level))[y] > 0;
    assert y in xs <==> multiset(xs)[y] > 0;
  }

  lemma DocumentIs(shape: Option<ObjectsSpec>, o: Obj)
    ensures Projected(ShapeProjection(shape), o) == DocumentFor(shape, o)
  {
    ProjectedDocument(None, o);
  }

  /** What the reference answer says of one object: the fields and the document that the shape asks for, and
      results for exactly the relation blocks that find anything. */
  lemma WantedIs(w: World, x: Obj, shape: Option<ObjectsSpec>, level: nat)
    ensures var r := Want(w, x, DocumentFor(shape, x), shape, level);
      && r.id == (if shape.Some? && shape.value.wantId then x.id else "")
      && r.cluster == (if shape.Some? && shape.value.wantCluster then x.cluster else "")
      && r.mutablePath == (if shape.Some? && shape.value.wantMutablePath then Assembly.MutablePath(x) else "")
      && r.document == DocumentFor(shape, x)
      && (shape == None ==> r.relations == map[])
      && (shape.Some? ==> forall rel :: rel in r.relations <==>
                            rel in shape.value.relations
                            && FoundBelow(w, x, rel, shape.value.relations[rel], level) != [])
  {
    hide FoundBelow, Projected, Assembly.MutablePath;
  }

  /** For each of these, one result per object found, in order, shown in turn with the shape of that block. */
  lemma WantedBelow(w: World, x: Obj, shape: ObjectsSpec, rel: string, level: nat)
    requires rel in Want(w, x, DocumentFor(Some(shape), x), Some(shape), level).relations && rel in shape.relations
    ensures var results := Want(w, x, DocumentFor(Some(shape), x), Some(shape), level).relations[rel];
      var below := shape.relations[rel].objects;
      var found := FoundBelow(w, x, rel, shape.relations[rel], level);
      && |results| == |found|
      && forall i :: 0 <= i < |found|
           ==> results[i] == Want(w, found[i], DocumentFor(below, found[i]), below, level + 1)
  {
    hide FoundBelow, Projected, Assembly.MutablePath, Want;
    var spec := shape.relations[rel];
    var found := FoundBelow(w, x, rel, spec, level);
    WantHasList(w, x, shape, rel, level);
    forall i | 0 <= i < |found|
      ensures WantList(w, x, rel, spec, level)[i]
              == Want(w, found[i], DocumentFor(spec.objects, found[i]), spec.objects, level + 1)
    {
      DocumentIs(spec.objects, found[i]);
    }
  }

  lemma WantHasList(w: World, x: Obj, shape: ObjectsSpec, rel: string, level: nat)
    requires rel in Want(w, x, DocumentFor(Some(shape), x), Some(shape), level).relations && rel in shape.relations
    ensures Want(w, x, DocumentFor(Some(shape), x), Some(shape), level).relations[rel]
            == WantList(w, x, rel, shape.relations[rel], level)
  {
    hide FoundBelow, Projected, Assembly.MutablePath, WantList;
  }

  /** And so for the roots, in segment order. */
  lemma AllWantedAre(w: World, roots: seq<Obj>, shape: Option<ObjectsSpec>)
    ensures var sorted := SortObjs(roots);
      && multiset(sorted) == multiset(roots) && InSegmentOrder(sorted)
      && |WantAll(w, roots, shape)| == |sorted|
      && forall i :: 0 <= i < |sorted|
           ==> WantAll(w, roots, shape)[i] == Want(w, sorted[i], DocumentFor(shape, sorted[i]), shape, 1)
  {
    hide SortObjs, InSegmentOrder, Want, Projected;
    SortSorts(roots);
    var sorted := SortObjs(roots);
    forall i | 0 <= i < |sorted|
      ensures WantAll(w, roots, shape)[i] == Want(w, sorted[i], DocumentFor(shape, sorted[i]), shape, 1)
    {
      DocumentIs(shape, sorted[i]);
    }
  }

  // ----- transitive names -----

  /** A trailing `+` makes a relation transitive. */
  lemma PlusIsTransitive(name: string)
    ensures IsTransitive(name + "+") && BaseRelation(name + "+") == name
    ensures !IsTransitive(name) ==> BaseRelation(name) == name
    ensures IsTransitive(name) <==> exists base :: name == base + "+"
  {
    assert (name + "+")[..|name|] == name;
    if IsTransitive(name) {
      assert name == name[..|name| - 1] + "+";
    }
  }

  /** Only ownership, in both directions, and links can be followed; each step stays in one cluster. */
  lemma {:induction false} FollowsAsNamed(name: string, p: Obj, objects: seq<Obj>, c: Obj)
    ensures BaseOf(name).Some? <==> name in ["descendants", "owners", "linked"]
    ensures BaseOf(name).Some? ==>
      multiset(Followers(BaseOf(name).value, p, objects))[c]
      == if c.cluster == p.cluster && Relates(name, [], p, c) then multiset(objects)[c] else 0
  {
    if BaseOf(name).Some? {
      hide Relates, Followers;
      StepAsNamed(name, p, c);
      FollowersOften(BaseOf(name).value, p, objects, c);
    }
  }

  lemma {:induction false} FollowersOften(base: Base, p: Obj, objects: seq<Obj>, c: Obj)
    ensures multiset(Followers(base, p, objects))[c] == if Follows(base, p, c) then multiset(objects)[c] else 0
  {
    hide Follows;
    if objects != [] {
      FollowersOften(base, p, objects[1..], c);
      assert objects == [objects[0]] + objects[1..];
    }
  }

  /** The objects lead on from `r` one after the other along the named relation, in one cluster. */
  ghost predicate LeadsAlong(name: string, objects: seq<Obj>, r: Obj, ws: seq<Obj>) {
    forall i :: 0 <= i < |ws| ==> LeadsAt(name, objects, r, ws, i)
  }

  ghost predicate LeadsAt(name: string, objects: seq<Obj>, r: Obj, ws: seq<Obj>, i: nat)
    requires i < |ws|
  {
    LeadsTo(name, objects, if i == 0 then r else ws[i - 1], ws[i])
  }

  ghost predicate LeadsTo(name: string, objects: seq<Obj>, p: Obj, c: Obj) {
    c in objects && c.cluster == p.cluster && Relates(name, [], p, c)
  }

  lemma {:induction false} WalksAsNamed(name: string, objects: seq<Obj>, r: Obj, ws: seq<Obj>)
    requires BaseOf(name).Some?
    ensures IsWalk(BaseOf(name).value, objects, r, ws) <==> LeadsAlong(name, objects, r, ws)
    decreases |ws|
  {
    hide Relates, Follows, On;
    if ws != [] {
      var init, last := ws[..|ws| - 1], ws[|ws| - 1];
      hide LeadsAlong;
      WalksAsNamed(name, objects, r, init);
      StepAsNamed(name, End(r, init), last);
      assert ws == init + [last];
      LeadsLast(name, objects, r, init, last);
    } else {
      LeadsNowhere(name, objects, r);
    }
  }

  lemma LeadsNowhere(name: string, objects: seq<Obj>, r: Obj)
    ensures LeadsAlong(name, objects, r, [])
  {
  }

  lemma LeadsLast(name: string, objects: seq<Obj>, r: Obj, init: seq<Obj>, last: Obj)
    ensures LeadsAlong(name, objects, r, init + [last])
       <==> LeadsAlong(name, objects, r, init) && LeadsTo(name, objects, End(r, init), last)
  {
    hide LeadsTo;
    var ws := init + [last];
    assert LeadsAt(name, objects, r, ws, |init|) <==> LeadsTo(name, objects, End(r, init), last);
    forall i | 0 <= i < |init|
      ensures LeadsAt(name, objects, r, ws, i) <==> LeadsAt(name, objects, r, init, i)
    {
      assert ws[i] == init[i] && (i > 0 ==> ws[i - 1] == init[i - 1]);
    }
  }

  lemma StepAsNamed(name: string, p: Obj, c: Obj)
    requires BaseOf(name).Some?
    ensures Follows(BaseOf(name).value, p, c) <==> c.cluster == p.cluster && Relates(name, [], p, c)
  {
    hide Relates, PointsAt;
    JoinsAsNamed(name, [], p, c);
  }

  /** The block `descendants+`, `owners+` or `linked+` of an answer holds, below any object, exactly the objects
      at the end of 1 to `maxDepth` steps along the named relation. */
  lemma ReachAsNamed(w: World, s: Spot, name: string, spec: RelationSpec, level: nat, o: Obj)
    requires UniqueUids(w.objects) && 1 <= level <= w.maxDepth && name in ["descendants", "owners", "linked"]
    ensures Holds(Bag(s.path, Related(w, s.obj, name + "+", spec, level)), level, o)
       <==> exists ws :: 1 <= |ws| <= w.maxDepth && LeadsAlong(name, w.objects, s.obj, ws) && ws[|ws| - 1] == o
  {
    hide Holds, Bag, Related, UniqueUids, LeadsAlong, IsWalk, IsTransitive, BaseRelation;
    PlusIsTransitive(name);
    var base := BaseOf(name).value;
    BlockHoldsReach(w, s, name + "+", spec, level, base, o);
    forall ws
      ensures IsWalk(base, w.objects, s.obj, ws) <==> LeadsAlong(name, w.objects, s.obj, ws)
    {
      WalksAsNamed(name, w.objects, s.obj, ws);
    }
    if WithinReach(base, w.objects, s.obj, w.maxDepth, o) {
      var ws :| ws != [] && |ws| <= w.maxDepth && IsWalk(base, w.objects, s.obj, ws) && End(s.obj, ws) == o;
      assert LeadsAlong(name, w.objects, s.obj, ws);
    }
    if ws :| 1 <= |ws| <= w.maxDepth && LeadsAlong(name, w.objects, s.obj, ws) && ws[|ws| - 1] == o {
      assert IsWalk(base, w.objects, s.obj, ws) && End(s.obj, ws) == o;
    }
  }
}
