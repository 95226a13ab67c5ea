/** Sparse projections: the SQL expressions built for them in both dialects, and the pruned
    document they compute. */
module Projections {
  import opened Options
  import opened Text
  import opened Objects
  import opened Spec
  import opened Relations

  /** A projection expression over an object's document. */
  datatype Expr =
    | Null
    | JsonExtract(path: string)
    | Arrows(keys: seq<string>)
    | BuildObject(fields: map<string, Expr>)

  /** The dotted path handed down to a nested key. */
  function ChildPath(path: string, key: string): string {
    if path != "" then path + "." + key else key
  }

  function BuildSqlite(spec: Projection, path: string): Expr {
    match spec
    case Include => JsonExtract(path)
    case Exclude => Null
    case Fields(m) =>
      if m == map[] then Null else BuildObject(map k | k in m :: BuildSqlite(m[k], ChildPath(path, k)))
    case Other => JsonExtract(path)
  }

  function BuildPostgres(spec: Projection, path: string): Expr {
    match spec
    case Include => Arrows(Split(path, '.'))
    case Exclude => Null
    case Fields(m) =>
      if m == map[] then Null else BuildObject(map k | k in m :: BuildPostgres(m[k], ChildPath(path, k)))
    case Other => Arrows(Split(path, '.'))
  }

  /** SQLite reads a boolean found by `json_extract` as a number. */
  function Number01(j: Json): Json {
    if j.JBool? then JNumber(if j.b then 1 else 0) else j
  }

  function OrNull(v: Option<Json>): Json {
    if v.None? then JNull else v.value
  }

  /** The value of an expression, or None if evaluating it raises an error; every member of an object is
      evaluated. */
  function EvalExpr(e: Expr, doc: Json): Option<Json> {
    match e
    case Null => Some(JNull)
    case JsonExtract(path) =>
      (match Extracted(doc, path)
       case BadPath => None
       case Missing => Some(JNull)
       case Found(v) => Some(Number01(v)))
    case Arrows(keys) => Some(OrNull(Lookup(doc, keys)))
    case BuildObject(m) =>
      if forall k :: k in m ==> EvalExpr(m[k], doc).Some?
      then Some(JObject(map k | k in m :: EvalExpr(m[k], doc).value)) else None
  }

  /** The members of the object that is built for a map. */
  lemma SqliteMembers(m: map<string, Projection>, path: string)
    requires m != map[]
    ensures var e := BuildSqlite(Fields(m), path);
      && e.BuildObject? && e.fields.Keys == m.Keys
      && forall k :: k in m ==> e.fields[k] == BuildSqlite(m[k], ChildPath(path, k))
  {
  }

  lemma PostgresMembers(m: map<string, Projection>, path: string)
    requires m != map[]
    ensures var e := BuildPostgres(Fields(m), path);
      && e.BuildObject? && e.fields.Keys == m.Keys
      && forall k :: k in m ==> e.fields[k] == BuildPostgres(m[k], ChildPath(path, k))
  {
  }

  lemma ObjectValue(e: Expr, doc: Json)
    requires e.BuildObject?
    ensures EvalExpr(e, doc).Some? <==> forall k :: k in e.fields ==> EvalExpr(e.fields[k], doc).Some?
    ensures EvalExpr(e, doc).Some? ==>
              var v := EvalExpr(e, doc).value;
              && v.JObject? && v.fields.Keys == e.fields.Keys
              && forall k :: k in e.fields ==> Some(v.fields[k]) == EvalExpr(e.fields[k], doc)
  {
  }

  // ----- the meaning -----

  function Member(v: Option<Json>, key: string): Option<Json> {
    if v.Some? && v.value.JObject? && key in v.value.fields then Some(v.value.fields[key]) else None
  }

  /** The part of a value that a projection asks for; `leaf` says how a leaf is read. */
  function Prune(spec: Projection, v: Option<Json>, leaf: Json -> Json): Json {
    match spec
    case Include => leaf(OrNull(v))
    case Exclude => JNull
    case Fields(m) =>
      if m == map[] then JNull else JObject(map k | k in m :: Prune(m[k], Member(v, k), leaf))
    case Other => leaf(OrNull(v))
  }

  function Same(j: Json): Json { j }

  // ----- the keys on the way to a leaf -----

  /** The keys lead to a leaf that is read. */
  predicate ReadsAt(spec: Projection, ks: seq<string>)
    decreases ks
  {
    if ks == [] then spec.Include? || spec.Other?
    else spec.Fields? && ks[0] in spec.fields && ReadsAt(spec.fields[ks[0]], ks[1..])
  }

  /** The dotted path that the builders hand down along the keys. */
  function PathFrom(path: string, ks: seq<string>): string
    decreases ks
  {
    if ks == [] then path else PathFrom(ChildPath(path, ks[0]), ks[1..])
  }

  /** Every leaf that is read below `path` splits back into the keys that lead to it. */
  ghost predicate SplitsBack(spec: Projection, path: string, keys: seq<string>) {
    forall ks :: ReadsAt(spec, ks) ==> Split(PathFrom(path, ks), '.') == keys + ks
  }

  lemma {:induction false} LookupStep(j: Json, keys: seq<string>, k: string)
    ensures Lookup(j, keys + [k]) == Member(Lookup(j, keys), k)
    decreases |keys|
  {
    if keys == [] {
      assert keys + [k] == [k] && [k][1..] == [];
    } else {
      assert (keys + [k])[1..] == keys[1..] + [k];
      if j.JObject? && keys[0] in j.fields {
        LookupStep(j.fields[keys[0]], keys[1..], k);
      }
    }
  }

  lemma SplitsBackBelow(spec: Projection, path: string, keys: seq<string>, k: string)
    requires SplitsBack(spec, path, keys) && spec.Fields? && k in spec.fields
    ensures SplitsBack(spec.fields[k], ChildPath(path, k), keys + [k])
  {
    hide Split;
    forall ks | ReadsAt(spec.fields[k], ks)
      ensures Split(PathFrom(ChildPath(path, k), ks), '.') == keys + [k] + ks
    {
      var longer := [k] + ks;
      assert longer[0] == k && longer[1..] == ks;
      assert ReadsAt(spec, longer) && PathFrom(path, longer) == PathFrom(ChildPath(path, k), ks);
      assert keys + longer == keys + [k] + ks;
    }
  }

  lemma LeafSplits(spec: Projection, path: string, keys: seq<string>)
    requires SplitsBack(spec, path, keys) && (spec.Include? || spec.Other?)
    ensures Split(path, '.') == keys
  {
    hide Split;
    assert ReadsAt(spec, []) && PathFrom(path, []) == path;
    NothingAdded(keys);
  }

  /** The paths of all leaves that are read have no empty part. */
  ghost predicate Readable(spec: Projection, path: string) {
    forall ks :: ReadsAt(spec, ks) ==> NoEmptyPart(PathFrom(path, ks))
  }

  lemma ReadableBelow(spec: Projection, path: string, k: string)
    requires Readable(spec, path) && spec.Fields? && k in spec.fields
    ensures Readable(spec.fields[k], ChildPath(path, k))
  {
    hide NoEmptyPart;
    forall ks | ReadsAt(spec.fields[k], ks)
      ensures NoEmptyPart(PathFrom(ChildPath(path, k), ks))
    {
      var longer := [k] + ks;
      assert longer[0] == k && longer[1..] == ks;
      assert ReadsAt(spec, longer) && PathFrom(path, longer) == PathFrom(ChildPath(path, k), ks);
    }
  }

  lemma LeafReadable(spec: Projection, path: string, doc: Json)
    requires Readable(spec, path) && (spec.Include? || spec.Other?)
    ensures EvalExpr(JsonExtract(path), doc) == Some(Number01(OrNull(Lookup(doc, Split(path, '.')))))
  {
    hide Split;
    assert ReadsAt(spec, []) && PathFrom(path, []) == path;
    ReadsLikeLookup(doc, Split(path, '.'));
  }

  /** If moreover the paths split back into the keys descended, every sub-expression raises nothing and
      reads exactly the member it is meant for. */
  lemma {:induction false} SqliteComputes(spec: Projection, path: string, keys: seq<string>, doc: Json)
    requires SplitsBack(spec, path, keys) && Readable(spec, path)
    ensures EvalExpr(BuildSqlite(spec, path), doc) == Some(Prune(spec, Lookup(doc, keys), Number01))
    decreases spec
  {
    if spec.Fields? {
      hide BuildSqlite, EvalExpr, Prune, Lookup, SplitsBack, Readable, Member, ChildPath;
      var m := spec.fields;
      forall k | k in m
        ensures EvalExpr(BuildSqlite(m[k], ChildPath(path, k)), doc)
                == Some(Prune(m[k], Member(Lookup(doc, keys), k), Number01))
      {
        SplitsBackBelow(spec, path, keys, k);
        ReadableBelow(spec, path, k);
        LookupStep(doc, keys, k);
        SqliteComputes(m[k], ChildPath(path, k), keys + [k], doc);
      }
      SqliteFields(m, path, Lookup(doc, keys), doc);
    } else if !spec.Exclude? {
      LeafSplits(spec, path, keys);
      LeafReadable(spec, path, doc);
    }
  }

  lemma SqliteFields(m: map<string, Projection>, path: string, v: Option<Json>, doc: Json)
    requires forall k :: k in m ==> EvalExpr(BuildSqlite(m[k], ChildPath(path, k)), doc)
                                      == Some(Prune(m[k], Member(v, k), Number01))
    ensures EvalExpr(BuildSqlite(Fields(m), path), doc) == Some(Prune(Fields(m), v, Number01))
  {
    hide ChildPath, Member;
    if m != map[] {
      SqliteMembers(m, path);
      var e := BuildSqlite(Fields(m), path);
      ObjectValue(e, doc);
      assert EvalExpr(e, doc).value.fields == Prune(Fields(m), v, Number01).fields;
    }
  }

  /** The Postgres operators raise nothing. */
  lemma {:induction false} PostgresComputes(spec: Projection, path: string, keys: seq<string>, doc: Json)
    requires SplitsBack(spec, path, keys)
    ensures EvalExpr(BuildPostgres(spec, path), doc) == Some(Prune(spec, Lookup(doc, keys), Same))
    decreases spec
  {
    if spec.Fields? {
      hide BuildPostgres, EvalExpr, Prune, Lookup, SplitsBack, Member, ChildPath;
      var m := spec.fields;
      forall k | k in m
        ensures EvalExpr(BuildPostgres(m[k], ChildPath(path, k)), doc)
                == Some(Prune(m[k], Member(Lookup(doc, keys), k), Same))
      {
        SplitsBackBelow(spec, path, keys, k);
        LookupStep(doc, keys, k);
        PostgresComputes(m[k], ChildPath(path, k), keys + [k], doc);
      }
      PostgresFields(m, path, Lookup(doc, keys), doc);
    } else if !spec.Exclude? {
      LeafSplits(spec, path, keys);
    }
  }

  lemma PostgresFields(m: map<string, Projection>, path: string, v: Option<Json>, doc: Json)
    requires forall k :: k in m ==> EvalExpr(BuildPostgres(m[k], ChildPath(path, k)), doc)
                                      == Some(Prune(m[k], Member(v, k), Same))
    ensures EvalExpr(BuildPostgres(Fields(m), path), doc) == Some(Prune(Fields(m), v, Same))
  {
    hide ChildPath, Member;
    if m != map[] {
      PostgresMembers(m, path);
      var e := BuildPostgres(Fields(m), path);
      ObjectValue(e, doc);
      assert EvalExpr(e, doc).value.fields == Prune(Fields(m), v, Same).fields;
    }
  }

  // ----- when evaluation raises -----

  lemma {:induction false} ReadableRaisesNothing(spec: Projection, path: string, doc: Json)
    requires Readable(spec, path)
    ensures EvalExpr(BuildSqlite(spec, path), doc).Some?
    decreases spec
  {
    if spec.Fields? {
      forall k | k in spec.fields
        ensures EvalExpr(BuildSqlite(spec.fields[k], ChildPath(path, k)), doc).Some?
      {
        hide BuildSqlite, EvalExpr, Readable, ChildPath;
        ReadableBelow(spec, path, k);
        ReadableRaisesNothing(spec.fields[k], ChildPath(path, k), doc);
      }
    } else if !spec.Exclude? {
      LeafReadable(spec, path, doc);
    }
  }

  /** A leaf that raises makes the whole expression raise. */
  lemma {:induction false} LeafRaises(spec: Projection, path: string, ks: seq<string>, doc: Json)
    requires ReadsAt(spec, ks) && Extracted(doc, PathFrom(path, ks)) == BadPath
    ensures EvalExpr(BuildSqlite(spec, path), doc).None?
    decreases ks
  {
    if ks != [] {
      hide Extracted, BuildSqlite, EvalExpr, ChildPath;
      LeafRaises(spec.fields[ks[0]], ChildPath(path, ks[0]), ks[1..], doc);
      assert ks[0] in spec.fields && spec.fields != map[];
      SqliteMembers(spec.fields, path);
      ObjectValue(BuildSqlite(spec, path), doc);
    }
  }

  /** In a document that nests the parts of a bad path, reading it raises. */
  lemma {:induction false} NestRaises(parts: seq<string>)
    requires "" in parts
    ensures SqliteLookup(Nest(parts), parts) == BadPath
  {
    if parts[0] != "" {
      NestRaises(parts[1..]);
    }
  }

  /** A projection raises on no document exactly when the path of no leaf that is read has an empty part. */
  lemma RaisesNothingIff(spec: Projection)
    ensures Readable(spec, "") <==> forall doc :: EvalExpr(BuildSqlite(spec, ""), doc).Some?
  {
    hide EvalExpr, BuildSqlite, Split;
    if Readable(spec, "") {
      forall doc
        ensures EvalExpr(BuildSqlite(spec, ""), doc).Some?
      {
        ReadableRaisesNothing(spec, "", doc);
      }
    } else {
      var ks :| ReadsAt(spec, ks) && !NoEmptyPart(PathFrom("", ks));
      var doc := Nest(Split(PathFrom("", ks), '.'));
      NestRaises(Split(PathFrom("", ks), '.'));
      LeafRaises(spec, "", ks, doc);
      assert EvalExpr(BuildSqlite(spec, ""), doc).None?;
    }
  }

  /** The projection `true`, which asks for the whole object, raises on every document. */
  lemma WholeObjectRaises(doc: Json)
    ensures !Readable(Include, "") && EvalExpr(BuildSqlite(Include, ""), doc) == None
  {
    assert ReadsAt(Include, []) && PathFrom("", []) == "";
    assert Split("", '.') == [""];
    assert "" in Split("", '.');
  }

  // ----- what is read at one leaf -----

  function LookupIn(v: Option<Json>, ks: seq<string>): Option<Json> {
    if v.None? then None else Lookup(v.value, ks)
  }

  lemma {:induction false} SqliteLeaf(spec: Projection, path: string, ks: seq<string>, doc: Json)
    requires ReadsAt(spec, ks) && EvalExpr(BuildSqlite(spec, path), doc).Some?
    ensures var leaf := EvalExpr(JsonExtract(PathFrom(path, ks)), doc);
      leaf.Some? && Lookup(EvalExpr(BuildSqlite(spec, path), doc).value, ks) == leaf
    decreases ks
  {
    if ks != [] {
      hide Extracted, BuildSqlite, EvalExpr, ChildPath;
      assert ks[0] in spec.fields && spec.fields != map[];
      SqliteMembers(spec.fields, path);
      ObjectValue(BuildSqlite(spec, path), doc);
      SqliteLeaf(spec.fields[ks[0]], ChildPath(path, ks[0]), ks[1..], doc);
    }
  }

  lemma {:induction false} PostgresLeaf(spec: Projection, path: string, ks: seq<string>, doc: Json)
    requires ReadsAt(spec, ks)
    ensures var whole := EvalExpr(BuildPostgres(spec, path), doc);
      whole.Some? ==> Lookup(whole.value, ks) == Some(OrNull(Lookup(doc, Split(PathFrom(path, ks), '.'))))
    decreases ks
  {
    if ks != [] {
      hide Split, BuildPostgres, EvalExpr, ChildPath;
      assert ks[0] in spec.fields && spec.fields != map[];
      PostgresMembers(spec.fields, path);
      ObjectValue(BuildPostgres(spec, path), doc);
      PostgresLeaf(spec.fields[ks[0]], ChildPath(path, ks[0]), ks[1..], doc);
    }
  }

  lemma {:induction false} PrunedLeaf(spec: Projection, v: Option<Json>, ks: seq<string>, leaf: Json -> Json)
    requires ReadsAt(spec, ks)
    ensures Lookup(Prune(spec, v, leaf), ks) == Some(leaf(OrNull(LookupIn(v, ks))))
    decreases ks
  {
    if ks != [] {
      PrunedLeaf(spec.fields[ks[0]], Member(v, ks[0]), ks[1..], leaf);
      assert ks[0] in spec.fields && spec.fields != map[];
    }
  }

  /** A document with one value, at the given keys. */
  function Nest(ks: seq<string>): Json {
    if ks == [] then JNumber(7) else JObject(map[ks[0] := Nest(ks[1..])])
  }

  lemma {:induction false} NestOnly(ks: seq<string>, parts: seq<string>)
    ensures Lookup(Nest(ks), parts) == Some(JNumber(7)) <==> parts == ks
    decreases ks
  {
    if ks != [] && parts != [] {
      NestOnly(ks[1..], parts[1..]);
      assert ks == [ks[0]] + ks[1..] && parts == [parts[0]] + parts[1..];
    }
  }

  /** A leaf whose path does not split back is read wrong, or raises, in some document, in both dialects. */
  lemma LeafReadWrong(spec: Projection, ks: seq<string>)
    requires ReadsAt(spec, ks) && Split(PathFrom("", ks), '.') != ks
    ensures EvalExpr(BuildSqlite(spec, ""), Nest(ks)) != Some(Prune(spec, Some(Nest(ks)), Number01))
    ensures EvalExpr(BuildPostgres(spec, ""), Nest(ks)) != Some(Prune(spec, Some(Nest(ks)), Same))
  {
    var parts := Split(PathFrom("", ks), '.');
    assert EvalExpr(JsonExtract(PathFrom("", ks)), Nest(ks)) != Some(JNumber(7)) by { LeafNotSeven(ks, parts); }
    hide Split, EvalExpr, BuildSqlite, BuildPostgres, Prune, Nest, Lookup;
    if EvalExpr(BuildSqlite(spec, ""), Nest(ks)).Some? {
      SqliteLeaf(spec, "", ks, Nest(ks));
    }
    PostgresLeaf(spec, "", ks, Nest(ks));
    PrunedLeaf(spec, Some(Nest(ks)), ks, Number01);
    PrunedLeaf(spec, Some(Nest(ks)), ks, Same);
    NestOnly(ks, ks);
    NestOnly(ks, parts);
  }

  lemma LeafNotSeven(ks: seq<string>, parts: seq<string>)
    requires parts != ks
    ensures SqliteLookup(Nest(ks), parts) != Found(JNumber(7))
  {
    if "" !in parts {
      ReadsLikeLookup(Nest(ks), parts);
      NestOnly(ks, parts);
    } else {
      EmptyPartNotFound(Nest(ks), parts);
    }
  }

  lemma {:induction false} EmptyPartNotFound(j: Json, parts: seq<string>)
    requires "" in parts
    ensures !SqliteLookup(j, parts).Found?
  {
    if parts[0] != "" && j.JObject? && parts[0] in j.fields {
      EmptyPartNotFound(j.fields[parts[0]], parts[1..]);
    }
  }

  // ----- which paths split back -----

  /** No key has a dot, and the first one is not empty unless it is the only one. */
  ghost predicate DotFreeKeys(ks: seq<string>) {
    (forall i :: 0 <= i < |ks| ==> Free(ks[i], '.')) && (|ks| == 1 || (ks != [] && ks[0] != ""))
  }

  lemma {:induction false} PathJoins(path: string, ks: seq<string>)
    requires path != ""
    ensures PathFrom(path, ks) == Join([path] + ks, '.')
    decreases ks
  {
    if ks == [] {
      assert [path] + ks == [path];
    } else {
      var next := path + "." + ks[0];
      PathJoins(next, ks[1..]);
      JoinTwo(path, ks);
      JoinTwo(next, ks[1..]);
      assert ks == [ks[0]] + ks[1..];
      JoinTwo(ks[0], ks[1..]);
    }
  }

  lemma JoinTwo(a: string, rest: seq<string>)
    ensures Join([a] + rest, '.') == if rest == [] then a else a + "." + Join(rest, '.')
  {
    assert ([a] + rest)[1..] == rest;
  }

  /** Empty keys at the front leave no trace in the path. */
  lemma {:induction false} PathAtMost(ks: seq<string>)
    requires ks != []
    ensures |PathFrom("", ks)| <= |Join(ks, '.')|
    ensures ks[0] != "" || |ks| == 1 ==> PathFrom("", ks) == Join(ks, '.')
    ensures ks[0] == "" && |ks| > 1 ==> |PathFrom("", ks)| < |Join(ks, '.')|
    decreases ks
  {
    assert ks == [ks[0]] + ks[1..];
    JoinTwo(ks[0], ks[1..]);
    if ks[0] != "" {
      PathJoins(ks[0], ks[1..]);
    } else if |ks| > 1 {
      PathAtMost(ks[1..]);
    }
  }

  lemma PathSplitsBackIff(ks: seq<string>)
    requires ks != []
    ensures Split(PathFrom("", ks), '.') == ks <==> DotFreeKeys(ks)
  {
    hide Split, Join, PathFrom;
    PathAtMost(ks);
    if DotFreeKeys(ks) {
      SplitJoin(ks, '.');
    }
    JoinSplit(PathFrom("", ks), '.');
  }

  // ----- the meaning of a projection -----

  /** SQLite: every key on the way to a leaf that is read is non-empty and has no dot. */
  ghost predicate SqlitePlain(spec: Projection) {
    forall ks :: ReadsAt(spec, ks) ==> ks != [] && forall i :: 0 <= i < |ks| ==> PlainKey(ks[i])
  }

  /** Postgres: no such key has a dot, and no such way of several keys starts with an empty one. */
  ghost predicate PostgresPlain(spec: Projection) {
    forall ks :: ReadsAt(spec, ks) ==> DotFreeKeys(ks)
  }

  lemma NothingSplitsBack(ks: seq<string>)
    ensures ks == [] ==> Split(PathFrom("", ks), '.') != ks
  {
  }

  lemma SqlitePlainReads(spec: Projection, doc: Json)
    requires SqlitePlain(spec)
    ensures EvalExpr(BuildSqlite(spec, ""), doc) == Some(Prune(spec, Some(doc), Number01))
  {
    hide Split, PathFrom, EvalExpr, BuildSqlite, Prune;
    forall ks | ReadsAt(spec, ks)
      ensures Split(PathFrom("", ks), '.') == [] + ks && NoEmptyPart(PathFrom("", ks))
    {
      PathSplitsBackIff(ks);
      assert [] + ks == ks;
    }
    assert Lookup(doc, []) == Some(doc);
    SqliteComputes(spec, "", [], doc);
  }

  lemma PostgresPlainReads(spec: Projection, doc: Json)
    requires PostgresPlain(spec)
    ensures EvalExpr(BuildPostgres(spec, ""), doc) == Some(Prune(spec, Some(doc), Same))
  {
    hide Split, PathFrom, EvalExpr, BuildPostgres, Prune;
    forall ks | ReadsAt(spec, ks)
      ensures Split(PathFrom("", ks), '.') == [] + ks
    {
      PathSplitsBackIff(ks);
      assert [] + ks == ks;
    }
    assert Lookup(doc, []) == Some(doc);
    PostgresComputes(spec, "", [], doc);
  }

  /** For a projection with plain keys both dialects raise nothing and compute the same pruning of any
      document (SQLite with boolean leaves read as 0 or 1). */
  lemma ProjectionMeaning(spec: Projection, doc: Json)
    requires SqlitePlain(spec)
    ensures EvalExpr(BuildSqlite(spec, ""), doc) == Some(Prune(spec, Some(doc), Number01))
    ensures EvalExpr(BuildPostgres(spec, ""), doc) == Some(Prune(spec, Some(doc), Same))
  {
    SqlitePlainReads(spec, doc);
    PostgresPlainReads(spec, doc);
  }

  /** On SQLite a projection raises nothing and is right for every document exactly when every key on the
      way to a leaf that is read is non-empty and has no dot. */
  lemma SqliteRightIff(spec: Projection)
    ensures SqlitePlain(spec)
            <==> forall doc :: EvalExpr(BuildSqlite(spec, ""), doc) == Some(Prune(spec, Some(doc), Number01))
  {
    hide Split, EvalExpr, BuildSqlite, Prune, PathFrom;
    if SqlitePlain(spec) {
      forall doc
        ensures EvalExpr(BuildSqlite(spec, ""), doc) == Some(Prune(spec, Some(doc), Number01))
      {
        SqlitePlainReads(spec, doc);
      }
    } else {
      var ks :| ReadsAt(spec, ks) && !(ks != [] && forall i :: 0 <= i < |ks| ==> PlainKey(ks[i]));
      NothingSplitsBack(ks);
      if Split(PathFrom("", ks), '.') != ks {
        LeafReadWrong(spec, ks);
      } else {
        PathSplitsBackIff(ks);
        assert "" in ks;
        NestRaises(ks);
        LeafRaises(spec, "", ks, Nest(ks));
      }
      assert EvalExpr(BuildSqlite(spec, ""), Nest(ks)) != Some(Prune(spec, Some(Nest(ks)), Number01));
    }
  }

  /** On Postgres, exactly when no such key has a dot and no such way of several keys starts with an
      empty one. */
  lemma PostgresRightIff(spec: Projection)
    ensures PostgresPlain(spec)
            <==> forall doc :: EvalExpr(BuildPostgres(spec, ""), doc) == Some(Prune(spec, Some(doc), Same))
  {
    hide Split, EvalExpr, BuildPostgres, Prune, PathFrom;
    if PostgresPlain(spec) {
      forall doc
        ensures EvalExpr(BuildPostgres(spec, ""), doc) == Some(Prune(spec, Some(doc), Same))
      {
        PostgresPlainReads(spec, doc);
      }
    } else {
      var ks :| ReadsAt(spec, ks) && !DotFreeKeys(ks);
      NothingSplitsBack(ks);
      if ks != [] {
        PathSplitsBackIff(ks);
      }
      LeafReadWrong(spec, ks);
    }
  }

  /** No leaf path of a projection has an empty part. */
  ghost predicate ProjectionReadable(p: Option<Projection>) {
    p.Some? ==> Readable(p.value, "")
  }

  /** The projected column of a row; without a projection it is the whole document. A readable projection
      has a value for every document. */
  function Projected(p: Option<Projection>, o: Obj): Json {
    if p.None? then o.doc else OrNull(EvalExpr(BuildSqlite(p.value, ""), o.doc))
  }

  /** The document that a shape shows of an object. */
  function DocumentFor(shape: Option<ObjectsSpec>, o: Obj): Json {
    if shape.Some? && shape.value.projection.Some? then Projected(shape.value.projection, o) else o.doc
  }

  /** The projected document of a row: the whole document without a projection, and otherwise the part that
      a projection with plain keys asks for. */
  lemma ProjectedDocument(p: Option<Projection>, o: Obj)
    ensures p == None ==> Projected(p, o) == o.doc
    ensures p.Some? && SqlitePlain(p.value) ==> Projected(p, o) == Prune(p.value, Some(o.doc), Number01)
  {
    hide EvalExpr, BuildSqlite, Prune, SqlitePlain;
    if p.Some? && SqlitePlain(p.value) {
      SqlitePlainReads(p.value, o.doc);
    }
  }

  /** A member that a projection asks for comes out as it is stored, null if it is missing; on SQLite a
      boolean comes out as the number 0 or 1. */
  lemma MemberProjected(key: string, fields: map<string, Json>)
    requires PlainKey(key)
    ensures var spec, doc := Fields(map[key := Include]), JObject(fields);
      && EvalExpr(BuildPostgres(spec, ""), doc)
         == Some(JObject(map[key := if key in fields then fields[key] else JNull]))
      && EvalExpr(BuildSqlite(spec, ""), doc)
         == Some(JObject(map[key := if key !in fields then JNull
                                    else if fields[key] == JBool(true) then JNumber(1)
                                    else if fields[key] == JBool(false) then JNumber(0)
                                    else fields[key]]))
  {
    hide EvalExpr, BuildSqlite, BuildPostgres;
    var spec, doc := Fields(map[key := Include]), JObject(fields);
    forall ks | ReadsAt(spec, ks)
      ensures ks == [key]
    {
      assert ks[0] == key && ReadsAt(Include, ks[1..]);
      assert ks == [ks[0]] + ks[1..];
    }
    ProjectionMeaning(spec, doc);
    PrunesOne(key, doc, Same);
    PrunesOne(key, doc, Number01);
  }

  lemma PrunesOne(key: string, doc: Json, leaf: Json -> Json)
    ensures Prune(Fields(map[key := Include]), Some(doc), leaf)
            == JObject(map[key := leaf(OrNull(Member(Some(doc), key)))])
  {
    var m := map[key := Include];
    assert (map k | k in m :: Prune(m[k], Member(Some(doc), k), leaf))
        == map[key := leaf(OrNull(Member(Some(doc), key)))];
  }
}
