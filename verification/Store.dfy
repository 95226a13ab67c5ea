/** The tables that synchronisation fills and garbage collection empties, with the upsert and
    delete semantics of the store. A database failure is the caller's `ok` being false. */
module Store {
  import opened Options
  import opened Text

  const SECOND := 1_000_000_000
  const DEFAULT_TTL := 3600

  datatype Status = Active | Stale

  datatype ClusterRow = ClusterRow(
    status: Status, lastSeen: int, engagedAt: Option<int>, labels: map<string, string>, ttl: int)

  /** The unique index of `objects`. */
  datatype ObjectKey = ObjectKey(cluster: string, apiGroup: string, kind: string, namespace: string, name: string)

  /** The primary key of `resource_types`. */
  datatype TypeKey = TypeKey(cluster: string, apiGroup: string, resource: string, identity: string)

  /** A stored object: its id and the columns an upsert replaces. */
  datatype Stored = Stored(id: string, columns: string)

  datatype Tables = Tables(
    objects: map<ObjectKey, Stored>, types: map<TypeKey, string>, clusters: map<string, ClusterRow>)

  const EMPTY := Tables(map[], map[], map[])

  // ----- the store's operations on tables -----

  /** On a key conflict the id is kept and the other columns are replaced. */
  function ObjectUpserted(t: Tables, key: ObjectKey, row: Stored): Tables {
    t.(objects := t.objects[key := if key in t.objects then t.objects[key].(columns := row.columns) else row])
  }

  function ObjectDeleted(t: Tables, key: ObjectKey): Tables {
    t.(objects := t.objects - {key})
  }

  function TypeUpserted(t: Tables, key: TypeKey, row: string): Tables {
    t.(types := t.types[key := row])
  }

  function ClusterUpserted(t: Tables, name: string, row: ClusterRow): Tables {
    t.(clusters := t.clusters[name := row])
  }

  function ObjectsCleared(t: Tables, cluster: string): Tables {
    t.(objects := map k | k in t.objects && k.cluster != cluster :: t.objects[k])
  }

  function TypesCleared(t: Tables, cluster: string): Tables {
    t.(types := map k | k in t.types && k.cluster != cluster :: t.types[k])
  }

  function ClusterDeleted(t: Tables, name: string): Tables {
    t.(clusters := t.clusters - {name})
  }

  /** The row of this key is there in both tables, with the same content, or in neither. */
  predicate SameObject(t: Tables, u: Tables, k: ObjectKey) {
    (k in t.objects <==> k in u.objects) && (k in t.objects ==> t.objects[k] == u.objects[k])
  }

  predicate SameCluster(t: Tables, u: Tables, c: string) {
    (c in t.clusters <==> c in u.clusters) && (c in t.clusters ==> t.clusters[c] == u.clusters[c])
  }

  /** The clusters that garbage collection looks at: stale and last seen before `now`. */
  function StaleClusters(t: Tables, now: int): set<string> {
    set c | c in t.clusters && t.clusters[c].status == Stale && t.clusters[c].lastSeen < now
  }

  /** Tables that keep exactly the objects of other clusters, and everything else. */
  lemma ClearedObjects(t: Tables, u: Tables, cluster: string)
    requires u.types == t.types && u.clusters == t.clusters
    requires forall k :: k in u.objects <==> k in t.objects && k.cluster != cluster
    requires forall k :: k in u.objects ==> u.objects[k] == t.objects[k]
    ensures u == ObjectsCleared(t, cluster)
  {
    assert u.objects == ObjectsCleared(t, cluster).objects;
  }

  lemma ClearedTypes(t: Tables, u: Tables, cluster: string)
    requires u.objects == t.objects && u.clusters == t.clusters
    requires forall k :: k in u.types <==> k in t.types && k.cluster != cluster
    requires forall k :: k in u.types ==> u.types[k] == t.types[k]
    ensures u == TypesCleared(t, cluster)
  {
    assert u.types == TypesCleared(t, cluster).types;
  }

  class Database {
    var tables: Tables

    constructor ()
      ensures tables == EMPTY
    {
      tables := EMPTY;
    }

    method UpsertObject(key: ObjectKey, row: Stored, ok: bool) returns (done: bool)
      modifies this
      ensures done == ok && tables == if ok then ObjectUpserted(old(tables), key, row) else old(tables)
      ensures ok ==> key in tables.objects && tables.objects[key].columns == row.columns
      ensures ok && key in old(tables).objects ==> tables.objects[key].id == old(tables).objects[key].id
      ensures ok && key !in old(tables).objects ==> tables.objects[key].id == row.id
      ensures forall k :: k != key ==> SameObject(old(tables), tables, k)
      ensures tables.types == old(tables).types && tables.clusters == old(tables).clusters
    {
      if ok {
        if key in tables.objects {
          tables := tables.(objects := tables.objects[key := tables.objects[key].(columns := row.columns)]);
        } else {
          tables := tables.(objects := tables.objects[key := row]);
        }
      }
      done := ok;
    }

    method DeleteObject(key: ObjectKey, ok: bool) returns (done: bool)
      modifies this
      ensures done == ok && tables == if ok then ObjectDeleted(old(tables), key) else old(tables)
      ensures ok ==> key !in tables.objects
      ensures forall k :: k != key ==> SameObject(old(tables), tables, k)
      ensures tables.types == old(tables).types && tables.clusters == old(tables).clusters
    {
      if ok {
        tables := tables.(objects := tables.objects - {key});
      }
      done := ok;
    }

    method UpsertResourceType(key: TypeKey, row: string, ok: bool) returns (done: bool)
      modifies this
      ensures done == ok && tables == if ok then TypeUpserted(old(tables), key, row) else old(tables)
      ensures ok ==> key in tables.types && tables.types[key] == row
      ensures forall k :: k != key ==> (k in tables.types <==> k in old(tables).types)
      ensures forall k :: k != key && k in tables.types ==> tables.types[k] == old(tables).types[k]
      ensures tables.objects == old(tables).objects && tables.clusters == old(tables).clusters
    {
      if ok {
        tables := tables.(types := tables.types[key := row]);
      }
      done := ok;
    }

    method UpsertCluster(name: string, row: ClusterRow, ok: bool) returns (done: bool)
      modifies this
      ensures done == ok && tables == if ok then ClusterUpserted(old(tables), name, row) else old(tables)
      ensures ok ==> name in tables.clusters && tables.clusters[name] == row
      ensures forall c :: c != name ==> SameCluster(old(tables), tables, c)
      ensures tables.objects == old(tables).objects && tables.types == old(tables).types
    {
      if ok {
        tables := tables.(clusters := tables.clusters[name := row]);
      }
      done := ok;
    }

    /** An object's row stays exactly if the delete failed or the object is of another cluster; the rows
        that stay, resource types and clusters are untouched. */
    method DeleteObjectsForCluster(cluster: string, ok: bool) returns (done: bool)
      modifies this
      ensures done == ok && tables.types == old(tables).types && tables.clusters == old(tables).clusters
      ensures forall k :: k in tables.objects <==> k in old(tables).objects && !(ok && k.cluster == cluster)
      ensures forall k :: k in tables.objects ==> tables.objects[k] == old(tables).objects[k]
    {
      if ok {
        var kept := set k | k in tables.objects && k.cluster != cluster;
        tables := tables.(objects := map k | k in kept :: tables.objects[k]);
      }
      done := ok;
    }

    /** The same for resource types. */
    method DeleteResourceTypesForCluster(cluster: string, ok: bool) returns (done: bool)
      modifies this
      ensures done == ok && tables.objects == old(tables).objects && tables.clusters == old(tables).clusters
      ensures forall k :: k in tables.types <==> k in old(tables).types && !(ok && k.cluster == cluster)
      ensures forall k :: k in tables.types ==> tables.types[k] == old(tables).types[k]
    {
      if ok {
        var kept := set k | k in tables.types && k.cluster != cluster;
        tables := tables.(types := map k | k in kept :: tables.types[k]);
      }
      done := ok;
    }

    method DeleteCluster(name: string, ok: bool) returns (done: bool)
      modifies this
      ensures done == ok && tables == if ok then ClusterDeleted(old(tables), name) else old(tables)
      ensures ok ==> name !in tables.clusters
      ensures forall c :: c != name ==> SameCluster(old(tables), tables, c)
      ensures tables.objects == old(tables).objects && tables.types == old(tables).types
    {
      if ok {
        tables := tables.(clusters := tables.clusters - {name});
      }
      done := ok;
    }
  }

  // ----- object ids -----

  /** The text an object's id is derived from. */
  function IdKey(k: ObjectKey): string {
    k.cluster + "/" + k.apiGroup + "/" + k.kind + "/" + k.namespace + "/" + k.name
  }

  predicate SlashFree(k: ObjectKey) {
    Free(k.cluster, '/') && Free(k.apiGroup, '/') && Free(k.kind, '/') && Free(k.namespace, '/') && Free(k.name, '/')
  }

  lemma IdKeyParts(k: ObjectKey)
    requires SlashFree(k)
    ensures Split(IdKey(k), '/') == [k.cluster, k.apiGroup, k.kind, k.namespace, k.name]
  {
    hide Split;
    var a := k.cluster + "/" + k.apiGroup;
    var b := a + "/" + k.kind;
    var c := b + "/" + k.namespace;
    SplitConcat(k.cluster, k.apiGroup, '/');
    SplitConcat(a, k.kind, '/');
    SplitConcat(b, k.namespace, '/');
    SplitConcat(c, k.name, '/');
    SplitFree(k.cluster, '/');
    SplitFree(k.apiGroup, '/');
    SplitFree(k.kind, '/');
    SplitFree(k.namespace, '/');
    SplitFree(k.name, '/');
  }

  /** Different objects get different id texts, if no part of their keys contains a slash. */
  lemma IdKeyInjective(a: ObjectKey, b: ObjectKey)
    requires SlashFree(a) && SlashFree(b) && IdKey(a) == IdKey(b)
    ensures a == b
  {
    hide Split, IdKey;
    IdKeyParts(a);
    IdKeyParts(b);
    var x := [a.cluster, a.apiGroup, a.kind, a.namespace, a.name];
    var y := [b.cluster, b.apiGroup, b.kind, b.namespace, b.name];
    assert x == y;
    assert x[0] == y[0] && x[1] == y[1] && x[2] == y[2] && x[3] == y[3] && x[4] == y[4];
  }
}
