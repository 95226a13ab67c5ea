/** Cluster lifecycle: engaging, disengaging, object events and garbage collection, as the classes
    that perform them and as a state machine whose every run is safe. */
module Lifecycle {
  import opened Options
  import opened Store

  // ----- steps on the tables -----

  function EngagedRow(now: int): ClusterRow {
    ClusterRow(Active, now, Some(now), map[], DEFAULT_TTL)
  }

  /** Disengaging gives no time to live, so the column default applies; labels are cleared. */
  function StaleRow(now: int): ClusterRow {
    ClusterRow(Stale, now, None, map[], DEFAULT_TTL)
  }

  /** What discovery reports: a failure, or resources each with whether its row could be written. */
  datatype Found = Found(key: TypeKey, row: string, ok: bool)

  datatype Discovery = Unreachable | Listed(clearOk: bool, found: seq<Found>)

  function TypesAdded(t: Tables, cluster: string, found: seq<Found>): Tables {
    if found == [] then t
    else
      var before := TypesAdded(t, cluster, found[..|found| - 1]);
      var last := found[|found| - 1];
      if last.ok then TypeUpserted(before, last.key.(cluster := cluster), last.row) else before
  }

  /** Discovery clears the cluster's resource types and writes the reported ones. */
  function Discovered(t: Tables, cluster: string, d: Discovery): Tables {
    if d.Listed? && d.clearOk then TypesAdded(TypesCleared(t, cluster), cluster, d.found) else t
  }

  lemma DiscoveredClusters(t: Tables, cluster: string, d: Discovery)
    ensures Discovered(t, cluster, d).clusters == t.clusters && Discovered(t, cluster, d).objects == t.objects
  {
    if d.Listed? && d.clearOk {
      AddedClusters(TypesCleared(t, cluster), cluster, d.found);
    }
  }

  lemma {:induction false} AddedClusters(t: Tables, cluster: string, found: seq<Found>)
    ensures TypesAdded(t, cluster, found).clusters == t.clusters && TypesAdded(t, cluster, found).objects == t.objects
  {
    if found != [] {
      AddedClusters(t, cluster, found[..|found| - 1]);
    }
  }

  /** Finding `i` is the last one with this key that could be written. */
  ghost predicate LastWritten(found: seq<Found>, cluster: string, k: TypeKey, i: int) {
    && 0 <= i < |found| && found[i].ok && found[i].key.(cluster := cluster) == k
    && forall j :: i < j < |found| && found[j].ok ==> found[j].key.(cluster := cluster) != k
  }

  lemma {:induction false} TypesAddedExactly(t: Tables, cluster: string, found: seq<Found>, k: TypeKey)
    ensures TypesAdded(t, cluster, found).objects == t.objects && TypesAdded(t, cluster, found).clusters == t.clusters
    ensures forall i :: LastWritten(found, cluster, k, i)
              ==> k in TypesAdded(t, cluster, found).types && TypesAdded(t, cluster, found).types[k] == found[i].row
    ensures (forall i :: !LastWritten(found, cluster, k, i))
            ==> && (k in TypesAdded(t, cluster, found).types <==> k in t.types)
                && (k in t.types ==> TypesAdded(t, cluster, found).types[k] == t.types[k])
  {
    if found != [] {
      var n := |found| - 1;
      var init, last := found[..n], found[n];
      TypesAddedExactly(t, cluster, init, k);
      if last.ok && last.key.(cluster := cluster) == k {
        assert LastWritten(found, cluster, k, n);
      } else {
        assert forall i :: LastWritten(found, cluster, k, i) <==> LastWritten(init, cluster, k, i);
      }
    }
  }

  /** After discovery that could list and clear, the cluster has exactly the resource types that could be
      written, each as reported last; other clusters keep theirs, and nothing else changes. */
  lemma DiscoveredExactly(t: Tables, cluster: string, d: Discovery, k: TypeKey)
    requires d.Listed? && d.clearOk
    ensures Discovered(t, cluster, d).objects == t.objects && Discovered(t, cluster, d).clusters == t.clusters
    ensures var types := Discovered(t, cluster, d).types;
      if k.cluster == cluster then
        && (k in types <==> exists i :: LastWritten(d.found, cluster, k, i))
        && (forall i :: LastWritten(d.found, cluster, k, i) ==> k in types && types[k] == d.found[i].row)
      else (k in types <==> k in t.types) && (k in types ==> types[k] == t.types[k])
  {
    TypesAddedExactly(TypesCleared(t, cluster), cluster, d.found, k);
  }

  /** Which deletes of one cluster succeed. */
  datatype GcOutcome = GcOutcome(objects: bool, types: bool, cluster: bool)

  /** Deletes in order, each only if those before it succeeded. */
  function Removed(t: Tables, cluster: string, o: GcOutcome): Tables {
    if !o.objects then t
    else
      var t1 := ObjectsCleared(t, cluster);
      if !o.types then t1
      else
        var t2 := TypesCleared(t1, cluster);
        if !o.cluster then t2 else ClusterDeleted(t2, cluster)
  }

  /** The time to live has passed. */
  predicate Expired(row: ClusterRow, now: int) {
    !(now < row.lastSeen + row.ttl * SECOND)
  }

  // ----- the classes -----

  class SyncController {
    const store: Database
    var clusters: set<string>

    constructor (store: Database)
      ensures this.store == store && clusters == {}
    {
      this.store := store;
      clusters := {};
    }

    /** Marks the cluster active, then discovers its resources; only then does it count as engaged. */
    method Engage(now: int, name: string, upsertOk: bool, discovery: Discovery, clientOk: bool) returns (ok: bool)
      modifies this, store
      ensures ok == (upsertOk && discovery.Listed? && discovery.clearOk && clientOk)
      ensures clusters == if ok then old(clusters) + {name} else old(clusters) - {name}
      ensures store.tables ==
              if upsertOk then Discovered(ClusterUpserted(old(store.tables), name, EngagedRow(now)), name, discovery)
                              else old(store.tables)
      ensures store.tables.clusters ==
              if upsertOk then old(store.tables).clusters[name := ClusterRow(Active, now, Some(now), map[], 3600)]
                              else old(store.tables).clusters
    {
      if name in clusters {
        clusters := clusters - {name};
      }
      var done := store.UpsertCluster(name, EngagedRow(now), upsertOk);
      if !done {
        return false;
      }
      var found := RunDiscovery(name, discovery);
      if !found || !clientOk {
        return false;
      }
      clusters := clusters + {name};
      ok := true;
    }

    method RunDiscovery(name: string, discovery: Discovery) returns (ok: bool)
      modifies store
      ensures ok == (discovery.Listed? && discovery.clearOk)
      ensures store.tables.objects == old(store.tables).objects && store.tables.clusters == old(store.tables).clusters
      ensures store.tables == Discovered(old(store.tables), name, discovery)
    {
      if discovery.Unreachable? {
        return false;
      }
      ghost var before := store.tables;
      var cleared := store.DeleteResourceTypesForCluster(name, discovery.clearOk);
      if !cleared {
        assert store.tables.types == before.types;
        return false;
      }
      ClearedTypes(before, store.tables, name);
      ghost var base := store.tables;
      var found := discovery.found;
      var i := 0;
      while i < |found|
        invariant 0 <= i <= |found|
        invariant store.tables == TypesAdded(base, name, found[..i])
      {
        var done := store.UpsertResourceType(found[i].key.(cluster := name), found[i].row, found[i].ok);
        assert found[..i + 1][..i] == found[..i];
        i := i + 1;
      }
      assert found[..i] == found;
      AddedClusters(base, name, found);
      ok := true;
    }

    method Disengage(now: int, name: string, upsertOk: bool) returns (ok: bool)
      modifies this, store
      ensures ok == upsertOk && clusters == old(clusters) - {name}
      ensures store.tables == if upsertOk then ClusterUpserted(old(store.tables), name, StaleRow(now))
                                else old(store.tables)
      ensures store.tables.clusters ==
              if upsertOk then old(store.tables).clusters[name := ClusterRow(Stale, now, None, map[], 3600)]
                              else old(store.tables).clusters
    {
      if name in clusters {
        clusters := clusters - {name};
      }
      ok := store.UpsertCluster(name, StaleRow(now), upsertOk);
    }
  }

  /** The handler of one cluster's object events. */
  class EventHandler {
    const store: Database
    const cluster: string

    constructor (store: Database, cluster: string)
      ensures this.store == store && this.cluster == cluster
    {
      this.store := store;
      this.cluster := cluster;
    }

    method Upsert(key: ObjectKey, columns: string, ok: bool)
      modifies store
      ensures store.tables == Upserted(old(store.tables), cluster, key, columns, ok)
      ensures var own := key.(cluster := cluster);
        && (ok ==> own in store.tables.objects && store.tables.objects[own].columns == columns)
        && (ok && own !in old(store.tables).objects ==> store.tables.objects[own].id == IdKey(own))
        && (ok && own in old(store.tables).objects
            ==> store.tables.objects[own].id == old(store.tables).objects[own].id)
        && forall k :: k != own ==> SameObject(old(store.tables), store.tables, k)
    {
      var own := key.(cluster := cluster);
      var done := store.UpsertObject(own, Stored(IdKey(own), columns), ok);
    }

    method OnDelete(key: ObjectKey, ok: bool)
      modifies store
      ensures store.tables == if ok then ObjectDeleted(old(store.tables), key.(cluster := cluster))
                                else old(store.tables)
      ensures ok ==> key.(cluster := cluster) !in store.tables.objects
      ensures forall k :: k != key.(cluster := cluster) ==> SameObject(old(store.tables), store.tables, k)
    {
      var done := store.DeleteObject(key.(cluster := cluster), ok);
    }
  }

  /** An add or update event: the object's row under this cluster, its id derived from its key. */
  function Upserted(t: Tables, cluster: string, key: ObjectKey, columns: string, ok: bool): Tables {
    var own := key.(cluster := cluster);
    if ok then ObjectUpserted(t, own, Stored(IdKey(own), columns)) else t
  }

  function OutcomeFor(outcomes: map<string, GcOutcome>, c: string): GcOutcome {
    if c in outcomes then outcomes[c] else GcOutcome(true, true, true)
  }

  /** The clusters a collection pass at `now` removes, as far as the deletes succeed. */
  function ExpiredClusters(t: Tables, now: int): set<string> {
    set c | c in StaleClusters(t, now) && Expired(t.clusters[c], now)
  }

  /** All deletes of `c` up to the given one have succeeded. */
  predicate ObjectsGone(done: set<string>, outcomes: map<string, GcOutcome>, c: string) {
    c in done && OutcomeFor(outcomes, c).objects
  }

  predicate TypesGone(done: set<string>, outcomes: map<string, GcOutcome>, c: string) {
    ObjectsGone(done, outcomes, c) && OutcomeFor(outcomes, c).types
  }

  predicate ClusterGone(done: set<string>, outcomes: map<string, GcOutcome>, c: string) {
    TypesGone(done, outcomes, c) && OutcomeFor(outcomes, c).cluster
  }

  function KeptObjects(m: map<ObjectKey, Stored>, done: set<string>, outcomes: map<string, GcOutcome>)
    : map<ObjectKey, Stored>
  {
    map k | k in m && !ObjectsGone(done, outcomes, k.cluster) :: m[k]
  }

  function KeptTypes(m: map<TypeKey, string>, done: set<string>, outcomes: map<string, GcOutcome>)
    : map<TypeKey, string>
  {
    map k | k in m && !TypesGone(done, outcomes, k.cluster) :: m[k]
  }

  function KeptClusters(m: map<string, ClusterRow>, done: set<string>, outcomes: map<string, GcOutcome>)
    : map<string, ClusterRow>
  {
    map c | c in m && !ClusterGone(done, outcomes, c) :: m[c]
  }

  /** The tables after a pass over the clusters in `done`, in closed form. */
  function Collected(t: Tables, done: set<string>, outcomes: map<string, GcOutcome>): Tables {
    Tables(KeptObjects(t.objects, done, outcomes), KeptTypes(t.types, done, outcomes),
           KeptClusters(t.clusters, done, outcomes))
  }

  lemma ObjectsOneMore(t: Tables, done: set<string>, c: string, outcomes: map<string, GcOutcome>)
    requires c !in done
    ensures Removed(Collected(t, done, outcomes), c, OutcomeFor(outcomes, c)).objects
            == KeptObjects(t.objects, done + {c}, outcomes)
  {
    hide KeptTypes, KeptClusters;
  }

  lemma TypesOneMore(t: Tables, done: set<string>, c: string, outcomes: map<string, GcOutcome>)
    requires c !in done
    ensures Removed(Collected(t, done, outcomes), c, OutcomeFor(outcomes, c)).types
            == KeptTypes(t.types, done + {c}, outcomes)
  {
    hide KeptObjects, KeptClusters;
  }

  lemma ClustersOneMore(t: Tables, done: set<string>, c: string, outcomes: map<string, GcOutcome>)
    requires c !in done
    ensures Removed(Collected(t, done, outcomes), c, OutcomeFor(outcomes, c)).clusters
            == KeptClusters(t.clusters, done + {c}, outcomes)
  {
    hide KeptTypes, KeptObjects;
  }

  lemma CollectedOneMore(t: Tables, done: set<string>, c: string, outcomes: map<string, GcOutcome>)
    requires c !in done
    ensures Removed(Collected(t, done, outcomes), c, OutcomeFor(outcomes, c)) == Collected(t, done + {c}, outcomes)
  {
    hide KeptTypes, KeptObjects, KeptClusters, Removed;
    ObjectsOneMore(t, done, c, outcomes);
    TypesOneMore(t, done, c, outcomes);
    ClustersOneMore(t, done, c, outcomes);
  }

  lemma CollectedNone(t: Tables, outcomes: map<string, GcOutcome>)
    ensures Collected(t, {}, outcomes) == t
  {
    var a := Collected(t, {}, outcomes);
    assert a.objects == t.objects && a.types == t.types && a.clusters == t.clusters;
  }

  class GarbageCollector {
    const store: Database

    constructor (store: Database)
      ensures this.store == store
    {
      this.store := store;
    }

    /** One pass. Each delete may fail; a failure ends the work on that cluster only. */
    method Collect(now: int, listOk: bool, outcomes: map<string, GcOutcome>)
      modifies store
      ensures store.tables ==
              if listOk then Collected(old(store.tables), ExpiredClusters(old(store.tables), now), outcomes)
              else old(store.tables)
    {
      if !listOk {
        return;
      }
      ghost var t := store.tables;
      var rows := store.tables.clusters;
      var todo := StaleClusters(store.tables, now);
      ghost var done: set<string> := {};
      CollectedNone(t, outcomes);
      while todo != {}
        invariant todo <= StaleClusters(t, now) && rows == t.clusters
        invariant done == set c | c in ExpiredClusters(t, now) && c !in todo
        invariant store.tables == Collected(t, done, outcomes)
        decreases |todo|
      {
        var c :| c in todo;
        todo := todo - {c};
        if Expired(rows[c], now) {
          hide Collected, Removed;
          CollectedOneMore(t, done, c, outcomes);
          RemoveCluster(c, OutcomeFor(outcomes, c));
          done := done + {c};
        }
      }
      assert done == ExpiredClusters(t, now);
    }

    method RemoveCluster(name: string, outcome: GcOutcome)
      modifies store
      ensures store.tables == Removed(old(store.tables), name, outcome)
    {
      ghost var t := store.tables;
      var ok := store.DeleteObjectsForCluster(name, outcome.objects);
      if !ok {
        assert store.tables.objects == t.objects;
        return;
      }
      ClearedObjects(t, store.tables, name);
      ghost var t1 := store.tables;
      ok := store.DeleteResourceTypesForCluster(name, outcome.types);
      if !ok {
        assert store.tables.types == t1.types;
        return;
      }
      ClearedTypes(t1, store.tables, name);
      ok := store.DeleteCluster(name, outcome.cluster);
    }
  }

  /** Each object and resource-type row belongs to an existing cluster row. */
  ghost predicate Owned(t: Tables) {
    && (forall k :: k in t.objects ==> k.cluster in t.clusters)
    && (forall k :: k in t.types ==> k.cluster in t.clusters)
  }

  ghost predicate NoRowsOf(t: Tables, c: string) {
    && c !in t.clusters
    && (forall k :: k in t.objects ==> k.cluster != c)
    && (forall k :: k in t.types ==> k.cluster != c)
  }

  /** The rows of `c` are the same in both tables. */
  ghost predicate SameRowsOf(t: Tables, u: Tables, c: string) {
    && (c in t.clusters <==> c in u.clusters) && (c in t.clusters ==> t.clusters[c] == u.clusters[c])
    && (forall k: ObjectKey :: k.cluster == c
          ==> (k in t.objects <==> k in u.objects) && (k in t.objects ==> t.objects[k] == u.objects[k]))
    && (forall k: TypeKey :: k.cluster == c
          ==> (k in t.types <==> k in u.types) && (k in t.types ==> t.types[k] == u.types[k]))
  }

  /** What an undisturbed pass without failures removes: all rows of the clusters that are stale, were last
      seen before now, and whose time to live in seconds has passed since. Everything else stays. */
  lemma CleanPassExactly(t: Tables, now: int, c: string)
    requires Owned(t)
    ensures var u := Collected(t, ExpiredClusters(t, now), map[]);
      if c in t.clusters && t.clusters[c].status == Stale && t.clusters[c].lastSeen < now
         && t.clusters[c].lastSeen + t.clusters[c].ttl * 1_000_000_000 <= now
      then NoRowsOf(u, c) else SameRowsOf(t, u, c)
  {
  }

  /** So a cluster that is disengaged is removed by the first clean pass one hour later or after, and by no
      earlier one. */
  lemma RemovedAfterAnHour(t: Tables, c: string, disengaged: int, now: int)
    requires Owned(t)
    ensures var stale := ClusterUpserted(t, c, StaleRow(disengaged));
      var u := Collected(stale, ExpiredClusters(stale, now), map[]);
      if now >= disengaged + 3600 * 1_000_000_000 then NoRowsOf(u, c) else SameRowsOf(stale, u, c)
  {
    hide Collected, ExpiredClusters, NoRowsOf, SameRowsOf, Owned;
    UpsertKeepsOwned(t, c, StaleRow(disengaged));
    CleanPassExactly(ClusterUpserted(t, c, StaleRow(disengaged)), now, c);
  }

  /** A pass changes only expired stale clusters, and keeps every row's cluster, whatever fails. */
  lemma PassIsSafe(t: Tables, now: int, outcomes: map<string, GcOutcome>, c: string)
    requires Owned(t)
    ensures Owned(Collected(t, ExpiredClusters(t, now), outcomes))
    ensures !(c in t.clusters && t.clusters[c].status == Stale && Expired(t.clusters[c], now)) ==>
              SameRowsOf(t, Collected(t, ExpiredClusters(t, now), outcomes), c)
  {
  }

  /** Partial failure is repaired: whatever failed in one pass, a later pass in which nothing fails
      leaves no row of any cluster that had expired before the first. */
  lemma FailedPassIsRepaired(t: Tables, now: int, outcomes: map<string, GcOutcome>, later: int, c: string)
    requires Owned(t) && now <= later && c in ExpiredClusters(t, now)
    ensures var first := Collected(t, ExpiredClusters(t, now), outcomes);
      NoRowsOf(Collected(first, ExpiredClusters(first, later), map[]), c)
  {
    var first := Collected(t, ExpiredClusters(t, now), outcomes);
    if c in first.clusters {
      assert first.clusters[c] == t.clusters[c];
      assert c in ExpiredClusters(first, later);
    } else {
      assert ClusterGone(ExpiredClusters(t, now), outcomes, c);
    }
  }

  // ----- interleaved runs -----

  /** A stale cluster as garbage collection read it when it listed the stale clusters. */
  datatype Snapshot = Snapshot(name: string, row: ClusterRow)

  /** The whole system: tables, engaged clusters, and the clusters a running collection pass, begun
      at `gcNow`, has still to look at. */
  datatype Sys = Sys(tables: Tables, engaged: set<string>, pending: seq<Snapshot>, gcNow: int)

  datatype Step =
    | Engage(now: int, name: string, upsertOk: bool, discovery: Discovery, clientOk: bool)
    | Disengage(now: int, name: string, upsertOk: bool)
    | Upsert(cluster: string, key: ObjectKey, columns: string, ok: bool)
    | Delete(cluster: string, key: ObjectKey, ok: bool)
    | Refresh(cluster: string, discovery: Discovery)
    | GcList(now: int, order: seq<string>)
    | GcNext(outcome: GcOutcome)

  const INIT := Sys(EMPTY, {}, [], 0)

  function Snapshots(t: Tables, order: seq<string>): seq<Snapshot>
    requires forall c :: c in order ==> c in t.clusters
  {
    if order == [] then []
    else Snapshots(t, order[..|order| - 1]) + [Snapshot(order[|order| - 1], t.clusters[order[|order| - 1]])]
  }

  ghost predicate IsPending(s: Sys, c: string) {
    exists i :: 0 <= i < |s.pending| && s.pending[i].name == c
  }

  /** When the code can take a step: events only while engaged, and one collection pass at a time. */
  ghost predicate Possible(s: Sys, step: Step) {
    match step
    case Engage(_, _, _, _, _) => true
    case Disengage(_, _, _) => true
    case Upsert(cluster, _, _, _) => cluster in s.engaged
    case Delete(cluster, _, _) => cluster in s.engaged
    case Refresh(cluster, _) => cluster in s.engaged
    case GcList(now, order) =>
      s.pending == [] && (forall c :: c in order <==> c in StaleClusters(s.tables, now))
      && (forall i, j :: 0 <= i < j < |order| ==> order[i] != order[j])
    case GcNext(_) => s.pending != []
  }

  /** Serialised per cluster: no engaging or disengaging of a cluster that the running pass has still
      to look at. Nothing in the code ensures this. */
  ghost predicate Enabled(s: Sys, step: Step) {
    Possible(s, step) && (step.Engage? || step.Disengage? ==> !IsPending(s, step.name))
  }

  ghost function Next(s: Sys, step: Step): Sys
    requires Possible(s, step)
  {
    match step
    case Engage(now, name, upsertOk, discovery, clientOk) =>
      var ok := upsertOk && discovery.Listed? && discovery.clearOk && clientOk;
      s.(tables := if upsertOk then Discovered(ClusterUpserted(s.tables, name, EngagedRow(now)), name, discovery)
                     else s.tables,
         engaged := if ok then s.engaged + {name} else s.engaged - {name})
    case Disengage(now, name, upsertOk) =>
      s.(tables := if upsertOk then ClusterUpserted(s.tables, name, StaleRow(now))
                     else s.tables, engaged := s.engaged - {name})
    case Upsert(cluster, key, columns, ok) => s.(tables := Upserted(s.tables, cluster, key, columns, ok))
    case Delete(cluster, key, ok) =>
      s.(tables := if ok then ObjectDeleted(s.tables, key.(cluster := cluster)) else s.tables)
    case Refresh(cluster, discovery) => s.(tables := Discovered(s.tables, cluster, discovery))
    case GcList(now, order) => s.(pending := Snapshots(s.tables, order), gcNow := now)
    case GcNext(outcome) =>
      var p := s.pending[0];
      s.(tables := if Expired(p.row, s.gcNow) then Removed(s.tables, p.name, outcome)
                     else s.tables, pending := s.pending[1..])
  }

  /** A step outside collection is one call: of the controller, of its discovery, or of the handler of the
      cluster's events. */
  method Perform(sc: SyncController, step: Step, ghost s: Sys)
    requires !step.GcList? && !step.GcNext? && Possible(s, step)
    requires sc.store.tables == s.tables && sc.clusters == s.engaged
    modifies sc, sc.store
    ensures sc.store.tables == Next(s, step).tables && sc.clusters == Next(s, step).engaged
    ensures Next(s, step).pending == s.pending && Next(s, step).gcNow == s.gcNow
  {
    hide Discovered, Upserted;
    match step
    case Engage(now, name, upsertOk, discovery, clientOk) =>
      var ok := sc.Engage(now, name, upsertOk, discovery, clientOk);
    case Disengage(now, name, upsertOk) =>
      var ok := sc.Disengage(now, name, upsertOk);
    case Upsert(cluster, key, columns, ok) =>
      var handler := new EventHandler(sc.store, cluster);
      handler.Upsert(key, columns, ok);
    case Delete(cluster, key, ok) =>
      var handler := new EventHandler(sc.store, cluster);
      handler.OnDelete(key, ok);
    case Refresh(cluster, discovery) =>
      var ok := sc.RunDiscovery(cluster, discovery);
  }

  /** What every reachable state satisfies. */
  ghost predicate Inv(s: Sys) {
    && Owned(s.tables)
    && (forall c :: c in s.engaged ==> c in s.tables.clusters && s.tables.clusters[c].status == Active)
    && PendingFresh(s)
  }

  /** Clusters to be looked at are stale, unchanged since they were listed, and listed once. */
  ghost predicate PendingFresh(s: Sys) {
    && (forall i :: 0 <= i < |s.pending| ==> FreshSnapshot(s.tables, s.pending[i]))
    && (forall i, j :: 0 <= i < j < |s.pending| ==> s.pending[i].name != s.pending[j].name)
  }

  predicate FreshSnapshot(t: Tables, p: Snapshot) {
    p.name in t.clusters && t.clusters[p.name] == p.row && p.row.status == Stale
  }

  lemma {:induction false} TypesAddedOwned(t: Tables, cluster: string, found: seq<Found>)
    requires Owned(t) && cluster in t.clusters
    ensures Owned(TypesAdded(t, cluster, found)) && TypesAdded(t, cluster, found).clusters == t.clusters
    ensures TypesAdded(t, cluster, found).objects == t.objects
  {
    if found != [] {
      TypesAddedOwned(t, cluster, found[..|found| - 1]);
    }
  }

  lemma DiscoveredOwned(t: Tables, cluster: string, d: Discovery)
    requires Owned(t) && cluster in t.clusters
    ensures Owned(Discovered(t, cluster, d)) && Discovered(t, cluster, d).clusters == t.clusters
    ensures Discovered(t, cluster, d).objects == t.objects
  {
    if d.Listed? && d.clearOk {
      TypesAddedOwned(TypesCleared(t, cluster), cluster, d.found);
    }
  }

  lemma RemovedOwned(t: Tables, cluster: string, o: GcOutcome)
    requires Owned(t)
    ensures Owned(Removed(t, cluster, o))
    ensures forall c :: c in t.clusters && c != cluster
              ==> c in Removed(t, cluster, o).clusters && Removed(t, cluster, o).clusters[c] == t.clusters[c]
  {
  }

  lemma {:induction false} SnapshotsFresh(t: Tables, order: seq<string>)
    requires forall c :: c in order ==> c in t.clusters
    ensures |Snapshots(t, order)| == |order|
    ensures forall i :: 0 <= i < |order|
              ==> order[i] in order && Snapshots(t, order)[i] == Snapshot(order[i], t.clusters[order[i]])
  {
    if order != [] {
      SnapshotsFresh(t, order[..|order| - 1]);
    }
  }

  /** Other clusters' rows do not affect the snapshots. */
  lemma PendingUnaffected(s: Sys, t: Tables, name: string)
    requires PendingFresh(s) && !IsPending(s, name)
    requires forall c :: c in s.tables.clusters && c != name
               ==> c in t.clusters && t.clusters[c] == s.tables.clusters[c]
    ensures PendingFresh(s.(tables := t))
  {
  }

  lemma EngageKeeps(s: Sys, step: Step)
    requires Inv(s) && step.Engage? && Enabled(s, step)
    ensures Inv(Next(s, step))
  {
    hide Discovered, Owned;
    if step.upsertOk {
      var t := ClusterUpserted(s.tables, step.name, EngagedRow(step.now));
      assert Owned(t) by { UpsertKeepsOwned(s.tables, step.name, EngagedRow(step.now)); }
      DiscoveredOwned(t, step.name, step.discovery);
      PendingUnaffected(s, Discovered(t, step.name, step.discovery), step.name);
    }
  }

  lemma UpsertKeepsOwned(t: Tables, name: string, row: ClusterRow)
    requires Owned(t)
    ensures Owned(ClusterUpserted(t, name, row))
  {
  }

  lemma DisengageKeeps(s: Sys, step: Step)
    requires Inv(s) && step.Disengage? && Enabled(s, step)
    ensures Inv(Next(s, step))
  {
    hide Owned;
    if step.upsertOk {
      var t := ClusterUpserted(s.tables, step.name, StaleRow(step.now));
      UpsertKeepsOwned(s.tables, step.name, StaleRow(step.now));
      PendingUnaffected(s, t, step.name);
    }
  }

  lemma EventKeeps(s: Sys, step: Step)
    requires Inv(s) && (step.Upsert? || step.Delete? || step.Refresh?) && Enabled(s, step)
    ensures Inv(Next(s, step))
  {
    if step.Refresh? {
      hide Discovered;
      DiscoveredOwned(s.tables, step.cluster, step.discovery);
    }
  }

  lemma GcListKeeps(s: Sys, step: Step)
    requires Inv(s) && step.GcList? && Enabled(s, step)
    ensures Inv(Next(s, step))
  {
    hide Owned;
    SnapshotsFresh(s.tables, step.order);
  }

  lemma GcNextKeeps(s: Sys, step: Step)
    requires Inv(s) && step.GcNext? && Enabled(s, step)
    ensures Inv(Next(s, step))
  {
    hide Removed, Owned;
    var p := s.pending[0];
    assert FreshSnapshot(s.tables, p);
    RemovedOwned(s.tables, p.name, step.outcome);
    var rest := s.pending[1..];
    assert forall i :: 0 <= i < |rest| ==> rest[i] == s.pending[i + 1];
    assert forall i :: 0 <= i < |rest| ==> rest[i].name != p.name && FreshSnapshot(s.tables, rest[i]);
  }

  lemma StepKeeps(s: Sys, step: Step)
    requires Inv(s) && Enabled(s, step)
    ensures Inv(Next(s, step))
  {
    hide Inv, Next, Enabled;
    match step
    case Engage(_, _, _, _, _) => EngageKeeps(s, step);
    case Disengage(_, _, _) => DisengageKeeps(s, step);
    case Upsert(_, _, _, _) => EventKeeps(s, step);
    case Delete(_, _, _) => EventKeeps(s, step);
    case Refresh(_, _) => EventKeeps(s, step);
    case GcList(_, _) => GcListKeeps(s, step);
    case GcNext(_) => GcNextKeeps(s, step);
  }

  /** `states` is a run of the given steps from the empty system. */
  ghost predicate IsRun(states: seq<Sys>, steps: seq<Step>) {
    && |states| == |steps| + 1
    && states[0] == INIT
    && (forall i :: 0 <= i < |steps| ==> StepAt(states, steps, i))
  }

  ghost predicate StepAt(states: seq<Sys>, steps: seq<Step>, i: nat)
    requires |states| == |steps| + 1 && i < |steps|
  {
    Enabled(states[i], steps[i]) && states[i + 1] == Next(states[i], steps[i])
  }

  lemma RunStep(states: seq<Sys>, steps: seq<Step>, i: nat)
    requires IsRun(states, steps) && i < |steps|
    ensures Enabled(states[i], steps[i]) && states[i + 1] == Next(states[i], steps[i])
  {
    hide Enabled, Next;
    assert StepAt(states, steps, i);
  }

  /** In every run, at every point: each object and resource-type row has its cluster row, and every
      engaged cluster is active. */
  lemma {:induction false} RunsAreSafe(states: seq<Sys>, steps: seq<Step>, i: nat)
    requires IsRun(states, steps) && i < |states|
    ensures Inv(states[i])
  {
    if i > 0 {
      hide Inv, Next, Enabled;
      RunsAreSafe(states, steps, i - 1);
      RunStep(states, steps, i - 1);
      StepKeeps(states[i - 1], steps[i - 1]);
    }
  }

  lemma RemovedKeepsOthers(t: Tables, cluster: string, o: GcOutcome, c: string)
    requires c != cluster
    ensures SameRowsOf(t, Removed(t, cluster, o), c)
  {
  }

  /** In every run, no garbage collection step touches a row of an engaged cluster, of a cluster that
      is not stale, or of one whose time to live has not passed when the pass began. */
  lemma CollectionIsSafe(states: seq<Sys>, steps: seq<Step>, i: nat, c: string)
    requires IsRun(states, steps) && i < |steps| && steps[i].GcNext?
    requires c in states[i].engaged ||
             (c in states[i].tables.clusters
               && (states[i].tables.clusters[c].status == Active
                  || !Expired(states[i].tables.clusters[c], states[i].gcNow)))
    ensures SameRowsOf(states[i].tables, states[i + 1].tables, c)
  {
    hide Removed, Owned, SameRowsOf;
    RunsAreSafe(states, steps, i);
    var s := states[i];
    RunStep(states, steps, i);
    var p := s.pending[0];
    assert FreshSnapshot(s.tables, p);
    if Expired(p.row, s.gcNow) {
      assert p.name != c;
      RemovedKeepsOthers(s.tables, p.name, steps[i].outcome, c);
    } else {
      assert SameRowsOf(s.tables, s.tables, c) by { SameAsItself(s.tables, c); }
    }
  }

  lemma SameAsItself(t: Tables, c: string)
    ensures SameRowsOf(t, t, c)
  {
  }

  lemma DiscoveryKeepsObjects(t: Tables, cluster: string, d: Discovery)
    requires Owned(t) && cluster in t.clusters
    ensures Discovered(t, cluster, d).objects == t.objects
  {
    DiscoveredOwned(t, cluster, d);
  }

  /** In every run an object's row disappears in two ways only: its own delete event, or collection of
      a cluster that is stale, not engaged, and past its time to live. */
  lemma ObjectsLeaveOnlyBy(states: seq<Sys>, steps: seq<Step>, i: nat, k: ObjectKey)
    requires IsRun(states, steps) && i < |steps|
    requires k in states[i].tables.objects && k !in states[i + 1].tables.objects
    ensures
      || (steps[i].Delete? && steps[i].key.(cluster := steps[i].cluster) == k && k.cluster in states[i].engaged)
      || (steps[i].GcNext? && k.cluster !in states[i].engaged && k.cluster in states[i].tables.clusters
          && states[i].tables.clusters[k.cluster].status == Stale
             && Expired(states[i].tables.clusters[k.cluster], states[i].gcNow))
  {
    RunsAreSafe(states, steps, i);
    RunStep(states, steps, i);
    var s := states[i];
    if steps[i].GcNext? {
      assert FreshSnapshot(s.tables, s.pending[0]);
      if k.cluster != s.pending[0].name {
        RemovedKeepsOthers(s.tables, s.pending[0].name, steps[i].outcome, k.cluster);
      }
    } else {
      StepKeepsObjects(s, steps[i], k);
    }
  }

  lemma StepKeepsObjects(s: Sys, step: Step, k: ObjectKey)
    requires Inv(s) && Enabled(s, step) && k in s.tables.objects && !step.GcNext?
    ensures k in Next(s, step).tables.objects || (step.Delete? && step.key.(cluster := step.cluster) == k)
  {
    hide Discovered;
    if step.Engage? {
      var t := ClusterUpserted(s.tables, step.name, EngagedRow(step.now));
      UpsertKeepsOwned(s.tables, step.name, EngagedRow(step.now));
      DiscoveryKeepsObjects(t, step.name, step.discovery);
    } else if step.Refresh? {
      DiscoveryKeepsObjects(s.tables, step.cluster, step.discovery);
    }
  }

  /** The collection steps that look at everything still pending. */
  ghost function Drained(s: Sys, outcomes: map<string, GcOutcome>): Sys
    decreases |s.pending|
  {
    if s.pending == [] then s else Drained(Next(s, GcNext(OutcomeFor(outcomes, s.pending[0].name))), outcomes)
  }

  /** The pending clusters that will be removed. */
  ghost function Due(pending: seq<Snapshot>, now: int): set<string> {
    if pending == [] then {}
    else (if Expired(pending[0].row, now) then {pending[0].name} else {}) + Due(pending[1..], now)
  }

  lemma {:induction false} DueNames(pending: seq<Snapshot>, now: int)
    ensures forall c :: c in Due(pending, now)
              <==> exists i :: 0 <= i < |pending| && pending[i].name == c && Expired(pending[i].row, now)
  {
    if pending != [] {
      DueNames(pending[1..], now);
      forall c
        ensures c in Due(pending, now)
                <==> exists i :: 0 <= i < |pending| && pending[i].name == c && Expired(pending[i].row, now)
      {
        if i :| 0 <= i < |pending| && pending[i].name == c && Expired(pending[i].row, now) {
          assert i > 0 ==> pending[1..][i - 1] == pending[i];
        }
        if i :| 0 <= i < |pending[1..]| && pending[1..][i].name == c && Expired(pending[1..][i].row, now) {
          assert pending[i + 1].name == c && Expired(pending[i + 1].row, now);
        }
      }
    }
  }

  lemma {:induction false} DrainCollects(t: Tables, s: Sys, outcomes: map<string, GcOutcome>, done: set<string>)
    requires s.tables == Collected(t, done, outcomes)
    requires forall i :: 0 <= i < |s.pending| ==> s.pending[i].name !in done
    requires forall i, j :: 0 <= i < j < |s.pending| ==> s.pending[i].name != s.pending[j].name
    ensures Drained(s, outcomes).tables == Collected(t, done + Due(s.pending, s.gcNow), outcomes)
    decreases |s.pending|
  {
    hide Collected, Removed, Expired;
    if s.pending == [] {
      assert done + Due(s.pending, s.gcNow) == done;
    } else {
      var p := s.pending[0];
      var next := Next(s, GcNext(OutcomeFor(outcomes, p.name)));
      var more := if Expired(p.row, s.gcNow) then done + {p.name} else done;
      CollectedOneMore(t, done, p.name, outcomes);
      assert forall i :: 0 <= i < |next.pending| ==> next.pending[i] == s.pending[i + 1];
      DrainCollects(t, next, outcomes, more);
      assert done + Due(s.pending, s.gcNow) == more + Due(next.pending, s.gcNow);
    }
  }

  /** The steps of one undisturbed pass do together what one call of the collector does, in whatever
      order the stale clusters were listed. */
  lemma StepsMakeAPass(s: Sys, now: int, order: seq<string>, outcomes: map<string, GcOutcome>)
    requires Enabled(s, GcList(now, order))
    ensures Drained(Next(s, GcList(now, order)), outcomes).tables
            == Collected(s.tables, ExpiredClusters(s.tables, now), outcomes)
  {
    hide Collected, Expired, Drained;
    var listed := Next(s, GcList(now, order));
    SnapshotsFresh(s.tables, order);
    CollectedNone(s.tables, outcomes);
    DrainCollects(s.tables, listed, outcomes, {});
    DueExpired(s.tables, now, order);
    assert {} + Due(listed.pending, now) == ExpiredClusters(s.tables, now);
  }

  lemma DueExpired(t: Tables, now: int, order: seq<string>)
    requires forall c :: c in order <==> c in StaleClusters(t, now)
    ensures Due(Snapshots(t, order), now) == ExpiredClusters(t, now)
  {
    hide Expired;
    SnapshotsFresh(t, order);
    var pending := Snapshots(t, order);
    DueNames(pending, now);
    forall c | c in ExpiredClusters(t, now)
      ensures c in Due(pending, now)
    {
      var i :| 0 <= i < |order| && order[i] == c;
      assert pending[i].name == c;
    }
  }
}
