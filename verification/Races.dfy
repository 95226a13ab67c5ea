/** Interleaved runs without serialisation per cluster, each call of Engage and of Disengage and the work
    of a pass on one cluster taken as one step: exactly when garbage collection destroys the data of an
    engaged cluster, and when rows lose their cluster row. `Overlaps` takes these calls apart. */
module Races {
  import opened Options
  import opened Store
  import opened Lifecycle

  ghost predicate FreeStepAt(states: seq<Sys>, steps: seq<Step>, i: nat)
    requires |states| == |steps| + 1 && i < |steps|
  {
    Possible(states[i], steps[i]) && states[i + 1] == Next(states[i], steps[i])
  }

  /** `states` is a run of the given steps from the empty system, in any interleaving. */
  ghost predicate FreeRun(states: seq<Sys>, steps: seq<Step>) {
    && |states| == |steps| + 1
    && states[0] == INIT
    && (forall i :: 0 <= i < |steps| ==> FreeStepAt(states, steps, i))
  }

  /** Serialised runs are among them. */
  lemma SerialisedIsFree(states: seq<Sys>, steps: seq<Step>)
    requires IsRun(states, steps)
    ensures FreeRun(states, steps)
  {
    hide Next;
    forall i | 0 <= i < |steps|
      ensures FreeStepAt(states, steps, i)
    {
      assert StepAt(states, steps, i);
    }
  }

  lemma FreeStep(states: seq<Sys>, steps: seq<Step>, i: nat)
    requires FreeRun(states, steps) && i < |steps|
    ensures Possible(states[i], steps[i]) && states[i + 1] == Next(states[i], steps[i])
  {
    hide Possible, Next;
    assert FreeStepAt(states, steps, i);
  }

  // ----- what every such run keeps -----

  /** An engaged cluster has an active row, or none. */
  ghost predicate NeverStale(s: Sys) {
    forall c :: c in s.engaged && c in s.tables.clusters ==> s.tables.clusters[c].status == Active
  }

  lemma NeverStaleKept(s: Sys, step: Step)
    requires NeverStale(s) && Possible(s, step)
    ensures NeverStale(Next(s, step))
  {
    hide Discovered;
    if step.Engage? {
      DiscoveredClusters(ClusterUpserted(s.tables, step.name, EngagedRow(step.now)), step.name, step.discovery);
    } else if step.Refresh? {
      DiscoveredClusters(s.tables, step.cluster, step.discovery);
    }
  }

  lemma {:induction false} EngagedNeverStale(states: seq<Sys>, steps: seq<Step>, i: nat)
    requires FreeRun(states, steps) && i < |states|
    ensures NeverStale(states[i])
  {
    if i > 0 {
      hide NeverStale, Next, Possible;
      EngagedNeverStale(states, steps, i - 1);
      FreeStep(states, steps, i - 1);
      NeverStaleKept(states[i - 1], steps[i - 1]);
    }
  }

  // ----- the listing that a pass works from -----

  /** The last listing among the first `i` steps. */
  ghost function LastList(steps: seq<Step>, i: nat): (l: Option<nat>)
    requires i <= |steps|
    ensures l.Some? ==> l.value < i && steps[l.value].GcList?
    ensures forall m :: 0 <= m < i && steps[m].GcList? ==> l.Some? && m <= l.value
  {
    if i == 0 then None else if steps[i - 1].GcList? then Some(i - 1) else LastList(steps, i - 1)
  }

  /** What is pending was listed: it is the cluster's row as it was then. */
  ghost predicate AsListed(states: seq<Sys>, steps: seq<Step>, i: nat, p: Snapshot)
    requires |states| == |steps| + 1 && i < |states|
  {
    LastList(steps, i).Some? &&
    var t := states[LastList(steps, i).value].tables;
    p.name in t.clusters && t.clusters[p.name] == p.row
  }

  lemma {:induction false} PendingWasListed(states: seq<Sys>, steps: seq<Step>, i: nat, p: Snapshot)
    requires FreeRun(states, steps) && i < |states| && p in states[i].pending
    ensures AsListed(states, steps, i, p)
  {
    if i > 0 {
      FreeStep(states, steps, i - 1);
      var s, step := states[i - 1], steps[i - 1];
      if step.GcList? {
        SnapshotsFresh(s.tables, step.order);
        var x :| 0 <= x < |step.order| && states[i].pending[x] == p;
        assert step.order[x] in step.order;
      } else {
        PendingStays(s, step, p);
        PendingWasListed(states, steps, i - 1, p);
      }
    }
  }

  lemma PendingStays(s: Sys, step: Step, p: Snapshot)
    requires Possible(s, step) && !step.GcList? && p in Next(s, step).pending
    ensures p in s.pending
  {
    hide Discovered, Removed;
  }

  // ----- what is stored -----

  /** The step stores these columns for the object. */
  predicate Stores(step: Step, k: ObjectKey) {
    step.Upsert? && step.ok && step.key.(cluster := step.cluster) == k
  }

  lemma StoredStep(s: Sys, step: Step, k: ObjectKey)
    requires Possible(s, step) && k in Next(s, step).tables.objects
    ensures Stores(step, k) ==> Next(s, step).tables.objects[k].columns == step.columns
    ensures !Stores(step, k) ==> k in s.tables.objects && Next(s, step).tables.objects[k] == s.tables.objects[k]
    ensures k !in s.tables.objects ==> Next(s, step).tables.objects[k].id == IdKey(k)
    ensures k in s.tables.objects ==> Next(s, step).tables.objects[k].id == s.tables.objects[k].id
  {
    hide Discovered;
    if step.Engage? {
      DiscoveredClusters(ClusterUpserted(s.tables, step.name, EngagedRow(step.now)), step.name, step.discovery);
    } else if step.Refresh? {
      DiscoveredClusters(s.tables, step.cluster, step.discovery);
    }
  }

  /** Step `j` stored the object, no later one did, and the object has been there since. */
  ghost predicate StoredLast(states: seq<Sys>, steps: seq<Step>, j: nat, i: nat, k: ObjectKey)
    requires i < |states| == |steps| + 1
  {
    && j < i && Stores(steps[j], k)
    && (forall m :: j < m < i ==> !Stores(steps[m], k))
    && (forall m :: j < m <= i ==> k in states[m].tables.objects)
  }

  /** In every run the stored columns of an object are those of the last event that stored it, after which
      it was not removed; its id is derived from its key. */
  lemma {:induction false} ColumnsAreLast(states: seq<Sys>, steps: seq<Step>, i: nat, k: ObjectKey)
    requires FreeRun(states, steps) && i < |states| && k in states[i].tables.objects
    ensures exists j: nat :: StoredLast(states, steps, j, i, k)
              && states[i].tables.objects[k] == Stored(IdKey(k), steps[j].columns)
  {
    if i > 0 {
      hide Next, Possible;
      FreeStep(states, steps, i - 1);
      StoredStep(states[i - 1], steps[i - 1], k);
      if k in states[i - 1].tables.objects {
        ColumnsAreLast(states, steps, i - 1, k);
      }
      if Stores(steps[i - 1], k) {
        assert StoredLast(states, steps, i - 1, i, k);
      } else {
        var j: nat :| StoredLast(states, steps, j, i - 1, k)
          && states[i - 1].tables.objects[k] == Stored(IdKey(k), steps[j].columns);
        assert StoredLast(states, steps, j, i, k);
      }
    }
  }

  /** And every event that stores an object leaves it stored with its columns. */
  lemma StoringStores(s: Sys, step: Step, k: ObjectKey)
    requires Possible(s, step) && Stores(step, k)
    ensures k in Next(s, step).tables.objects && Next(s, step).tables.objects[k].columns == step.columns
  {
  }

  // ----- the race -----

  /** The step engages its cluster. */
  predicate Succeeds(step: Step) {
    step.Engage? && step.upsertOk && step.discovery.Listed? && step.discovery.clearOk && step.clientOk
  }

  /** The cluster was engaged after the stale clusters were last listed. */
  ghost predicate EngagedAfterListing(steps: seq<Step>, i: nat, c: string)
    requires i <= |steps|
  {
    LastList(steps, i).Some? && exists j :: LastList(steps, i).value < j < i && Succeeds(steps[j]) && steps[j].name == c
  }

  lemma EngagedBefore(s: Sys, step: Step, c: string)
    requires Possible(s, step) && !step.GcList? && c in Next(s, step).engaged && IsPending(Next(s, step), c)
    requires !(Succeeds(step) && step.name == c)
    ensures c in s.engaged && IsPending(s, c)
  {
    hide Discovered, Removed;
    var i :| 0 <= i < |Next(s, step).pending| && Next(s, step).pending[i].name == c;
    PendingStays(s, step, Next(s, step).pending[i]);
  }

  lemma ListedNotEngaged(s: Sys, step: Step, c: string)
    requires NeverStale(s) && Possible(s, step) && step.GcList? && IsPending(Next(s, step), c)
    ensures c !in Next(s, step).engaged
  {
    SnapshotsFresh(s.tables, step.order);
    var i :| 0 <= i < |step.order| && Next(s, step).pending[i].name == c;
    assert step.order[i] in step.order;
  }

  /** A cluster that is engaged although a pass has it still pending was engaged after the listing. */
  lemma {:induction false} PendingEngagedLater(states: seq<Sys>, steps: seq<Step>, i: nat, c: string)
    requires FreeRun(states, steps) && i < |states| && c in states[i].engaged && IsPending(states[i], c)
    ensures EngagedAfterListing(steps, i, c)
  {
    if i > 0 {
      hide Next, Possible, NeverStale;
      FreeStep(states, steps, i - 1);
      EngagedNeverStale(states, steps, i - 1);
      var s, step := states[i - 1], steps[i - 1];
      if step.GcList? {
        ListedNotEngaged(s, step, c);
      } else if Succeeds(step) && step.name == c {
        var x :| 0 <= x < |states[i].pending| && states[i].pending[x].name == c;
        PendingWasListed(states, steps, i, states[i].pending[x]);
      } else {
        EngagedBefore(s, step, c);
        PendingEngagedLater(states, steps, i - 1, c);
        var j :| LastList(steps, i - 1).value < j < i - 1 && Succeeds(steps[j]) && steps[j].name == c;
      }
    }
  }

  /** The deletes that succeed find a row of the cluster. */
  ghost predicate Hits(t: Tables, c: string, o: GcOutcome) {
    o.objects && ((exists k :: k in t.objects && k.cluster == c)
                  || (o.types && ((exists k :: k in t.types && k.cluster == c) || (o.cluster && c in t.clusters))))
  }

  lemma RemovedIff(t: Tables, name: string, o: GcOutcome, c: string)
    ensures SameRowsOf(t, Removed(t, name, o), c) <==> !(name == c && Hits(t, c, o))
  {
    if name == c && Hits(t, c, o) {
      if k :| k in t.objects && k.cluster == c {
        assert k !in Removed(t, name, o).objects;
      } else if k :| k in t.types && k.cluster == c {
        assert k !in Removed(t, name, o).types;
      }
    }
  }

  /** Exactly when a collection step changes any row of an engaged cluster: the step is at that cluster,
      the row it had when it was listed had expired, it was engaged after the listing, and a delete that
      succeeds finds a row. */
  lemma RaceExactly(states: seq<Sys>, steps: seq<Step>, i: nat, c: string)
    requires FreeRun(states, steps) && i < |steps| && steps[i].GcNext? && c in states[i].engaged
    ensures states[i].pending != [] && AsListed(states, steps, i, states[i].pending[0])
    ensures !SameRowsOf(states[i].tables, states[i + 1].tables, c) <==>
      && states[i].pending[0].name == c && Expired(states[i].pending[0].row, states[i].gcNow)
      && EngagedAfterListing(steps, i, c) && Hits(states[i].tables, c, steps[i].outcome)
  {
    hide Removed, Expired, EngagedAfterListing, AsListed, Hits, SameRowsOf;
    FreeStep(states, steps, i);
    var s := states[i];
    PendingWasListed(states, steps, i, s.pending[0]);
    RemovedIff(s.tables, s.pending[0].name, steps[i].outcome, c);
    SameAsItself(s.tables, c);
    if s.pending[0].name == c {
      assert IsPending(s, c);
      PendingEngagedLater(states, steps, i, c);
    }
  }

  // ----- orphans -----

  predicate WritesAny(d: Discovery) {
    d.Listed? && d.clearOk && exists f :: f in d.found && f.ok
  }

  lemma {:induction false} AddedOwnedIff(t: Tables, cluster: string, found: seq<Found>)
    requires Owned(t)
    ensures Owned(TypesAdded(t, cluster, found)) <==> cluster in t.clusters || forall f :: f in found ==> !f.ok
    ensures TypesAdded(t, cluster, found).clusters == t.clusters
    ensures forall k :: k in t.types ==> k in TypesAdded(t, cluster, found).types
    ensures forall f :: f in found && f.ok ==> f.key.(cluster := cluster) in TypesAdded(t, cluster, found).types
  {
    if found != [] {
      AddedOwnedIff(t, cluster, found[..|found| - 1]);
      assert forall f :: f in found <==> f in found[..|found| - 1] || f == found[|found| - 1];
    }
  }

  /** Exactly which step leaves an object or resource-type row without a cluster row, if there was none
      before: an engaged cluster has lost its row, and an event or a refresh writes a row for it. */
  lemma OrphanExactly(s: Sys, step: Step)
    requires Possible(s, step) && Owned(s.tables)
    ensures !Owned(Next(s, step).tables) <==>
      || (step.Upsert? && step.ok && step.cluster !in s.tables.clusters)
      || (step.Refresh? && WritesAny(step.discovery) && step.cluster !in s.tables.clusters)
  {
    hide Discovered, Removed, TypesAdded;
    match step
    case Engage(now, name, _, discovery, _) =>
      UpsertKeepsOwned(s.tables, name, EngagedRow(now));
      DiscoveredOwned(ClusterUpserted(s.tables, name, EngagedRow(now)), name, discovery);
    case Upsert(cluster, key, columns, ok) =>
      assert ok ==> key.(cluster := cluster) in Next(s, step).tables.objects;
    case Refresh(cluster, discovery) => RefreshOwnedIff(s.tables, cluster, discovery);
    case GcNext(outcome) => RemovedOwned(s.tables, s.pending[0].name, outcome);
    case _ =>
  }

  lemma RefreshOwnedIff(t: Tables, cluster: string, d: Discovery)
    requires Owned(t)
    ensures Owned(Discovered(t, cluster, d)) <==> !(WritesAny(d) && cluster !in t.clusters)
  {
    if d.Listed? && d.clearOk {
      AddedOwnedIff(TypesCleared(t, cluster), cluster, d.found);
    }
  }

  // ----- it happens -----

  const ALL_OK := GcOutcome(true, true, true)
  const NOTHING_FOUND := Discovery.Listed(true, [])
  const HOUR := DEFAULT_TTL * SECOND

  /** A cluster is engaged, stores an object, is disengaged, expires, is listed, is engaged again, and
      only then does the pass reach it; afterwards an event stores an object again. */
  function RaceSteps(c: string, key: ObjectKey): seq<Step> {
    [Engage(0, c, true, NOTHING_FOUND, true), Upsert(c, key, "", true), Disengage(0, c, true), GcList(HOUR, [c]),
     Engage(HOUR, c, true, NOTHING_FOUND, true), GcNext(ALL_OK), Upsert(c, key, "", true)]
  }

  function Own(c: string, key: ObjectKey): ObjectKey {
    key.(cluster := c)
  }

  function RaceStates(c: string, key: ObjectKey): seq<Sys> {
    var own := Own(c, key);
    var stored := map[own := Stored(IdKey(own), "")];
    var snapshot := Snapshot(c, StaleRow(0));
    [INIT,
     Sys(Tables(map[], map[], map[c := EngagedRow(0)]), {c}, [], 0),
     Sys(Tables(stored, map[], map[c := EngagedRow(0)]), {c}, [], 0),
     Sys(Tables(stored, map[], map[c := StaleRow(0)]), {}, [], 0),
     Sys(Tables(stored, map[], map[c := StaleRow(0)]), {}, [snapshot], HOUR),
     Sys(Tables(stored, map[], map[c := EngagedRow(HOUR)]), {c}, [snapshot], HOUR),
     Sys(EMPTY, {c}, [], HOUR),
     Sys(Tables(stored, map[], map[]), {c}, [], HOUR)]
  }

  lemma EngageFound(t: Tables, c: string, now: int)
    requires t.types == map[]
    ensures Discovered(ClusterUpserted(t, c, EngagedRow(now)), c, NOTHING_FOUND)
            == ClusterUpserted(t, c, EngagedRow(now))
  {
    var u := ClusterUpserted(t, c, EngagedRow(now));
    assert TypesCleared(u, c).types == u.types;
  }

  lemma FirstSteps(c: string, key: ObjectKey)
    ensures var s, r := RaceStates(c, key), RaceSteps(c, key);
      (Possible(s[0], r[0]) && s[1] == Next(s[0], r[0])) && (Possible(s[1], r[1]) && s[2] == Next(s[1], r[1]))
  {
    hide Discovered;
    EngageFound(EMPTY, c, 0);
  }

  lemma MiddleSteps(c: string, key: ObjectKey)
    ensures var s, r := RaceStates(c, key), RaceSteps(c, key);
      (Possible(s[2], r[2]) && s[3] == Next(s[2], r[2])) && (Possible(s[3], r[3]) && s[4] == Next(s[3], r[3]))
  {
    var s := RaceStates(c, key);
    assert ClusterUpserted(s[2].tables, c, StaleRow(0)) == s[3].tables;
    assert StaleClusters(s[3].tables, HOUR) == {c};
    assert [c][..0] == [];
    assert Snapshots(s[3].tables, [c]) == [Snapshot(c, StaleRow(0))];
  }

  lemma EngageAgain(c: string, key: ObjectKey)
    ensures var s, r := RaceStates(c, key), RaceSteps(c, key); Possible(s[4], r[4]) && s[5] == Next(s[4], r[4])
  {
    hide Discovered;
    var s := RaceStates(c, key);
    EngageFound(s[4].tables, c, HOUR);
    assert ClusterUpserted(s[4].tables, c, EngagedRow(HOUR)) == s[5].tables;
  }

  lemma LastSteps(c: string, key: ObjectKey)
    ensures var s, r := RaceStates(c, key), RaceSteps(c, key);
      (Possible(s[5], r[5]) && s[6] == Next(s[5], r[5])) && (Possible(s[6], r[6]) && s[7] == Next(s[6], r[6]))
  {
    var s := RaceStates(c, key);
    assert ObjectsCleared(s[5].tables, c).objects == map[];
    assert s[5].tables.clusters - {c} == map[];
    assert Removed(s[5].tables, c, ALL_OK) == EMPTY;
  }

  /** The run exists, for any cluster and object: the pass removes the row and all data of an engaged
      cluster, and the next event leaves an object without a cluster row. */
  lemma RaceHappens(c: string, key: ObjectKey)
    ensures var states := RaceStates(c, key);
      && FreeRun(states, RaceSteps(c, key))
      && c in states[5].engaged && Own(c, key) in states[5].tables.objects
      && c in states[6].engaged && NoRowsOf(states[6].tables, c)
      && !Owned(states[7].tables)
  {
    var states, steps := RaceStates(c, key), RaceSteps(c, key);
    FirstSteps(c, key);
    MiddleSteps(c, key);
    EngageAgain(c, key);
    LastSteps(c, key);
    assert Own(c, key) in states[7].tables.objects;
    hide Next, Possible;
    forall i | 0 <= i < |steps|
      ensures FreeStepAt(states, steps, i)
    {
      assert i == 0 || i == 1 || i == 2 || i == 3 || i == 4 || i == 5 || i == 6;
    }
  }
}
