/** Calls that overlap. Here a step is what the code does under one lock or in one store call: engaging
    and disengaging are split into their map and store steps, and a collection pass into its single
    deletes. Any number of calls run at once, also for one cluster, and object events and discovery
    refreshes write at any time, since a stopped informer can still be in a handler. */
module Overlaps {
  import opened Options
  import opened Store
  import opened Text
  import opened Lifecycle

  /** A call in progress, by what it has done: left the map, written the active row, cleared the
      resource types; or, when disengaging, left the map. */
  datatype Call = Entering(name: string) | Marked(name: string) | Cleared(name: string) | Leaving(name: string)

  /** `stage` counts the deletes done for the first pending cluster. */
  datatype State = State(tables: Tables, engaged: set<string>, calls: map<nat, Call>, nextId: nat,
                         pending: seq<Snapshot>, gcNow: int, stage: nat)

  datatype Action =
    | EngageDrop(id: nat, name: string)
    | EngageMark(id: nat, name: string, now: int, ok: bool)
    | EngageClear(id: nat, name: string, ok: bool)
    | EngageType(id: nat, name: string, found: Found)
    | EngageAdd(id: nat, name: string, ok: bool)
    | DisengageDrop(id: nat, name: string)
    | DisengageMark(id: nat, name: string, now: int, ok: bool)
    | Write(name: string, key: ObjectKey, columns: string, ok: bool)
    | Erase(name: string, key: ObjectKey, ok: bool)
    | RefreshClear(name: string, ok: bool)
    | RefreshType(name: string, found: Found)
    | List(now: int, order: seq<string>)
    | Skip
    | DropObjects(ok: bool)
    | DropTypes(ok: bool)
    | DropCluster(ok: bool)

  const START := State(EMPTY, {}, map[], 0, [], 0, 0)

  predicate Calling(s: State, id: nat, call: Call) {
    id in s.calls && s.calls[id] == call
  }

  predicate HeadDue(s: State) {
    s.pending != [] && Expired(s.pending[0].row, s.gcNow)
  }

  /** When the code can take the step. Each call begins under an id of its own. */
  ghost predicate Can(s: State, a: Action) {
    match a
    case EngageDrop(id, _) => id == s.nextId
    case EngageMark(id, name, _, _) => Calling(s, id, Entering(name))
    case EngageClear(id, name, _) => Calling(s, id, Marked(name))
    case EngageType(id, name, _) => Calling(s, id, Cleared(name))
    case EngageAdd(id, name, _) => Calling(s, id, Cleared(name))
    case DisengageDrop(id, _) => id == s.nextId
    case DisengageMark(id, name, _, _) => Calling(s, id, Leaving(name))
    case List(now, order) =>
      s.pending == [] && (forall c :: c in order <==> c in StaleClusters(s.tables, now))
      && (forall i, j :: 0 <= i < j < |order| ==> order[i] != order[j])
    case Skip => s.pending != [] && !HeadDue(s)
    case DropObjects(_) => HeadDue(s) && s.stage == 0
    case DropTypes(_) => HeadDue(s) && s.stage == 1
    case DropCluster(_) => HeadDue(s) && s.stage == 2
    case _ => true
  }

  function Began(s: State, id: nat, call: Call): State {
    s.(engaged := s.engaged - {call.name}, calls := s.calls[id := call], nextId := s.nextId + 1)
  }

  function Moved(s: State, id: nat, ok: bool, call: Call): State {
    s.(calls := if ok then s.calls[id := call] else s.calls - {id})
  }

  function Ended(s: State, id: nat): State {
    s.(calls := s.calls - {id})
  }

  function TypeAdded(t: Tables, name: string, f: Found): Tables {
    if f.ok then TypeUpserted(t, f.key.(cluster := name), f.row) else t
  }

  /** A failed delete, like the last one, ends the work on the first pending cluster. */
  function Advanced(s: State, ok: bool): State
    requires s.pending != []
  {
    if ok then s.(stage := s.stage + 1) else s.(pending := s.pending[1..], stage := 0)
  }

  ghost function Do(s: State, a: Action): State
    requires Can(s, a)
  {
    match a
    case EngageDrop(id, name) => Began(s, id, Entering(name))
    case EngageMark(id, name, now, ok) =>
      Moved(s.(tables := if ok then ClusterUpserted(s.tables, name, EngagedRow(now)) else s.tables), id, ok,
            Marked(name))
    case EngageClear(id, name, ok) =>
      Moved(s.(tables := if ok then TypesCleared(s.tables, name) else s.tables), id, ok, Cleared(name))
    case EngageType(id, name, found) => s.(tables := TypeAdded(s.tables, name, found))
    case EngageAdd(id, name, ok) => Ended(s.(engaged := if ok then s.engaged + {name} else s.engaged), id)
    case DisengageDrop(id, name) => Began(s, id, Leaving(name))
    case DisengageMark(id, name, now, ok) =>
      Ended(s.(tables := if ok then ClusterUpserted(s.tables, name, StaleRow(now)) else s.tables), id)
    case Write(name, key, columns, ok) => s.(tables := Upserted(s.tables, name, key, columns, ok))
    case Erase(name, key, ok) =>
      s.(tables := if ok then ObjectDeleted(s.tables, key.(cluster := name)) else s.tables)
    case RefreshClear(name, ok) => s.(tables := if ok then TypesCleared(s.tables, name) else s.tables)
    case RefreshType(name, found) => s.(tables := TypeAdded(s.tables, name, found))
    case List(now, order) => s.(pending := Snapshots(s.tables, order), gcNow := now, stage := 0)
    case Skip => Advanced(s, false)
    case DropObjects(ok) =>
      Advanced(s.(tables := if ok then ObjectsCleared(s.tables, s.pending[0].name) else s.tables), ok)
    case DropTypes(ok) =>
      Advanced(s.(tables := if ok then TypesCleared(s.tables, s.pending[0].name) else s.tables), ok)
    case DropCluster(ok) =>
      Advanced(s.(tables := if ok then ClusterDeleted(s.tables, s.pending[0].name) else s.tables), false)
  }

  ghost predicate DoneAt(states: seq<State>, acts: seq<Action>, i: nat)
    requires |states| == |acts| + 1 && i < |acts|
  {
    Can(states[i], acts[i]) && states[i + 1] == Do(states[i], acts[i])
  }

  /** `states` is a run of the steps from the empty system. */
  ghost predicate Run(states: seq<State>, acts: seq<Action>) {
    |states| == |acts| + 1 && states[0] == START && forall i :: 0 <= i < |acts| ==> DoneAt(states, acts, i)
  }

  lemma StepOf(states: seq<State>, acts: seq<Action>, i: nat)
    requires Run(states, acts) && i < |acts|
    ensures Can(states[i], acts[i]) && states[i + 1] == Do(states[i], acts[i])
  {
    hide Can, Do;
    assert DoneAt(states, acts, i);
  }

  // ----- undisturbed calls -----

  /** The steps in `acts` are possible one after the other, and lead to `t`. */
  ghost predicate Leads(s: State, acts: seq<Action>, t: State)
    decreases |acts|
  {
    if acts == [] then s == t else Can(s, acts[0]) && Leads(Do(s, acts[0]), acts[1..], t)
  }

  lemma LeadsCons(s: State, a: Action, acts: seq<Action>, t: State)
    requires Can(s, a) && Leads(Do(s, a), acts, t)
    ensures Leads(s, [a] + acts, t)
  {
    hide Can, Do;
    assert ([a] + acts)[1..] == acts;
  }

  function TypeSteps(id: nat, name: string, found: seq<Found>): seq<Action> {
    if found == [] then [] else [EngageType(id, name, found[0])] + TypeSteps(id, name, found[1..])
  }

  lemma {:induction false} TypesAddedFirst(t: Tables, name: string, found: seq<Found>)
    requires found != []
    ensures TypesAdded(t, name, found) == TypesAdded(TypeAdded(t, name, found[0]), name, found[1..])
  {
    var init, last := found[..|found| - 1], found[|found| - 1];
    if init == [] {
      assert TypesAdded(t, name, init) == t && found[1..] == [];
    } else {
      TypesAddedFirst(t, name, init);
      assert init[1..] == found[1..][..|found[1..]| - 1];
    }
  }

  lemma {:induction false} TypeStepsLead(s: State, id: nat, name: string, found: seq<Found>, rest: seq<Action>,
                                         t: State)
    requires Calling(s, id, Cleared(name)) && Leads(s.(tables := TypesAdded(s.tables, name, found)), rest, t)
    ensures Leads(s, TypeSteps(id, name, found) + rest, t)
    decreases |found|
  {
    if found == [] {
      assert TypeSteps(id, name, found) + rest == rest;
      assert s.(tables := s.tables) == s;
    } else {
      hide TypesAdded, TypeAdded;
      TypesAddedFirst(s.tables, name, found);
      var a := EngageType(id, name, found[0]);
      var next := Do(s, a);
      TypeStepsLead(next, id, name, found[1..], rest, t);
      LeadsCons(s, a, TypeSteps(id, name, found[1..]) + rest, t);
      Regrouped([a], TypeSteps(id, name, found[1..]), rest);
    }
  }

  /** Ids of running calls have been given out. */
  ghost predicate IdsGiven(s: State) {
    forall id :: id in s.calls ==> id < s.nextId
  }

  lemma {:induction false} IdsAreGiven(states: seq<State>, acts: seq<Action>, i: nat)
    requires Run(states, acts) && i < |states|
    ensures IdsGiven(states[i])
  {
    if i > 0 {
      IdsAreGiven(states, acts, i - 1);
      StepOf(states, acts, i - 1);
    }
  }

  /** What the whole-call steps see of a state. */
  function View(s: State): Sys {
    Sys(s.tables, s.engaged, s.pending, s.gcNow)
  }

  /** The state with a view put back. */
  function Viewed(s: State, v: Sys): State {
    s.(tables := v.tables, engaged := v.engaged, pending := v.pending, gcNow := v.gcNow)
  }

  function EngageSteps(id: nat, now: int, name: string, upsertOk: bool, d: Discovery, clientOk: bool): seq<Action> {
    [EngageDrop(id, name)]
    + ([EngageMark(id, name, now, upsertOk)] + (if upsertOk then AfterMark(id, name, d, clientOk) else []))
  }

  lemma LeadsOne(s: State, a: Action)
    requires Can(s, a)
    ensures Leads(s, [a], Do(s, a))
  {
    hide Can, Do;
    assert [a][1..] == [];
  }

  lemma LeadsNowhere(s: State)
    ensures Leads(s, [], s)
  {
  }

  lemma DiscoverySteps(s: State, id: nat, name: string, d: Discovery, clientOk: bool)
    requires Calling(s, id, Marked(name)) && d.Listed? && d.clearOk
    ensures Leads(s, [EngageClear(id, name, true)] + (TypeSteps(id, name, d.found) + [EngageAdd(id, name, clientOk)]),
                  Ended(s.(tables := Discovered(s.tables, name, d),
                           engaged := if clientOk then s.engaged + {name} else s.engaged), id))
  {
    hide Leads, TypesAdded, TypesCleared;
    var a := EngageClear(id, name, true);
    var cleared := Do(s, a);
    var added := cleared.(tables := TypesAdded(cleared.tables, name, d.found));
    var last := EngageAdd(id, name, clientOk);
    LeadsOne(added, last);
    var done := Do(added, last);
    TypeStepsLead(cleared, id, name, d.found, [last], done);
    LeadsCons(s, a, TypeSteps(id, name, d.found) + [last], done);
    assert s.calls[id := Cleared(name)] - {id} == s.calls - {id};
  }

  lemma EngageBegins(s: State, name: string)
    ensures Can(s, EngageDrop(s.nextId, name))
    ensures Do(s, EngageDrop(s.nextId, name)) == Began(s, s.nextId, Entering(name))
  {
  }

  lemma EngageMarks(s: State, id: nat, name: string, now: int, ok: bool)
    requires Calling(s, id, Entering(name))
    ensures Can(s, EngageMark(id, name, now, ok))
    ensures Do(s, EngageMark(id, name, now, ok))
            == Moved(s.(tables := if ok then ClusterUpserted(s.tables, name, EngagedRow(now)) else s.tables), id, ok,
                     Marked(name))
  {
  }

  lemma EngageStops(s: State, id: nat, name: string)
    requires Calling(s, id, Marked(name))
    ensures Leads(s, [EngageClear(id, name, false)], Ended(s, id))
  {
    hide Leads;
    LeadsOne(s, EngageClear(id, name, false));
  }

  /** What is left of an engage call once its row is written. */
  function AfterMark(id: nat, name: string, d: Discovery, clientOk: bool): seq<Action> {
    if !(d.Listed? && d.clearOk) then [EngageClear(id, name, false)]
    else [EngageClear(id, name, true)] + (TypeSteps(id, name, d.found) + [EngageAdd(id, name, clientOk)])
  }

  lemma MarkedOnward(s: State, id: nat, name: string, d: Discovery, clientOk: bool)
    requires Calling(s, id, Marked(name))
    ensures Leads(s, AfterMark(id, name, d, clientOk),
                  Ended(s.(tables := Discovered(s.tables, name, d),
                           engaged := if d.Listed? && d.clearOk && clientOk then s.engaged + {name} else s.engaged),
                        id))
  {
    hide Leads, Discovered;
    if d.Listed? && d.clearOk {
      DiscoverySteps(s, id, name, d, clientOk);
    } else {
      EngageStops(s, id, name);
      NothingDiscovered(s.tables, name, d);
    }
  }

  lemma CallOver(s: State, call: Call)
    requires IdsGiven(s)
    ensures s.calls[s.nextId := call] - {s.nextId} == s.calls
  {
  }

  lemma EngageSum(s: State, now: int, name: string, d: Discovery, clientOk: bool)
    requires IdsGiven(s)
    ensures var t := ClusterUpserted(s.tables, name, EngagedRow(now));
      Ended(s.(tables := Discovered(t, name, d), nextId := s.nextId + 1,
               calls := s.calls[s.nextId := Entering(name)][s.nextId := Marked(name)],
               engaged := if d.Listed? && d.clearOk && clientOk then s.engaged - {name} + {name}
                           else s.engaged - {name}), s.nextId)
      == Viewed(s, Next(View(s), Engage(now, name, true, d, clientOk))).(nextId := s.nextId + 1)
  {
    hide Discovered, ClusterUpserted;
    assert s.engaged - {name} + {name} == s.engaged + {name};
    assert s.calls[s.nextId := Entering(name)][s.nextId := Marked(name)] - {s.nextId} == s.calls;
  }

  lemma EngageFails(s: State, now: int, name: string, d: Discovery, clientOk: bool)
    requires IdsGiven(s)
    ensures Ended(Began(s, s.nextId, Entering(name)), s.nextId)
            == Viewed(s, Next(View(s), Engage(now, name, false, d, clientOk))).(nextId := s.nextId + 1)
  {
    hide IdsGiven, Discovered;
    CallOver(s, Entering(name));
  }

  /** An engage call whose steps nothing comes between does what the whole-call step says. */
  lemma UndisturbedEngage(s: State, now: int, name: string, upsertOk: bool, d: Discovery, clientOk: bool)
    requires IdsGiven(s)
    ensures Leads(s, EngageSteps(s.nextId, now, name, upsertOk, d, clientOk),
                  Viewed(s, Next(View(s), Engage(now, name, upsertOk, d, clientOk))).(nextId := s.nextId + 1))
  {
    hide Leads, Can, Do, AfterMark, ClusterUpserted, Discovered, Next, IdsGiven;
    var id := s.nextId;
    var drop, mark := EngageDrop(id, name), EngageMark(id, name, now, upsertOk);
    var dropped := Began(s, id, Entering(name));
    var end := Viewed(s, Next(View(s), Engage(now, name, upsertOk, d, clientOk))).(nextId := s.nextId + 1);
    EngageBegins(s, name);
    EngageMarks(dropped, id, name, now, upsertOk);
    var marked := Do(dropped, mark);
    var rest := if upsertOk then AfterMark(id, name, d, clientOk) else [];
    if upsertOk {
      MarkedOnward(marked, id, name, d, clientOk);
      EngageSum(s, now, name, d, clientOk);
    } else {
      EngageFails(s, now, name, d, clientOk);
      LeadsNowhere(marked);
    }
    LeadsCons(dropped, mark, rest, end);
    LeadsCons(s, drop, [mark] + rest, end);
  }

  lemma NothingDiscovered(t: Tables, name: string, d: Discovery)
    requires !(d.Listed? && d.clearOk)
    ensures Discovered(t, name, d) == t
  {
  }

  lemma DisengageBegins(s: State, name: string)
    ensures Can(s, DisengageDrop(s.nextId, name))
    ensures Do(s, DisengageDrop(s.nextId, name)) == Began(s, s.nextId, Leaving(name))
  {
  }

  lemma DisengageMarks(s: State, id: nat, name: string, now: int, ok: bool)
    requires Calling(s, id, Leaving(name))
    ensures Can(s, DisengageMark(id, name, now, ok))
    ensures Do(s, DisengageMark(id, name, now, ok))
            == Ended(s.(tables := if ok then ClusterUpserted(s.tables, name, StaleRow(now)) else s.tables), id)
  {
  }

  lemma DisengageSum(s: State, now: int, name: string, ok: bool)
    requires IdsGiven(s)
    ensures var t := if ok then ClusterUpserted(s.tables, name, StaleRow(now)) else s.tables;
      Ended(Began(s, s.nextId, Leaving(name)).(tables := t), s.nextId)
      == Viewed(s, Next(View(s), Disengage(now, name, ok))).(nextId := s.nextId + 1)
  {
    hide ClusterUpserted, IdsGiven;
    CallOver(s, Leaving(name));
  }

  lemma UndisturbedDisengage(s: State, now: int, name: string, ok: bool)
    requires IdsGiven(s)
    ensures Leads(s, [DisengageDrop(s.nextId, name)] + [DisengageMark(s.nextId, name, now, ok)],
                  Viewed(s, Next(View(s), Disengage(now, name, ok))).(nextId := s.nextId + 1))
  {
    hide Leads, ClusterUpserted, Can, Do, Next, IdsGiven;
    var drop, mark := DisengageDrop(s.nextId, name), DisengageMark(s.nextId, name, now, ok);
    var dropped := Began(s, s.nextId, Leaving(name));
    DisengageBegins(s, name);
    DisengageMarks(dropped, s.nextId, name, now, ok);
    LeadsOne(dropped, mark);
    LeadsCons(s, drop, [mark], Do(dropped, mark));
    DisengageSum(s, now, name, ok);
  }

  function CollectSteps(due: bool, o: GcOutcome): seq<Action> {
    if !due then [Skip]
    else if !o.objects then [DropObjects(false)]
    else if !o.types then [DropObjects(true), DropTypes(false)]
    else [DropObjects(true), DropTypes(true), DropCluster(o.cluster)]
  }

  lemma LeadsTwo(s: State, a: Action, b: Action)
    requires Can(s, a) && Can(Do(s, a), b)
    ensures Leads(s, [a, b], Do(Do(s, a), b))
  {
    hide Can, Do, Leads;
    LeadsOne(Do(s, a), b);
    LeadsCons(s, a, [b], Do(Do(s, a), b));
    assert [a] + [b] == [a, b];
  }

  lemma ObjectsGo(s: State)
    requires HeadDue(s) && s.stage == 0
    ensures Can(s, DropObjects(true))
    ensures Do(s, DropObjects(true)) == s.(tables := ObjectsCleared(s.tables, s.pending[0].name), stage := 1)
  {
  }

  lemma TypesGo(s: State)
    requires HeadDue(s) && s.stage == 1
    ensures Can(s, DropTypes(true))
    ensures Do(s, DropTypes(true)) == s.(tables := TypesCleared(s.tables, s.pending[0].name), stage := 2)
  {
  }

  lemma ClusterGoes(s: State, ok: bool)
    requires HeadDue(s) && s.stage == 2
    ensures Can(s, DropCluster(ok))
    ensures Do(s, DropCluster(ok))
            == s.(tables := if ok then ClusterDeleted(s.tables, s.pending[0].name) else s.tables,
                  pending := s.pending[1..], stage := 0)
  {
  }

  lemma AllDeletes(s: State, cluster: bool)
    requires HeadDue(s) && s.stage == 0
    ensures Leads(s, [DropObjects(true), DropTypes(true), DropCluster(cluster)],
                  Viewed(s, Next(View(s), GcNext(GcOutcome(true, true, cluster)))))
  {
    hide Leads, ObjectsCleared, TypesCleared, ClusterDeleted, Expired, Can, Do;
    var a, b, c := DropObjects(true), DropTypes(true), DropCluster(cluster);
    ObjectsGo(s);
    var t := Do(s, a);
    TypesGo(t);
    var u := Do(t, b);
    ClusterGoes(u, cluster);
    LeadsTwo(t, b, c);
    LeadsCons(s, a, [b, c], Do(u, c));
    assert [a] + [b, c] == [a, b, c];
  }

  /** The same for the work on one listed cluster. */
  lemma UndisturbedCollect(s: State, o: GcOutcome)
    requires s.pending != [] && s.stage == 0
    ensures Leads(s, CollectSteps(HeadDue(s), o), Viewed(s, Next(View(s), GcNext(o))))
  {
    hide Leads, ObjectsCleared, TypesCleared, ClusterDeleted, Expired;
    if !HeadDue(s) {
      LeadsOne(s, Skip);
    } else if !o.objects {
      LeadsOne(s, DropObjects(false));
    } else if !o.types {
      LeadsTwo(s, DropObjects(true), DropTypes(false));
    } else {
      AllDeletes(s, o.cluster);
    }
  }

  /** Events and the listing are one step in both views. */
  lemma EventsAgree(s: State, name: string, key: ObjectKey, columns: string, ok: bool, now: int, order: seq<string>)
    ensures name in s.engaged ==>
      && View(Do(s, Write(name, key, columns, ok))) == Next(View(s), Upsert(name, key, columns, ok))
      && View(Do(s, Erase(name, key, ok))) == Next(View(s), Delete(name, key, ok))
    ensures Can(s, List(now, order)) ==> View(Do(s, List(now, order))) == Next(View(s), GcList(now, order))
  {
  }

  function RefreshSteps(name: string, found: seq<Found>): seq<Action> {
    if found == [] then [] else [RefreshType(name, found[0])] + RefreshSteps(name, found[1..])
  }

  lemma {:induction false} RefreshStepsLead(s: State, name: string, found: seq<Found>)
    ensures Leads(s, RefreshSteps(name, found), s.(tables := TypesAdded(s.tables, name, found)))
    decreases |found|
  {
    if found == [] {
      assert s.(tables := s.tables) == s;
    } else {
      hide TypesAdded, TypeAdded, Leads;
      TypesAddedFirst(s.tables, name, found);
      var a := RefreshType(name, found[0]);
      RefreshStepsLead(Do(s, a), name, found[1..]);
      LeadsCons(s, a, RefreshSteps(name, found[1..]), s.(tables := TypesAdded(s.tables, name, found)));
    }
  }

  /** A refresh that could list and clear, and that nothing comes between. */
  lemma UndisturbedRefresh(s: State, name: string, d: Discovery)
    requires name in s.engaged && d.Listed? && d.clearOk
    ensures Leads(s, [RefreshClear(name, true)] + RefreshSteps(name, d.found),
                  Viewed(s, Next(View(s), Refresh(name, d))))
  {
    hide Leads, TypesAdded, TypesCleared;
    var a := RefreshClear(name, true);
    RefreshStepsLead(Do(s, a), name, d.found);
    LeadsCons(s, a, RefreshSteps(name, d.found), Viewed(s, Next(View(s), Refresh(name, d))));
  }

  // ----- who is engaged, and whose row is stale -----

  predicate Adds(a: Action, c: string) {
    a.EngageAdd? && a.name == c && a.ok
  }

  predicate Drops(a: Action, c: string) {
    (a.EngageDrop? || a.DisengageDrop?) && a.name == c
  }

  predicate MarksActive(a: Action, c: string) {
    a.EngageMark? && a.name == c && a.ok
  }

  predicate MarksStale(a: Action, c: string) {
    a.DisengageMark? && a.name == c && a.ok
  }

  predicate DeletesRow(s: State, a: Action, c: string) {
    a.DropCluster? && a.ok && s.pending != [] && s.pending[0].name == c
  }

  predicate IsStale(t: Tables, c: string) {
    c in t.clusters && t.clusters[c].status == Stale
  }

  lemma EngagedStep(s: State, a: Action, c: string)
    requires Can(s, a)
    ensures c in Do(s, a).engaged <==> Adds(a, c) || (c in s.engaged && !Drops(a, c))
  {
  }

  lemma StaleStep(s: State, a: Action, c: string)
    requires Can(s, a)
    ensures IsStale(Do(s, a).tables, c)
       <==> MarksStale(a, c) || (IsStale(s.tables, c) && !MarksActive(a, c) && !DeletesRow(s, a, c))
  {
  }

  /** Step `a` put the cluster into the map, and no step since then took it out. */
  ghost predicate EngagedSince(acts: seq<Action>, a: nat, i: nat, c: string)
    requires i <= |acts|
  {
    a < i && Adds(acts[a], c) && forall k :: a < k < i ==> !Drops(acts[k], c)
  }

  /** Step `m` marked the cluster stale, and no step since then marked it active or deleted its row. */
  ghost predicate StaleSince(states: seq<State>, acts: seq<Action>, m: nat, i: nat, c: string)
    requires i <= |acts| && |states| == |acts| + 1
  {
    m < i && MarksStale(acts[m], c)
    && forall k :: m < k < i ==> !MarksActive(acts[k], c) && !DeletesRow(states[k], acts[k], c)
  }

  lemma {:induction false} EngagedIff(states: seq<State>, acts: seq<Action>, i: nat, c: string)
    requires Run(states, acts) && i < |states|
    ensures c in states[i].engaged <==> exists a :: EngagedSince(acts, a, i, c)
  {
    if i > 0 {
      hide Can, Do, Adds, Drops;
      StepOf(states, acts, i - 1);
      EngagedIff(states, acts, i - 1, c);
      EngagedStep(states[i - 1], acts[i - 1], c);
      if Adds(acts[i - 1], c) {
        assert EngagedSince(acts, i - 1, i, c);
      } else {
        if c in states[i].engaged {
          var a :| EngagedSince(acts, a, i - 1, c);
          assert EngagedSince(acts, a, i, c);
        }
        if a :| EngagedSince(acts, a, i, c) {
          assert EngagedSince(acts, a, i - 1, c);
        }
      }
    }
  }

  lemma {:induction false} StaleIff(states: seq<State>, acts: seq<Action>, i: nat, c: string)
    requires Run(states, acts) && i < |states|
    ensures IsStale(states[i].tables, c) <==> exists m :: StaleSince(states, acts, m, i, c)
  {
    if i > 0 {
      hide Can, Do, MarksStale, MarksActive, DeletesRow, IsStale;
      StepOf(states, acts, i - 1);
      StaleIff(states, acts, i - 1, c);
      StaleStep(states[i - 1], acts[i - 1], c);
      if MarksStale(acts[i - 1], c) {
        assert StaleSince(states, acts, i - 1, i, c);
      } else {
        if IsStale(states[i].tables, c) {
          var m :| StaleSince(states, acts, m, i - 1, c);
          assert StaleSince(states, acts, m, i, c);
        }
        if m :| StaleSince(states, acts, m, i, c) {
          assert StaleSince(states, acts, m, i - 1, c);
        }
      }
    }
  }

  // ----- calls and their steps -----

  /** Step `j` is where the engage call `id` wrote the active row. */
  predicate Marks(acts: seq<Action>, j: nat, id: nat, c: string) {
    j < |acts| && MarksActive(acts[j], c) && acts[j].id == id
  }

  predicate Leaves(acts: seq<Action>, j: nat, id: nat, c: string) {
    j < |acts| && acts[j] == DisengageDrop(id, c)
  }

  predicate PastMark(s: State, id: nat, c: string) {
    Calling(s, id, Marked(c)) || Calling(s, id, Cleared(c))
  }

  lemma CallSteps(s: State, a: Action, id: nat, c: string)
    requires Can(s, a)
    ensures PastMark(Do(s, a), id, c) ==> PastMark(s, id, c) || (MarksActive(a, c) && a.id == id)
    ensures Calling(Do(s, a), id, Leaving(c)) ==> Calling(s, id, Leaving(c)) || a == DisengageDrop(id, c)
  {
  }

  lemma {:induction false} MarkedBefore(states: seq<State>, acts: seq<Action>, i: nat, id: nat, c: string)
    requires Run(states, acts) && i < |states| && PastMark(states[i], id, c)
    ensures exists j: nat :: j < i && Marks(acts, j, id, c)
  {
    if i > 0 {
      hide Can, Do, PastMark, MarksActive;
      StepOf(states, acts, i - 1);
      CallSteps(states[i - 1], acts[i - 1], id, c);
      if PastMark(states[i - 1], id, c) {
        MarkedBefore(states, acts, i - 1, id, c);
      } else {
        assert Marks(acts, i - 1, id, c);
      }
    }
  }

  lemma {:induction false} LeftBefore(states: seq<State>, acts: seq<Action>, i: nat, id: nat, c: string)
    requires Run(states, acts) && i < |states| && Calling(states[i], id, Leaving(c))
    ensures exists j: nat :: j < i && Leaves(acts, j, id, c)
  {
    if i > 0 {
      hide Can, Do, Calling;
      StepOf(states, acts, i - 1);
      CallSteps(states[i - 1], acts[i - 1], id, c);
      if Calling(states[i - 1], id, Leaving(c)) {
        LeftBefore(states, acts, i - 1, id, c);
      } else {
        assert Leaves(acts, i - 1, id, c);
      }
    }
  }

  predicate Begins(a: Action) {
    a.EngageDrop? || a.DisengageDrop?
  }

  lemma {:induction false} IdsGrow(states: seq<State>, acts: seq<Action>, i: nat, j: nat)
    requires Run(states, acts) && i <= j < |states|
    ensures states[i].nextId <= states[j].nextId
  {
    if i < j {
      IdsGrow(states, acts, i, j - 1);
      StepOf(states, acts, j - 1);
    }
  }

  /** An id names one call: no two calls begin under the same. */
  lemma OneCallPerId(states: seq<State>, acts: seq<Action>, i: nat, j: nat)
    requires Run(states, acts) && i < j < |acts| && Begins(acts[i]) && Begins(acts[j])
    ensures acts[i].id != acts[j].id
  {
    StepOf(states, acts, i);
    StepOf(states, acts, j);
    IdsGrow(states, acts, i + 1, j);
  }

  /** An engage and a disengage call of the cluster overlap: the engage call writes the active row at
      `mark` and joins the map at `add`, the disengage call leaves the map at `drop` and writes the stale
      row at `stale`, and each begins this before the other ends it. */
  ghost predicate Overlap(acts: seq<Action>, mark: nat, add: nat, drop: nat, stale: nat, c: string) {
    && add < |acts| && stale < |acts|
    && Adds(acts[add], c) && Marks(acts, mark, acts[add].id, c)
    && MarksStale(acts[stale], c) && Leaves(acts, drop, acts[stale].id, c)
    && mark < add && drop < stale && mark < stale && drop < add
  }

  ghost predicate LastCallsOverlap(states: seq<State>, acts: seq<Action>, mark: nat, add: nat, drop: nat, stale: nat,
                                   i: nat, c: string)
    requires i <= |acts| && |states| == |acts| + 1
  {
    EngagedSince(acts, add, i, c) && StaleSince(states, acts, stale, i, c) && Overlap(acts, mark, add, drop, stale, c)
  }

  lemma TheyOverlap(states: seq<State>, acts: seq<Action>, add: nat, stale: nat, i: nat, c: string)
    requires Run(states, acts) && i < |states|
    requires EngagedSince(acts, add, i, c) && StaleSince(states, acts, stale, i, c)
    ensures exists mark, drop :: LastCallsOverlap(states, acts, mark, add, drop, stale, i, c)
  {
    StepOf(states, acts, add);
    StepOf(states, acts, stale);
    assert PastMark(states[add], acts[add].id, c);
    assert Calling(states[stale], acts[stale].id, Leaving(c));
    hide Can, Do, PastMark, Calling;
    MarkedBefore(states, acts, add, acts[add].id, c);
    LeftBefore(states, acts, stale, acts[stale].id, c);
    var mark: nat :| mark < add && Marks(acts, mark, acts[add].id, c);
    var drop: nat :| drop < stale && Leaves(acts, drop, acts[stale].id, c);
    assert LastCallsOverlap(states, acts, mark, add, drop, stale, i, c);
  }

  /** In every run, a cluster is engaged with a stale row exactly when the engage call that last put it
      into the map and a disengage call that marked it stale overlapped, and nothing changed either since. */
  lemma EngagedStaleExactly(states: seq<State>, acts: seq<Action>, i: nat, c: string)
    requires Run(states, acts) && i < |states|
    ensures c in states[i].engaged && IsStale(states[i].tables, c)
       <==> exists mark, add, drop, stale :: LastCallsOverlap(states, acts, mark, add, drop, stale, i, c)
  {
    hide DoneAt, EngagedSince, StaleSince, IsStale;
    EngagedIff(states, acts, i, c);
    StaleIff(states, acts, i, c);
    if c in states[i].engaged && IsStale(states[i].tables, c) {
      var add :| EngagedSince(acts, add, i, c);
      var stale :| StaleSince(states, acts, stale, i, c);
      TheyOverlap(states, acts, add, stale, i, c);
    }
  }

  /** If no engage and disengage call of a cluster overlap, an engaged cluster never has a stale row. */
  lemma WithoutOverlapNeverStale(states: seq<State>, acts: seq<Action>, i: nat, c: string)
    requires Run(states, acts) && i < |states| && c in states[i].engaged
    requires forall mark, add, drop, stale :: !Overlap(acts, mark, add, drop, stale, c)
    ensures !IsStale(states[i].tables, c)
  {
    hide DoneAt, Overlap, IsStale, EngagedSince, StaleSince;
    EngagedStaleExactly(states, acts, i, c);
  }

  // ----- what is stored -----

  /** The step stores its columns for the object. */
  predicate Stores(a: Action, k: ObjectKey) {
    a.Write? && a.ok && a.key.(cluster := a.name) == k
  }

  lemma StoredStep(s: State, a: Action, k: ObjectKey)
    requires Can(s, a) && k in Do(s, a).tables.objects
    ensures Stores(a, k) ==> Do(s, a).tables.objects[k].columns == a.columns
    ensures !Stores(a, k) ==> k in s.tables.objects && Do(s, a).tables.objects[k] == s.tables.objects[k]
    ensures k !in s.tables.objects ==> Do(s, a).tables.objects[k].id == IdKey(k)
    ensures k in s.tables.objects ==> Do(s, a).tables.objects[k].id == s.tables.objects[k].id
  {
  }

  /** Step `j` stored the object, no later one did, and the object has been there since. */
  ghost predicate StoredLast(states: seq<State>, acts: seq<Action>, j: nat, i: nat, k: ObjectKey)
    requires i < |states| == |acts| + 1
  {
    && j < i && Stores(acts[j], k)
    && (forall m :: j < m < i ==> !Stores(acts[m], k))
    && (forall m :: j < m <= i ==> k in states[m].tables.objects)
  }

  /** However calls overlap, the stored columns of an object are those of the last event that stored it,
      after which it was not removed; its id is derived from its key. */
  lemma {:induction false} ColumnsAreLast(states: seq<State>, acts: seq<Action>, i: nat, k: ObjectKey)
    requires Run(states, acts) && i < |states| && k in states[i].tables.objects
    ensures exists j: nat :: StoredLast(states, acts, j, i, k)
              && states[i].tables.objects[k] == Stored(IdKey(k), acts[j].columns)
  {
    if i > 0 {
      hide Can, Do, Stores;
      StepOf(states, acts, i - 1);
      StoredStep(states[i - 1], acts[i - 1], k);
      if k in states[i - 1].tables.objects {
        ColumnsAreLast(states, acts, i - 1, k);
      }
      if Stores(acts[i - 1], k) {
        assert StoredLast(states, acts, i - 1, i, k);
      } else {
        var j: nat :| StoredLast(states, acts, j, i - 1, k)
          && states[i - 1].tables.objects[k] == Stored(IdKey(k), acts[j].columns);
        assert StoredLast(states, acts, j, i, k);
      }
    }
  }

  // ----- the race -----

  /** The last listing among the first `i` steps. */
  ghost function LastListing(acts: seq<Action>, i: nat): (l: Option<nat>)
    requires i <= |acts|
    ensures l.Some? ==> l.value < i && acts[l.value].List?
    ensures forall m :: 0 <= m < i && acts[m].List? ==> l.Some? && m <= l.value
  {
    if i == 0 then None else if acts[i - 1].List? then Some(i - 1) else LastListing(acts, i - 1)
  }

  /** The pending cluster was stale when the clusters were listed, and its row was the one kept. */
  ghost predicate AsListed(states: seq<State>, acts: seq<Action>, i: nat, p: Snapshot)
    requires |states| == |acts| + 1 && i < |states|
  {
    LastListing(acts, i).Some? &&
    var t := states[LastListing(acts, i).value].tables;
    IsStale(t, p.name) && t.clusters[p.name] == p.row
  }

  lemma PendingKept(s: State, a: Action, p: Snapshot)
    requires Can(s, a) && !a.List? && p in Do(s, a).pending
    ensures p in s.pending
  {
  }

  lemma {:induction false} PendingWasListed(states: seq<State>, acts: seq<Action>, i: nat, p: Snapshot)
    requires Run(states, acts) && i < |states| && p in states[i].pending
    ensures AsListed(states, acts, i, p)
  {
    if i > 0 {
      hide DoneAt;
      StepOf(states, acts, i - 1);
      var s, a := states[i - 1], acts[i - 1];
      if a.List? {
        SnapshotsFresh(s.tables, a.order);
        var x :| 0 <= x < |a.order| && states[i].pending[x] == p;
        assert a.order[x] in a.order;
      } else {
        hide Can, Do, IsStale;
        PendingKept(s, a, p);
        PendingWasListed(states, acts, i - 1, p);
      }
    }
  }

  ghost predicate AddedAfter(acts: seq<Action>, l: nat, i: nat, c: string)
    requires i <= |acts|
  {
    exists a :: l < a < i && Adds(acts[a], c)
  }

  ghost predicate OverlappedAt(states: seq<State>, acts: seq<Action>, l: nat, c: string)
    requires l <= |acts| && |states| == |acts| + 1
  {
    exists mark, add, drop, stale :: LastCallsOverlap(states, acts, mark, add, drop, stale, l, c)
  }

  /** Why a cluster can be engaged although a pass has it still pending: an engage call put it into the
      map after the listing, or it was engaged with a stale row when listed, from calls that overlapped. */
  lemma EngagedWhilePending(states: seq<State>, acts: seq<Action>, i: nat, p: Snapshot)
    requires Run(states, acts) && i < |states| && p in states[i].pending && p.name in states[i].engaged
    ensures AsListed(states, acts, i, p)
    ensures var l := LastListing(acts, i).value; AddedAfter(acts, l, i, p.name) || OverlappedAt(states, acts, l, p.name)
  {
    hide DoneAt, LastCallsOverlap, StaleSince, Adds, Drops, IsStale;
    PendingWasListed(states, acts, i, p);
    EngagedIff(states, acts, i, p.name);
    var l := LastListing(acts, i).value;
    var a: nat :| EngagedSince(acts, a, i, p.name);
    if a < l {
      assert EngagedSince(acts, a, l, p.name);
      EngagedIff(states, acts, l, p.name);
      EngagedStaleExactly(states, acts, l, p.name);
    } else {
      AddIsNoListing(acts[a], p.name);
    }
  }

  lemma AddIsNoListing(a: Action, c: string)
    requires Adds(a, c)
    ensures !a.List?
  {
  }

  predicate IsDelete(a: Action) {
    a.DropObjects? || a.DropTypes? || a.DropCluster?
  }

  /** There are rows of `c` in the table that the delete works on. */
  ghost predicate HasRows(t: Tables, a: Action, c: string) {
    match a
    case DropObjects(_) => exists k :: k in t.objects && k.cluster == c
    case DropTypes(_) => exists k :: k in t.types && k.cluster == c
    case DropCluster(_) => c in t.clusters
    case _ => false
  }

  lemma DeleteExactly(s: State, a: Action, c: string)
    requires Can(s, a) && IsDelete(a)
    ensures SameRowsOf(s.tables, Do(s, a).tables, c) <==> !(s.pending[0].name == c && a.ok && HasRows(s.tables, a, c))
  {
  }

  /** Exactly when a single delete of a pass touches the rows of an engaged cluster: it is at that cluster,
      it succeeds, and there are rows to delete. The cluster's row had then expired when it was listed, and
      the cluster either was engaged after the listing or was listed with a stale row though engaged, which
      takes overlapping calls. */
  lemma DeleteRace(states: seq<State>, acts: seq<Action>, i: nat, c: string)
    requires Run(states, acts) && i < |acts| && IsDelete(acts[i]) && c in states[i].engaged
    ensures states[i].pending != [] && AsListed(states, acts, i, states[i].pending[0])
    ensures Expired(states[i].pending[0].row, states[i].gcNow)
    ensures !SameRowsOf(states[i].tables, states[i + 1].tables, c) <==>
      states[i].pending[0].name == c && acts[i].ok && HasRows(states[i].tables, acts[i], c)
    ensures !SameRowsOf(states[i].tables, states[i + 1].tables, c) ==>
      var l := LastListing(acts, i).value; AddedAfter(acts, l, i, c) || OverlappedAt(states, acts, l, c)
  {
    hide DoneAt, SameRowsOf, HasRows, Expired, AsListed, AddedAfter, OverlappedAt, Do;
    StepOf(states, acts, i);
    var p := states[i].pending[0];
    PendingWasListed(states, acts, i, p);
    DeleteExactly(states[i], acts[i], c);
    if p.name == c {
      EngagedWhilePending(states, acts, i, p);
    }
  }

  // ----- orphans -----

  predicate AddsType(a: Action) {
    (a.EngageType? || a.RefreshType?) && a.found.ok
  }

  /** Exactly which step leaves an object or resource-type row without a cluster row, if there was none
      before: a row is written for a cluster that has no row, or a pass deletes the row of a cluster that
      has other rows. */
  lemma OrphanExactly(s: State, a: Action)
    requires Can(s, a) && Owned(s.tables)
    ensures !Owned(Do(s, a).tables) <==>
      || (a.Write? && a.ok && a.name !in s.tables.clusters)
      || (AddsType(a) && a.name !in s.tables.clusters)
      || (a.DropCluster? && a.ok && HasRowsBelow(s.tables, s.pending[0].name))
  {
    match a
    case Write(name, key, columns, ok) => WriteOwned(s.tables, name, key, columns);
    case EngageType(_, name, found) => TypeOwned(s.tables, name, found);
    case RefreshType(name, found) => TypeOwned(s.tables, name, found);
    case DropCluster(_) => DeleteOwned(s.tables, s.pending[0].name);
    case _ =>
  }

  ghost predicate Working(states: seq<State>, j: nat, i: nat, stage: nat) {
    j <= i < |states| && forall m :: j <= m <= i ==> states[m].stage >= stage
  }

  lemma StageOf(s: State, a: Action)
    requires Can(s, a) && (s.stage > 0 ==> s.pending != [])
    ensures Do(s, a).stage > 0 ==> Do(s, a).pending != [] && Do(s, a).pending[0] == s.pending[0]
    ensures Do(s, a).stage > s.stage ==> (a.DropObjects? || a.DropTypes?) && a.ok && Do(s, a).stage == s.stage + 1
  {
  }

  lemma {:induction false} StagesHaveHead(states: seq<State>, acts: seq<Action>, i: nat)
    requires Run(states, acts) && i < |states|
    ensures states[i].stage > 0 ==> states[i].pending != []
  {
    if i > 0 {
      hide DoneAt, Can, Do;
      StagesHaveHead(states, acts, i - 1);
      StepOf(states, acts, i - 1);
      StageOf(states[i - 1], acts[i - 1]);
    }
  }

  lemma ObjectStep(s: State, a: Action, k: ObjectKey)
    requires Can(s, a) && k in Do(s, a).tables.objects
    ensures k in s.tables.objects || Stores(a, k)
    ensures a.DropObjects? && a.ok ==> k.cluster != s.pending[0].name
    ensures Stores(a, k) ==> Do(s, a).stage == s.stage
  {
  }

  /** An object that a cluster has after a pass deleted its objects was written since, during that work. */
  lemma {:induction false} WrittenMeanwhile(states: seq<State>, acts: seq<Action>, i: nat, k: ObjectKey)
    requires Run(states, acts) && i < |states| && states[i].stage > 0 && k in states[i].tables.objects
    requires states[i].pending != [] && states[i].pending[0].name == k.cluster
    ensures exists j: nat :: j < i && Stores(acts[j], k) && Working(states, j, i, 1)
  {
    if i > 0 {
      hide DoneAt, Can, Do, Stores;
      StepOf(states, acts, i - 1);
      StagesHaveHead(states, acts, i - 1);
      StageOf(states[i - 1], acts[i - 1]);
      ObjectStep(states[i - 1], acts[i - 1], k);
      if Stores(acts[i - 1], k) {
        assert Working(states, i - 1, i, 1);
      } else if states[i - 1].stage > 0 {
        WrittenMeanwhile(states, acts, i - 1, k);
        var j: nat :| j < i - 1 && Stores(acts[j], k) && Working(states, j, i - 1, 1);
        assert Working(states, j, i, 1);
      } else {
        StageZero(states[i - 1], acts[i - 1]);
        assert false;
      }
    }
  }

  lemma StageZero(s: State, a: Action)
    requires Can(s, a) && s.stage == 0 && Do(s, a).stage > 0
    ensures a.DropObjects? && a.ok
  {
  }

  ghost predicate HasRowsBelow(t: Tables, c: string) {
    (exists k :: k in t.objects && k.cluster == c) || (exists k :: k in t.types && k.cluster == c)
  }

  lemma WriteOwned(t: Tables, name: string, key: ObjectKey, columns: string)
    requires Owned(t)
    ensures Owned(Upserted(t, name, key, columns, true)) <==> name in t.clusters
  {
    assert key.(cluster := name) in Upserted(t, name, key, columns, true).objects;
  }

  lemma TypeOwned(t: Tables, name: string, f: Found)
    requires Owned(t)
    ensures Owned(TypeAdded(t, name, f)) <==> !f.ok || name in t.clusters
  {
    assert f.ok ==> f.key.(cluster := name) in TypeAdded(t, name, f).types;
  }

  lemma DeleteOwned(t: Tables, c: string)
    requires Owned(t)
    ensures Owned(ClusterDeleted(t, c)) <==> !HasRowsBelow(t, c)
  {
  }

  // ----- it happens -----

  const HOUR := DEFAULT_TTL * SECOND

  /** While a cluster is being engaged it is disengaged as a whole; then engaging goes on. An event stores
      an object; when the stale row has expired, a pass lists the cluster and deletes all it has. */
  function OverlapActs(c: string, key: ObjectKey): seq<Action> {
    [EngageDrop(0, c), EngageMark(0, c, 0, true), DisengageDrop(1, c), DisengageMark(1, c, 0, true),
     EngageClear(0, c, true), EngageAdd(0, c, true), Write(c, key, "", true),
     List(HOUR, [c]), DropObjects(true), DropTypes(true), DropCluster(true)]
  }

  function OverlapStates(c: string, key: ObjectKey): seq<State> {
    var own := key.(cluster := c);
    var stored := map[own := Stored(IdKey(own), "")];
    var active, stale := map[c := EngagedRow(0)], map[c := StaleRow(0)];
    var listed := [Snapshot(c, StaleRow(0))];
    [START,
     State(EMPTY, {}, map[0 := Entering(c)], 1, [], 0, 0),
     State(Tables(map[], map[], active), {}, map[0 := Marked(c)], 1, [], 0, 0),
     State(Tables(map[], map[], active), {}, map[0 := Marked(c), 1 := Leaving(c)], 2, [], 0, 0),
     State(Tables(map[], map[], stale), {}, map[0 := Marked(c)], 2, [], 0, 0),
     State(Tables(map[], map[], stale), {}, map[0 := Cleared(c)], 2, [], 0, 0),
     State(Tables(map[], map[], stale), {c}, map[], 2, [], 0, 0),
     State(Tables(stored, map[], stale), {c}, map[], 2, [], 0, 0),
     State(Tables(stored, map[], stale), {c}, map[], 2, listed, HOUR, 0),
     State(Tables(map[], map[], stale), {c}, map[], 2, listed, HOUR, 1),
     State(Tables(map[], map[], stale), {c}, map[], 2, listed, HOUR, 2),
     State(EMPTY, {c}, map[], 2, [], HOUR, 0)]
  }

  lemma IsEngaging(c: string, key: ObjectKey, i: nat)
    requires i < 2
    ensures DoneAt(OverlapStates(c, key), OverlapActs(c, key), i)
  {
    var s, a := OverlapStates(c, key), OverlapActs(c, key);
    assert Do(s[i], a[i]).calls == s[i + 1].calls;
    assert Do(s[i], a[i]).tables.clusters == s[i + 1].tables.clusters;
  }

  lemma IsDisengaged(c: string, key: ObjectKey, i: nat)
    requires 2 <= i < 4
    ensures DoneAt(OverlapStates(c, key), OverlapActs(c, key), i)
  {
    var s, a := OverlapStates(c, key), OverlapActs(c, key);
    assert Do(s[i], a[i]).calls == s[i + 1].calls;
    assert Do(s[i], a[i]).tables.clusters == s[i + 1].tables.clusters;
  }

  lemma Rejoins(c: string, key: ObjectKey, i: nat)
    requires 4 <= i < 7
    ensures DoneAt(OverlapStates(c, key), OverlapActs(c, key), i)
  {
    var s, a := OverlapStates(c, key), OverlapActs(c, key);
    assert Do(s[i], a[i]).calls == s[i + 1].calls;
    assert Do(s[i], a[i]).tables.types == s[i + 1].tables.types;
  }

  lemma IsListed(c: string, key: ObjectKey)
    ensures DoneAt(OverlapStates(c, key), OverlapActs(c, key), 7)
  {
    var t := OverlapStates(c, key)[7].tables;
    assert StaleClusters(t, HOUR) == {c};
    assert [c][..0] == [];
    assert Snapshots(t, [c]) == [Snapshot(c, StaleRow(0))];
  }

  lemma IsDeleted(c: string, key: ObjectKey, i: nat)
    requires 8 <= i < 11
    ensures DoneAt(OverlapStates(c, key), OverlapActs(c, key), i)
  {
    var s, a := OverlapStates(c, key), OverlapActs(c, key);
    assert Do(s[i], a[i]).tables.objects == s[i + 1].tables.objects;
    assert Do(s[i], a[i]).tables.types == s[i + 1].tables.types;
    assert Do(s[i], a[i]).tables.clusters == s[i + 1].tables.clusters;
  }

  /** Such a run exists, for any cluster and object: the cluster is engaged before the listing and stays so,
      and still loses all its rows. */
  lemma OverlapHappens(c: string, key: ObjectKey)
    ensures var states := OverlapStates(c, key);
      && Run(states, OverlapActs(c, key))
      && (forall i :: 6 <= i < |states| ==> c in states[i].engaged)
      && key.(cluster := c) in states[8].tables.objects && NoRowsOf(states[11].tables, c)
  {
    var states, acts := OverlapStates(c, key), OverlapActs(c, key);
    hide DoneAt;
    forall i | 0 <= i < |acts|
      ensures DoneAt(states, acts, i)
    {
      if i < 2 {
        IsEngaging(c, key, i);
      } else if i < 4 {
        IsDisengaged(c, key, i);
      } else if i < 7 {
        Rejoins(c, key, i);
      } else if i == 7 {
        IsListed(c, key);
      } else {
        IsDeleted(c, key, i);
      }
    }
  }
}
