// SyncManifest and ApplyManifest as the runner executes them, proved against the step model.
module SyncRunner {
  import opened Common
  import opened Manifests
  import opened DependencyGraph
  import opened DependsOnSpec
  import opened DependencyOrder
  import opened StateKeys
  import opened StateDiff
  import opened SyncModel
  import opened LayerConfluence
  import opened LayeredApply
  import opened RunConfluence
  import opened ApplyMeaning
  import opened SyncMeaning
  import opened RunTrace

  datatype ApplyError =
    | BadOrder(error: OrderError)
    | LayerApplyFailed(layer: nat)
    | SaveFailed(name: string)

  method CurrentState(name: string, objects: seq<Object>) returns (currentEntries: Entries, objectsByKey: map<string, Object>)
    ensures currentEntries == EntriesOf(name, objects) && objectsByKey == ByKey(name, objects)
  {
    currentEntries, objectsByKey := map[], map[];
    for i := 0 to |objects|
      invariant currentEntries == EntriesOf(name, objects[..i]) && objectsByKey == ByKey(name, objects[..i])
    {
      assert objects[..i + 1][..i] == objects[..i];
      var key := KeyOf(name, objects[i]);
      currentEntries := currentEntries[key := objects[i].content.hash];
      objectsByKey := objectsByKey[key := objects[i]];
    }
    assert objects[..|objects|] == objects;
  }

  lemma {:induction false} OneMoreTask(opts: Options, tasks: seq<Task>, t: Task, w: World)
    ensures var before := ApplyInOrder(opts, tasks, w); var r := RunJob(opts, t.job, t.outcome, before);
            && ApplyInOrder(opts, tasks + [t], w) == r.1
            && (AnyFails(opts, tasks + [t], w) <==> AnyFails(opts, tasks, w) || r.0 == Failed)
  {
    hide RunJob;
    if tasks == [] {
      assert tasks + [t] == [t];
      assert [t][1..] == [];
    } else {
      assert (tasks + [t])[1..] == tasks[1..] + [t];
      OneMoreTask(opts, tasks[1..], t, RunJob(opts, tasks[0].job, tasks[0].outcome, w).1);
    }
  }

  ghost function TasksOf(p: Plan, idxs: seq<nat>): seq<Task>
    requires |p.tasks| == |p.ms|
  {
    var m := Pick(p, idxs);
    seq(|m|, k requires 0 <= k < |m| => p.tasks[PickedIndex(p, idxs, k)])
  }

  ghost function PickedIndex(p: Plan, idxs: seq<nat>, k: nat): (i: nat)
    requires k < |Pick(p, idxs)|
    ensures i < |p.ms|
  {
    assert Pick(p, idxs)[k] in Pick(p, idxs);
    Pick(p, idxs)[k]
  }

  lemma {:induction false} PickOneMore(p: Plan, idxs: seq<nat>, i: nat)
    ensures Pick(p, idxs + [i]) == Pick(p, idxs) + if Selected(p, i) then [i] else []
  {
    hide Selected;
    if idxs == [] {
      assert idxs + [i] == [i];
    } else {
      assert (idxs + [i])[1..] == idxs[1..] + [i];
      PickOneMore(p, idxs[1..], i);
    }
  }

  lemma TasksOneMore(p: Plan, idxs: seq<nat>, i: nat)
    requires |p.tasks| == |p.ms|
    ensures TasksOf(p, idxs + [i]) == if Selected(p, i) then TasksOf(p, idxs) + [p.tasks[i]] else TasksOf(p, idxs)
  {
    PickOneMore(p, idxs, i);
    hide Pick, MatchesTags;
  }

  /** What the next manifest of a layer adds, skipped ones nothing. */
  lemma LayerOneMore(p: Plan, layer: seq<nat>, j: nat, w: World)
    requires |p.tasks| == |p.ms| && j < |layer| && layer[j] < |p.ms|
    ensures var before, next := TasksOf(p, layer[..j]), TasksOf(p, layer[..j + 1]);
            var now := ApplyInOrder(p.opts, before, w);
            var r := RunJob(p.opts, p.tasks[layer[j]].job, p.tasks[layer[j]].outcome, now);
            if MatchesTags(p.ms[layer[j]], p.tags) then
              ApplyInOrder(p.opts, next, w) == r.1 && (AnyFails(p.opts, next, w) <==> AnyFails(p.opts, before, w) || r.0 == Failed)
            else next == before
  {
    assert layer[..j + 1] == layer[..j] + [layer[j]];
    TasksOneMore(p, layer[..j], layer[j]);
    OneMoreTask(p.opts, TasksOf(p, layer[..j]), p.tasks[layer[j]], w);
    hide AnyFails, ApplyInOrder, TasksOf, RunJob, MatchesTags;
  }

  /** One step of a run that is still going leads to the same end. */
  lemma FinishStep(opts: Options, job: Job, o: Outcome, p: Phase, w: World)
    requires !Done(p)
    ensures var next := Step(opts, job, o, p, w);
            Finish(opts, job, o, p, w) == Finish(opts, job, o, next.0, next.1)
  {
  }

  /** Where a sync of a manifest goes from its first step. */
  lemma FirstStep(opts: Options, job: Job, o: Outcome, w: World)
    requires opts.sync
    ensures RunJob(opts, job, o, w) ==
            if job.name == "" then (Succeeded, w)
            else if !o.buildUp || !o.readUp then (Failed, w)
            else
              var saved := if job.name in w.store then w.store[job.name] else map[];
              var current := EntriesOf(job.name, job.objects);
              var diff := Diff(saved, current, if job.alwaysSync then current.Keys else {});
              if diff == [] then Finish(opts, job, o, Testing, w) else Finish(opts, job, o, Syncing(diff, saved), w)
  {
    hide Diff, EntriesOf;
  }

  /** `a` is `end` with some put-off saves made, none of which fails. */
  ghost predicate PartlySaved(a: World, end: World, saveFails: set<string>) {
    && a.cluster == end.cluster
    && (forall n :: n in a.pending ==> n in end.pending && a.pending[n] == end.pending[n])
    && a.store == end.store + (end.pending - a.pending.Keys)
    && (end.pending.Keys - a.pending.Keys) !! saveFails
  }

  lemma NothingSavedYet(w: World, saveFails: set<string>)
    ensures PartlySaved(w, w, saveFails)
  {
    assert w.pending - w.pending.Keys == map[];
    assert w.store + map[] == w.store;
  }

  lemma SavedOneMore(a: World, end: World, saveFails: set<string>, name: string)
    requires PartlySaved(a, end, saveFails) && name in a.pending && name !in saveFails
    ensures PartlySaved(a.(store := a.store[name := a.pending[name]], pending := a.pending - {name}), end, saveFails)
    ensures (a.pending - {name}).Keys < a.pending.Keys
  {
    var rest := a.pending - {name};
    assert rest.Keys == a.pending.Keys - {name};
    assert (end.pending - rest.Keys) == (end.pending - a.pending.Keys)[name := a.pending[name]];
  }

  lemma AllSaved(a: World, end: World, saveFails: set<string>)
    requires PartlySaved(a, end, saveFails) && a.pending == map[]
    ensures a.store == end.store + end.pending && end.pending.Keys !! saveFails
  {
    assert end.pending - a.pending.Keys == end.pending;
  }

  /** With no filter every manifest is taken, and else those with one of its tags. */
  method AnyTagMatches(m: Manifest, filter: seq<string>) returns (r: bool)
    ensures r <==> |filter| == 0 || exists a, b :: 0 <= a < |filter| && 0 <= b < |m.tags| && filter[a] == m.tags[b]
    ensures r == MatchesTags(m, filter)
  {
    MatchesByTags(m, filter);
    if |filter| == 0 {
      return true;
    }
    for a := 0 to |filter|
      invariant forall t :: t in filter[..a] ==> t !in m.tags
    {
      if filter[a] in m.tags {
        return true;
      }
    }
    assert filter[..|filter|] == filter;
    r := false;
  }

  class TazunaRunner {
    var cluster: Cluster
    var store: map<string, Entries>
    var pendingSaves: map<string, Entries>

    constructor (cluster: Cluster, store: map<string, Entries>)
      ensures Now() == World(cluster, store, map[])
    {
      this.cluster, this.store, pendingSaves := cluster, store, map[];
    }

    function Now(): World
      reads this
    {
      World(cluster, store, pendingSaves)
    }

    /** A cluster call; a failing one may still have taken effect. */
    method Attempt(o: Outcome, key: string, call: Call) returns (ok: bool)
      modifies this`cluster
      ensures cluster == SyncModel.Attempt(o, key, call, old(cluster)) && ok == (key !in o.failing)
    {
      ok := key !in o.failing;
      if ok || key in o.landed {
        match call
        case Put(slot, content) => cluster := cluster[slot := content];
        case Delete(slot) => cluster := cluster - {slot};
      }
    }

    method RunTests(o: Outcome) returns (ok: bool)
      ensures ok == o.testsPass
    {
      ok := o.testsPass;
    }

    /** Carries out one diff entry. */
    method SyncEntry(opts: Options, job: Job, o: Outcome, objectsByKey: map<string, Object>,
                     entry: DiffEntry, newEntries: Entries, ghost todo: seq<DiffEntry>)
        returns (ok: bool, entries: Entries)
      requires objectsByKey == ByKey(job.name, job.objects) && todo != [] && todo[0] == entry
      modifies this`cluster
      ensures (if ok then Syncing(todo[1..], entries) else Failed, Now())
              == SyncStep(opts, job, o, todo, newEntries, old(Now()))
    {
      hide ObjectOfKey, ByKey;
      entries := newEntries;
      match entry.diffType {
        case Removed =>
          if opts.prune {
            var target := ObjectOfKey(entry.key);
            if target.Err? {
              return false, entries;
            }
            ok := Attempt(o, entry.key, Delete(SlotOf(target.value)));
            if ok {
              entries := entries - {entry.key};
            }
          } else {
            ok := true;
          }
        case _ =>
          if entry.key !in objectsByKey {
            return false, entries;
          }
          var obj := objectsByKey[entry.key];
          ok := Attempt(o, entry.key, Put(SlotOf(obj.id), obj.content));
          if ok {
            entries := entries[entry.key := entry.newHash];
          }
      }
    }

    method SyncManifest(opts: Options, job: Job, o: Outcome) returns (ok: bool)
      requires opts.sync
      modifies this
      ensures Synced(opts, job, o, old(Now()), ok, Now())
      ensures (if ok then Succeeded else Failed, Now()) == RunJob(opts, job, o, old(Now()))
    {
      hide Synced, Finish, Step, RunJob, Diff, EntriesOf, ByKey, SaysSo, ListedBefore;
      ghost var start := Now();
      FirstStep(opts, job, o, start);
      SyncMakesTheChanges(opts, job, o, start);
      if job.name == "" {
        return true;
      }
      if !o.buildUp {
        return false;
      }
      var currentEntries, objectsByKey := CurrentState(job.name, job.objects);
      if !o.readUp {
        return false;
      }
      var stateEntries := if job.name in store then store[job.name] else map[];
      var alwaysSyncKeys := if job.alwaysSync then currentEntries.Keys else {};
      var diffEntries := ComputeDiff(stateEntries, currentEntries, alwaysSyncKeys);
      if |diffEntries| > 0 {
        ok := SyncDiff(opts, job, o, objectsByKey, diffEntries, stateEntries);
        if !ok {
          return;
        }
      }
      TestingEnds(opts, job, o, Now());
      ok := RunTests(o);
    }

    /** Carries out the whole diff, waits for readiness and saves: everything up to the tests. */
    method SyncDiff(opts: Options, job: Job, o: Outcome, objectsByKey: map<string, Object>,
                    diffEntries: seq<DiffEntry>, stateEntries: Entries) returns (ok: bool)
      requires objectsByKey == ByKey(job.name, job.objects)
      modifies this
      ensures Finish(opts, job, o, Syncing(diffEntries, stateEntries), old(Now()))
              == if ok then Finish(opts, job, o, Testing, Now()) else (Failed, Now())
    {
      hide ByKey, SyncStep, ObjectOfKey, Finish, EntriesOf;
      var newEntries := stateEntries;
      ghost var start := Now();
      ghost var end := Finish(opts, job, o, Syncing(diffEntries, stateEntries), start);
      assert diffEntries[0..] == diffEntries;
      for i := 0 to |diffEntries|
        invariant store == start.store && pendingSaves == start.pending
        invariant end == Finish(opts, job, o, Syncing(diffEntries[i..], newEntries), Now())
      {
        FinishStep(opts, job, o, Syncing(diffEntries[i..], newEntries), Now());
        ok, newEntries := SyncEntry(opts, job, o, objectsByKey, diffEntries[i], newEntries, diffEntries[i..]);
        assert diffEntries[i..][1..] == diffEntries[i + 1..];
        if !ok {
          FailedIsFinal(opts, job, o, Now());
          return;
        }
      }
      FinishStep(opts, job, o, Syncing([], newEntries), Now());
      FailedIsFinal(opts, job, o, Now());
      if !o.readyUp {
        return false;
      }
      FinishStep(opts, job, o, Saving(newEntries), Now());
      if opts.atomic {
        pendingSaves := pendingSaves[job.name := newEntries];
      } else {
        if !o.saveUp {
          return false;
        }
        store := store[job.name := newEntries];
      }
      ok := true;
    }

    method ApplyManifest(opts: Options, job: Job, o: Outcome) returns (ok: bool)
      requires !opts.sync
      modifies this
      ensures Applied(job, o, old(Now()), ok, Now())
      ensures (if ok then Succeeded else Failed, Now()) == RunJob(opts, job, o, old(Now()))
    {
      ghost var start := Now();
      FinishStep(opts, job, o, Start, start);
      ApplyPutsTheBuild(opts, job, o, start);
      hide Applied;
      if !o.buildUp {
        return false;
      }
      ok := ManagerApply(opts, job, o);
      if !ok {
        return;
      }
      FinishStep(opts, job, o, PlainTesting, Now());
      ok := RunTests(o);
      if !ok {
        return;
      }
      FinishStep(opts, job, o, PlainSaving, Now());
      ok := SaveManifestState(job, o);
    }

    /** One manifest, as its goroutine runs it. */
    method ApplyTask(opts: Options, task: Task) returns (ok: bool)
      modifies this
      ensures if opts.sync then Synced(opts, task.job, task.outcome, old(Now()), ok, Now())
              else Applied(task.job, task.outcome, old(Now()), ok, Now())
      ensures (if ok then Succeeded else Failed, Now()) == RunJob(opts, task.job, task.outcome, old(Now()))
    {
      hide RunJob, Synced, Applied;
      if opts.sync {
        ok := SyncManifest(opts, task.job, task.outcome);
      } else {
        ok := ApplyManifest(opts, task.job, task.outcome);
      }
    }

    /** The goroutines of one layer, here in declaration order; every one of them runs to its end. */
    method ApplyLayer(ghost p: Plan, layer: seq<nat>, ms: seq<Manifest>, tags: seq<string>, opts: Options, tasks: seq<Task>)
        returns (failed: bool)
      requires p == Plan(ms, p.layers, tags, opts, tasks) && |tasks| == |ms|
      requires forall i :: i in layer ==> i < |ms|
      modifies this
      ensures Now() == ApplyInOrder(opts, TasksOf(p, layer), old(Now()))
      ensures failed <==> AnyFails(opts, TasksOf(p, layer), old(Now()))
    {
      ghost var w := Now();
      failed := false;
      assert TasksOf(p, layer[..0]) == [];
      assert layer[..|layer|] == layer;
      assert Now() == ApplyInOrder(opts, [], w) && !AnyFails(opts, [], w);
      hide AnyFails, ApplyInOrder, TasksOf, RunJob;
      for j := 0 to |layer|
        invariant Now() == ApplyInOrder(opts, TasksOf(p, layer[..j]), w)
        invariant failed <==> AnyFails(opts, TasksOf(p, layer[..j]), w)
      {
        assert layer[j] in layer;
        LayerOneMore(p, layer, j, w);
        var selected := AnyTagMatches(ms[layer[j]], tags);
        if selected {
          var ok := ApplyTask(opts, tasks[layer[j]]);
          failed := failed || !ok;
        }
      }
    }

    /** Layer after layer, up to the first in which a manifest fails. */
    method ApplyLayers(ghost p: Plan, ms: seq<Manifest>, layers: seq<seq<nat>>, tags: seq<string>, opts: Options, tasks: seq<Task>)
        returns (failedLayer: Option<nat>)
      requires p == Plan(ms, layers, tags, opts, tasks) && ValidPlan(p)
      modifies this
      ensures match failedLayer
              case Some(l) => l < |layers| && FirstFailure(p, old(Now()), l) && Now() == WorldBefore(p, old(Now()), l + 1)
              case None => Now() == WorldBefore(p, old(Now()), |layers|)
                           && forall l: nat :: l < |layers| ==> !InOrderFails(p, old(Now()), l)
      ensures RunsLayers(p, old(Now()), if failedLayer.Some? then failedLayer.value + 1 else |layers|, Now(), failedLayer)
    {
      hide RunsLayers;
      ghost var w := Now();
      hide Ordered, ApplyInOrder, AnyFails, LayerTasks, TasksOf;
      for l := 0 to |layers|
        invariant Now() == WorldBefore(p, w, l)
        invariant forall k: nat :: k < l ==> !InOrderFails(p, w, k)
      {
        LayerInRange(p, l);
        var failed := ApplyLayer(p, layers[l], ms, tags, opts, tasks);
        assert WorldBefore(p, w, l + 1) == ApplyInOrder(opts, LayerTasks(p, l), WorldBefore(p, w, l));
        if failed {
          InOrderRunsLayers(p, w, l + 1, Some(l));
          return Some(l);
        }
      }
      InOrderRunsLayers(p, w, |layers|, None);
      failedLayer := None;
    }

    /** The final round of saves of an atomic run, in any order, up to the first that fails: the saves
        made by then are in the store, the others still put off. */
    method CommitPending(saveFails: set<string>) returns (failed: Option<string>)
      modifies this
      ensures PartlySaved(Now(), old(Now()), saveFails)
      ensures failed.None? <==> old(pendingSaves).Keys !! saveFails
      ensures failed.None? ==> pendingSaves == map[] && store == old(store) + old(pendingSaves)
      ensures failed.Some? ==> failed.value in saveFails && failed.value in pendingSaves
    {
      ghost var start := Now();
      NothingSavedYet(start, saveFails);
      while pendingSaves != map[]
        invariant PartlySaved(Now(), start, saveFails)
        decreases pendingSaves.Keys
      {
        var name :| name in pendingSaves;
        if name in saveFails {
          return Some(name);
        }
        SavedOneMore(Now(), start, saveFails, name);
        store := store[name := pendingSaves[name]];
        pendingSaves := pendingSaves - {name};
      }
      AllSaved(Now(), start, saveFails);
      failed := None;
    }

    /** ApplyToCluster on the schedule that applies each layer in declaration order. Any other
        schedule ends the same way when the manifests of a layer share nothing. */
    method ApplyToCluster(ms: seq<Manifest>, tags: seq<string>, opts: Options, tasks: seq<Task>, saveFails: set<string>)
        returns (r: Result<(), ApplyError>, ghost p: Plan)
      requires |tasks| == |ms| && forall i :: 0 <= i < |ms| ==> tasks[i].job.name == ms[i].name
      modifies this
      ensures p == Plan(ms, p.layers, tags, opts, tasks)
      ensures Resolvable(ms) ==> ValidPlan(p)
      ensures r.Err? && r.error.BadOrder? <==> !Resolvable(ms)
      ensures !Resolvable(ms) ==> cluster == old(cluster) && store == old(store)
      ensures r.Err? && r.error.LayerApplyFailed? ==>
                r.error.layer < |p.layers| && Now() == WorldBefore(p, old(Now()).(pending := map[]), r.error.layer + 1)
      ensures r.Err? && r.error.LayerApplyFailed? ==> FirstFailure(p, old(Now()).(pending := map[]), r.error.layer)
      ensures r.Ok? ==> forall l: nat :: l < |p.layers| ==> !InOrderFails(p, old(Now()).(pending := map[]), l)
      ensures r.Ok? && !(opts.sync && opts.atomic) ==> Now() == WorldBefore(p, old(Now()).(pending := map[]), |p.layers|)
      ensures r.Ok? && opts.sync && opts.atomic ==>
                var end := WorldBefore(p, old(Now()).(pending := map[]), |p.layers|);
                end.pending.Keys !! saveFails && Now() == World(end.cluster, end.store + end.pending, map[])
      ensures r.Err? && r.error.SaveFailed? ==>
                && opts.sync && opts.atomic
                && (forall l: nat :: l < |p.layers| ==> !InOrderFails(p, old(Now()).(pending := map[]), l))
                && PartlySaved(Now(), WorldBefore(p, old(Now()).(pending := map[]), |p.layers|), saveFails)
                && r.error.name in saveFails && r.error.name in pendingSaves
      ensures OrdersByName(ms, if r.Err? && r.error.BadOrder? then Err(r.error.error) else Ok(p.layers))
      ensures r.Err? && r.error.LayerApplyFailed? ==>
                RunsLayers(p, old(Now()).(pending := map[]), r.error.layer + 1, Now(), Some(r.error.layer))
      ensures r.Ok? || r.error.SaveFailed? ==>
                var start, n := old(Now()).(pending := map[]), |p.layers|;
                RunsLayers(p, start, n, WorldBefore(p, start, n), None)
    {
      hide RunsLayers, OrdersByName, WorldBefore, InOrderFails, Ordered, Resolvable, PartlySaved, FirstFailure;
      pendingSaves := map[];
      ghost var w := Now();
      var order := ResolveDependencyOrder(ms);
      p := Plan(ms, [], tags, opts, tasks);
      if order.Err? {
        return Err(BadOrder(order.error)), p;
      }
      var layers := order.value;
      p := Plan(ms, layers, tags, opts, tasks);
      OrderIsPlan(p);
      var failedLayer := ApplyLayers(p, ms, layers, tags, opts, tasks);
      if failedLayer.Some? {
        return Err(LayerApplyFailed(failedLayer.value)), p;
      }
      if opts.sync && opts.atomic {
        var failed := CommitPending(saveFails);
        if failed.Some? {
          return Err(SaveFailed(failed.value)), p;
        }
      }
      return Ok(()), p;
    }

    method SaveManifestState(job: Job, o: Outcome) returns (ok: bool)
      modifies this
      ensures (if ok then Succeeded else Failed, Now()) == PlainSaveStep(job, o, old(Now()))
    {
      if job.name == "" {
        return true;
      }
      var currentEntries, _ := CurrentState(job.name, job.objects);
      if !o.saveUp {
        return false;
      }
      store := store[job.name := currentEntries];
      ok := true;
    }

    /** The manager's part: the objects in build order, up to the first failing call. */
    method ManagerApply(opts: Options, job: Job, o: Outcome) returns (ok: bool)
      modifies this`cluster
      ensures exists n: nat :: PutUntil(job, o, n, old(cluster), cluster)
      ensures ok <==> forall x :: x in job.objects ==> !Fails(job, o, x)
      ensures Finish(opts, job, o, Putting(job.objects), old(Now()))
              == if ok then Finish(opts, job, o, PlainTesting, Now()) else (Failed, Now())
    {
      hide KeyOf, Finish, AllPut, PutStep, Fails, Lands;
      ghost var start := Now();
      ghost var end := Finish(opts, job, o, Putting(job.objects), start);
      assert job.objects[0..] == job.objects && job.objects[..0] == [];
      NothingPut(cluster);
      for i := 0 to |job.objects|
        invariant store == start.store && pendingSaves == start.pending
        invariant forall j :: 0 <= j < i ==> !Fails(job, o, job.objects[j])
        invariant AllPut(job.objects[..i], start.cluster, cluster)
        invariant end == Finish(opts, job, o, Putting(job.objects[i..]), Now())
      {
        FinishStep(opts, job, o, Putting(job.objects[i..]), Now());
        var obj := job.objects[i];
        PutStepIs(job, o, obj, job.objects[i..], Now());
        FailsIs(job, o, obj);
        OneMorePut(job.objects[..i], obj, start.cluster, cluster);
        assert job.objects[..i + 1] == job.objects[..i] + [obj];
        ok := Attempt(o, KeyOf(job.name, obj), Put(SlotOf(obj.id), obj.content));
        assert job.objects[i..][1..] == job.objects[i + 1..];
        if !ok {
          FailedIsFinal(opts, job, o, Now());
          StopsHere(job, o, i, start.cluster, cluster);
          return;
        }
      }
      FinishStep(opts, job, o, Putting([]), Now());
      assert job.objects[..|job.objects|] == job.objects;
      assert PutUntil(job, o, |job.objects|, start.cluster, cluster);
      ok := true;
    }
  }

  lemma OrderIsPlan(p: Plan)
    requires if HasAnyDependsOn(p.ms) then ExactLayers(IndexGraph(p.ms), p.layers) else p.layers == seq(|p.ms|, i => [i])
    requires |p.tasks| == |p.ms| && forall i :: 0 <= i < |p.ms| ==> p.tasks[i].job.name == p.ms[i].name
    ensures ValidPlan(p)
  {
  }

  lemma LayerInRange(p: Plan, l: nat)
    requires ValidPlan(p) && l < |p.layers|
    ensures forall i :: i in p.layers[l] ==> i < |p.ms|
    ensures LayerTasks(p, l) == TasksOf(p, p.layers[l])
  {
    if HasAnyDependsOn(p.ms) {
      forall i | i in p.layers[l] ensures i < |p.ms| {}
    }
  }
}
