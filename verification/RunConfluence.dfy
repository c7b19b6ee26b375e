// The schedule of a whole run does not matter: every run that gets through its layers leaves the
// world that applying the selected manifests one by one, layer after layer, would have left.
module RunConfluence {
  import opened Common
  import opened Manifests
  import opened DependencyGraph
  import opened DependencyOrder
  import opened StateDiff
  import opened SyncModel
  import opened LayerConfluence
  import opened LayeredApply

  function Pick(p: Plan, idxs: seq<nat>): (r: seq<nat>)
    ensures forall i :: i in r <==> i in idxs && Selected(p, i)
  {
    if idxs == [] then []
    else if Selected(p, idxs[0]) then [idxs[0]] + Pick(p, idxs[1..])
    else Pick(p, idxs[1..])
  }

  predicate Distinct(s: seq<nat>) {
    forall a, b :: 0 <= a < b < |s| ==> s[a] != s[b]
  }

  lemma {:induction false} PickDistinct(p: Plan, idxs: seq<nat>)
    requires Distinct(idxs)
    ensures Distinct(Pick(p, idxs))
  {
    if idxs != [] {
      assert idxs == [idxs[0]] + idxs[1..];
      PickDistinct(p, idxs[1..]);
      forall b | 0 <= b < |Pick(p, idxs[1..])| ensures Pick(p, idxs[1..])[b] != idxs[0] {
        assert Pick(p, idxs[1..])[b] in idxs[1..];
      }
      hide Selected;
    }
  }

  /** The selected manifests of a layer, in declaration order. */
  function Members(p: Plan, l: nat): (r: seq<nat>)
    requires l < |p.layers|
    ensures forall k :: 0 <= k < |r| ==> InLayer(p, l, r[k]) && Selected(p, r[k])
    ensures forall i: nat :: InLayer(p, l, i) && Selected(p, i) ==> i in r
  {
    var r := Pick(p, p.layers[l]);
    assert forall k :: 0 <= k < |r| ==> r[k] in r;
    r
  }

  function LayerTasks(p: Plan, l: nat): (r: seq<Task>)
    requires l < |p.layers| && |p.tasks| == |p.ms|
    ensures |r| == |Members(p, l)|
  {
    var m := Members(p, l);
    seq(|m|, k requires 0 <= k < |m| => p.tasks[m[k]])
  }

  /** The world once the first `l` layers have been applied in order. */
  ghost function WorldBefore(p: Plan, w: World, l: nat): World
    requires l <= |p.layers| && |p.tasks| == |p.ms|
  {
    if l == 0 then w else ApplyInOrder(p.opts, LayerTasks(p, l - 1), WorldBefore(p, w, l - 1))
  }

  /** In every layer the selected manifests share no resource and no name. */
  ghost predicate SeparateLayers(p: Plan, w: World)
    requires |p.tasks| == |p.ms|
  {
    forall l: nat :: l < |p.layers| ==> Separate(p.opts, LayerTasks(p, l), WorldBefore(p, w, l))
  }

  /** The current layer of a run, on its own. */
  function View(p: Plan, s: RunState): (v: LayerState)
    requires s.layer < |p.layers| && |s.phases| == |p.ms|
    ensures |v.phases| == |Members(p, s.layer)|
  {
    var m := Members(p, s.layer);
    LayerState(seq(|m|, k requires 0 <= k < |m| => s.phases[m[k]]), s.world)
  }

  /** Some selected manifest of layer `l` fails when it is applied on its own. */
  ghost predicate LayerFails(p: Plan, w: World, l: nat)
    requires l < |p.layers| && |p.tasks| == |p.ms|
  {
    exists k :: 0 <= k < |Members(p, l)| && FailsAlone(p.opts, LayerTasks(p, l)[k], WorldBefore(p, w, l))
  }

  ghost predicate FailsAlone(opts: Options, t: Task, w: World) {
    RunJob(opts, t.job, t.outcome, w).0 == Failed
  }

  ghost predicate Verdicts(p: Plan, w: World, s: RunState)
    requires |p.tasks| == |p.ms| && s.layer <= |p.layers|
  {
    && (forall l: nat :: l < s.layer ==> !LayerFails(p, w, l))
    && (s.status == Aborted && s.layer < |p.layers| ==> LayerFails(p, w, s.layer))
  }

  ghost predicate InStep(p: Plan, w: World, s: RunState) {
    && |p.tasks| == |p.ms| == |s.phases| && s.layer <= |p.layers|
    && (s.status == Committing ==> p.opts.sync && p.opts.atomic)
    && (s.status == Completed && p.opts.sync && p.opts.atomic ==> s.world.pending == map[])
    && Verdicts(p, w, s)
    && (s.status == Running ==>
          s.layer < |p.layers| && LayerInv(p.opts, LayerTasks(p, s.layer), WorldBefore(p, w, s.layer), View(p, s)))
    && (s.status == Aborted && s.layer < |p.layers| ==> s.world == WorldBefore(p, w, s.layer + 1))
    && (s.layer == |p.layers| ==> SavesMoved(p.opts, s.world, WorldBefore(p, w, s.layer)))
  }

  /** `a` is the world `end` with some of its put-off saves made, if the run puts saves off at all. */
  ghost predicate SavesMoved(opts: Options, a: World, end: World) {
    && a.cluster == end.cluster && a.store + a.pending == end.store + end.pending
    && (!(opts.sync && opts.atomic) ==> a == end)
  }

  lemma MoveOne(store: map<string, Entries>, pending: map<string, Entries>, name: string)
    requires name in pending
    ensures store[name := pending[name]] + (pending - {name}) == store + pending
    ensures (pending - {name}).Keys == pending.Keys - {name}
  {
  }

  lemma MembersDistinct(p: Plan, l: nat)
    requires ValidPlan(p) && l < |p.layers|
    ensures Distinct(Members(p, l))
  {
    assert Distinct(p.layers[l]) by {
      if HasAnyDependsOn(p.ms) {
        assert StrictlyIncreasing(p.layers[l]);
      }
    }
    PickDistinct(p, p.layers[l]);
  }

  lemma StepView(p: Plan, s: RunState, i: nat) returns (k: nat)
    requires ValidPlan(p) && BarrierInv(p, s) && Enabled(p, s, StepManifest(i))
    ensures var t := LayeredApply.After(p, s, StepManifest(i));
            View(p, t) == StepOf(p.opts, LayerTasks(p, s.layer), View(p, s), k)
  {
    var m := Members(p, s.layer);
    MembersDistinct(p, s.layer);
    assert i in m;
    k :| 0 <= k < |m| && m[k] == i;
    hide Step, Ordered, BarrierInv, Members, MatchesTags;
    var t := LayeredApply.After(p, s, StepManifest(i));
    var v := StepOf(p.opts, LayerTasks(p, s.layer), View(p, s), k);
    assert LayerTasks(p, s.layer)[k] == p.tasks[i];
    assert View(p, t).phases == v.phases;
  }

  lemma ManifestStepInStep(p: Plan, w: World, s: RunState, i: nat)
    requires ValidPlan(p) && BarrierInv(p, s) && SeparateLayers(p, w) && InStep(p, w, s) && Enabled(p, s, StepManifest(i))
    ensures InStep(p, w, LayeredApply.After(p, s, StepManifest(i)))
  {
    var k := StepView(p, s, i);
    var tasks, w0 := LayerTasks(p, s.layer), WorldBefore(p, w, s.layer);
    assert Separate(p.opts, tasks, w0);
    hide Separate, SeparateLayers, LayerInv, Step, StepOf, WorldBefore, Members, LayerTasks, LayerFails;
    StepKeepsInv(p.opts, tasks, w0, View(p, s), k);
  }

  /** At the barrier the layer has done what applying it in order does. */
  lemma BarrierReachesNext(p: Plan, w: World, s: RunState)
    requires ValidPlan(p) && BarrierInv(p, s) && SeparateLayers(p, w) && InStep(p, w, s) && Enabled(p, s, Barrier)
    ensures s.world == WorldBefore(p, w, s.layer + 1)
  {
    var tasks, w0 := LayerTasks(p, s.layer), WorldBefore(p, w, s.layer);
    assert Separate(p.opts, tasks, w0);
    assert Complete(View(p, s));
    assert WorldBefore(p, w, s.layer + 1) == ApplyInOrder(p.opts, tasks, w0);
    hide Separate, SeparateLayers, LayerInv, WorldBefore, Members, LayerTasks, BarrierInv, Ordered;
    BegunInv(p.opts, tasks, w0);
    var t := InOrderFrom(p.opts, tasks, w0, Begun(tasks, w0), 0);
    assert tasks[0..] == tasks;
    hide ApplyInOrder, View, Complete;
    CompleteIsUnique(p.opts, tasks, w0, View(p, s), t);
    ViewWorld(p, s);
  }

  /** The layer fails at the barrier exactly when one of its manifests would have failed alone. */
  lemma BarrierVerdict(p: Plan, w: World, s: RunState)
    requires ValidPlan(p) && BarrierInv(p, s) && InStep(p, w, s) && Enabled(p, s, Barrier)
    ensures LayerFailed(p, s) <==> LayerFails(p, w, s.layer)
  {
    var tasks, w0, m := LayerTasks(p, s.layer), WorldBefore(p, w, s.layer), Members(p, s.layer);
    assert Complete(View(p, s));
    hide LayerInv, WorldBefore, BarrierInv, Ordered, Verdicts, RunJob;
    forall k: nat | k < |m| ensures s.phases[m[k]] == Failed <==> FailsAlone(p.opts, tasks[k], w0) {
      CompleteIsAlone(p.opts, tasks, w0, View(p, s), k);
    }
    hide View, LayerTasks, Selected, Enabled, FailsAlone;
    if LayerFailed(p, s) {
      var i: nat :| InLayer(p, s.layer, i) && Selected(p, i) && s.phases[i] == Failed;
      assert i in m;
      var k :| 0 <= k < |m| && m[k] == i;
      assert FailsAlone(p.opts, tasks[k], w0);
    }
    if LayerFails(p, w, s.layer) {
      var k :| 0 <= k < |m| && FailsAlone(p.opts, tasks[k], w0);
      assert InLayer(p, s.layer, m[k]) && Selected(p, m[k]);
    }
  }

  lemma ViewWorld(p: Plan, s: RunState)
    requires s.layer < |p.layers| && |s.phases| == |p.ms|
    ensures View(p, s).world == s.world
  {
  }

  lemma FreshLayerInStep(p: Plan, w: World, s: RunState)
    requires ValidPlan(p) && |s.phases| == |p.ms| && s.layer < |p.layers| && s.world == WorldBefore(p, w, s.layer)
    requires forall i: nat :: InLayer(p, s.layer, i) && i < |p.ms| ==> s.phases[i] == Start
    ensures LayerInv(p.opts, LayerTasks(p, s.layer), WorldBefore(p, w, s.layer), View(p, s))
  {
    var tasks := LayerTasks(p, s.layer);
    assert View(p, s).phases == Begun(tasks, s.world).phases;
    BegunInv(p.opts, tasks, s.world);
    hide LayerInv, WorldBefore;
  }

  lemma BarrierInStep(p: Plan, w: World, s: RunState)
    requires ValidPlan(p) && BarrierInv(p, s) && SeparateLayers(p, w) && InStep(p, w, s) && Enabled(p, s, Barrier)
    ensures InStep(p, w, LayeredApply.After(p, s, Barrier))
  {
    hide SeparateLayers, LayerInv, WorldBefore, View, Ordered, Verdicts, InStep, LayerTasks, LayerFailed;
    var t := LayeredApply.After(p, s, Barrier);
    BarrierReachesNext(p, w, s);
    BarrierVerdicts(p, w, s);
    LaterLayersUntouched(p, s);
    assert s.layer < |p.layers| && |p.tasks| == |p.ms| == |t.phases|;
    assert t == s.(status := Aborted)
        || t == s.(layer := s.layer + 1, status := if s.layer + 1 < |p.layers| then Running else AfterLayers(p));
    hide BarrierInv, Enabled, LayeredApply.After;
    if t.status == Running {
      FreshLayerInStep(p, w, t);
    }
    NextInStep(p, w, s, t);
  }

  lemma NextInStep(p: Plan, w: World, s: RunState, t: RunState)
    requires |p.tasks| == |p.ms| == |t.phases| && s.layer < |p.layers| && s.world == WorldBefore(p, w, s.layer + 1)
    requires t == s.(status := Aborted)
          || t == s.(layer := s.layer + 1, status := if s.layer + 1 < |p.layers| then Running else AfterLayers(p))
    requires t.layer <= |p.layers| && Verdicts(p, w, t)
    requires t.status == Running ==> t.layer < |p.layers| && LayerInv(p.opts, LayerTasks(p, t.layer), WorldBefore(p, w, t.layer), View(p, t))
    ensures InStep(p, w, t)
  {
    hide LayerInv, WorldBefore, View, LayerTasks, Verdicts;
  }

  lemma LaterLayersUntouched(p: Plan, s: RunState)
    requires ValidPlan(p) && BarrierInv(p, s)
    ensures forall i: nat :: InLayer(p, s.layer + 1, i) && i < |p.ms| ==> s.phases[i] == Start
  {
    hide Ordered;
  }

  lemma BarrierVerdicts(p: Plan, w: World, s: RunState)
    requires ValidPlan(p) && BarrierInv(p, s) && InStep(p, w, s) && Enabled(p, s, Barrier)
    ensures Verdicts(p, w, LayeredApply.After(p, s, Barrier))
  {
    BarrierVerdict(p, w, s);
    VerdictsNext(p, w, s, LayeredApply.After(p, s, Barrier));
    hide *;
  }

  lemma VerdictsNext(p: Plan, w: World, s: RunState, t: RunState)
    requires |p.tasks| == |p.ms| && s.layer < |p.layers| && Verdicts(p, w, s)
    requires if LayerFails(p, w, s.layer) then t == s.(status := Aborted) else t.layer == s.layer + 1 && t.status != Aborted
    ensures t.layer <= |p.layers| && Verdicts(p, w, t)
  {
    hide LayerFails;
  }

  lemma CommitInStep(p: Plan, w: World, s: RunState, e: Event)
    requires ValidPlan(p) && BarrierInv(p, s) && InStep(p, w, s) && Enabled(p, s, e) && (e.Commit? || e.EndCommit?)
    ensures InStep(p, w, LayeredApply.After(p, s, e))
  {
    assert s.layer == |p.layers|;
    if e.Commit? && e.saved {
      MoveOne(s.world.store, s.world.pending, e.name);
    }
    hide LayerInv, WorldBefore, View, LayerTasks, Ordered, BarrierInv, LayerFails;
  }

  lemma {:induction false} LeadsInStep(p: Plan, w: World, s: RunState, es: seq<Event>, t: RunState)
    requires ValidPlan(p) && BarrierInv(p, s) && SeparateLayers(p, w) && InStep(p, w, s) && Leads(p, s, es, t)
    ensures InStep(p, w, t)
    decreases |es|
  {
    hide BarrierInv, InStep, Enabled, SeparateLayers, Ordered, LayeredApply.After;
    if es != [] {
      if es[0].StepManifest? {
        ManifestStepInStep(p, w, s, es[0].i);
      } else if es[0].Barrier? {
        BarrierInStep(p, w, s);
      } else {
        CommitInStep(p, w, s, es[0]);
      }
      EventKeepsBarrier(p, s, es[0]);
      LeadsInStep(p, w, LayeredApply.After(p, s, es[0]), es[1..], t);
    }
  }

  /** Every run that got through its layers left the cluster of the in-order run, and its store with
      the put-off saves made so far, all of them when it completed; a run that stopped at a failed
      layer left the world of the layers up to that one. It stopped at the first layer with a manifest
      that fails on its own, if there is one. */
  lemma EveryRunIsInOrder(p: Plan, w: World, es: seq<Event>, s: RunState)
    requires Reaches(p, w, es, s) && SeparateLayers(p, w)
    ensures |p.tasks| == |p.ms| && s.layer <= |p.layers|
    ensures s.layer == |p.layers| ==> SavesMoved(p.opts, s.world, WorldBefore(p, w, |p.layers|))
    ensures s.status == Completed ==> s.layer == |p.layers|
    ensures s.status == Completed && !(p.opts.sync && p.opts.atomic) ==> s.world == WorldBefore(p, w, |p.layers|)
    ensures s.status == Completed && p.opts.sync && p.opts.atomic ==>
              var end := WorldBefore(p, w, |p.layers|); s.world == World(end.cluster, end.store + end.pending, map[])
    ensures s.status == Aborted && s.layer < |p.layers| ==> s.world == WorldBefore(p, w, s.layer + 1)
    ensures Verdicts(p, w, s)
  {
    ReachableBarrier(p, w, es, s);
    ReachableInStep(p, w, es, s);
    hide *;
    EndOfRun(p, w, s);
  }

  lemma EndOfRun(p: Plan, w: World, s: RunState)
    requires BarrierInv(p, s) && InStep(p, w, s)
    ensures s.layer == |p.layers| ==> SavesMoved(p.opts, s.world, WorldBefore(p, w, |p.layers|))
    ensures s.status == Completed ==> s.layer == |p.layers|
    ensures s.status == Completed && !(p.opts.sync && p.opts.atomic) ==> s.world == WorldBefore(p, w, |p.layers|)
    ensures s.status == Completed && p.opts.sync && p.opts.atomic ==>
              var end := WorldBefore(p, w, |p.layers|); s.world == World(end.cluster, end.store + end.pending, map[])
    ensures s.status == Aborted && s.layer < |p.layers| ==> s.world == WorldBefore(p, w, s.layer + 1)
    ensures s.layer <= |p.layers| && Verdicts(p, w, s)
  {
    hide WorldBefore, LayerInv, View, LayerTasks, Verdicts, InLayer, Selected;
    assert s.world.store + map[] == s.world.store;
  }

  lemma ReachableInStep(p: Plan, w: World, es: seq<Event>, s: RunState)
    requires Reaches(p, w, es, s) && SeparateLayers(p, w)
    ensures InStep(p, w, s)
  {
    var start := Initial(p, w);
    assert BarrierInv(p, start);
    assert InStep(p, w, start) by {
      if p.layers != [] { FreshLayerInStep(p, w, start); }
    }
    hide SeparateLayers, Leads, WorldBefore, Ordered, InStep, BarrierInv, Initial;
    LeadsInStep(p, w, start, es, s);
  }
}
