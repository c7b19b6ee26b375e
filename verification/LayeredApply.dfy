// A whole apply run: layer after layer, the goroutines of a layer in any order, a barrier between
// layers, and in atomic mode one round of saves at the very end.
module LayeredApply {
  import opened Common
  import opened Manifests
  import opened DependencyGraph
  import opened DependsOnSpec
  import opened DependencyOrder
  import opened StateDiff
  import opened SyncModel
  import opened SyncEffects
  import opened LayerConfluence

  /** The run to make: `tasks[i]` is manifest `i` with its build and the outcomes of its calls. */
  datatype Plan = Plan(ms: seq<Manifest>, layers: seq<seq<nat>>, tags: seq<string>, opts: Options, tasks: seq<Task>)

  predicate MatchesTags(m: Manifest, filter: seq<string>) {
    filter == [] || exists t :: t in filter && t in m.tags
  }

  /** The layers are what ResolveDependencyOrder answers for the manifests. */
  ghost predicate Ordered(ms: seq<Manifest>, layers: seq<seq<nat>>) {
    if HasAnyDependsOn(ms) then ExactLayers(IndexGraph(ms), layers) else layers == seq(|ms|, i => [i])
  }

  ghost predicate ValidPlan(p: Plan) {
    && Ordered(p.ms, p.layers)
    && |p.tasks| == |p.ms|
    && forall i :: 0 <= i < |p.ms| ==> p.tasks[i].job.name == p.ms[i].name
  }

  predicate Selected(p: Plan, i: nat) {
    i < |p.ms| && MatchesTags(p.ms[i], p.tags)
  }

  lemma MatchesByTags(m: Manifest, filter: seq<string>)
    ensures MatchesTags(m, filter) <==>
            |filter| == 0 || exists a, b :: 0 <= a < |filter| && 0 <= b < |m.tags| && filter[a] == m.tags[b]
  {
    if filter != [] && MatchesTags(m, filter) {
      var t :| t in filter && t in m.tags;
      var a :| 0 <= a < |filter| && filter[a] == t;
      var b :| 0 <= b < |m.tags| && m.tags[b] == t;
      assert filter[a] == m.tags[b];
    }
    if a, b :| 0 <= a < |filter| && 0 <= b < |m.tags| && filter[a] == m.tags[b] {
      assert filter[a] in filter && filter[a] in m.tags;
    }
  }

  /** Selection on the two tag lists: any one tag in common is enough. */
  lemma SelectionByTags(p: Plan, i: nat)
    ensures Selected(p, i) <==>
            i < |p.ms| && (|p.tags| == 0 || exists a, b :: 0 <= a < |p.tags| && 0 <= b < |p.ms[i].tags| && p.tags[a] == p.ms[i].tags[b])
  {
    if i < |p.ms| {
      MatchesByTags(p.ms[i], p.tags);
      hide MatchesTags;
    }
  }

  datatype Status = Running | Committing | Completed | Aborted

  datatype RunState = RunState(status: Status, layer: nat, phases: seq<Phase>, world: World)

  datatype Event =
    | StepManifest(i: nat)
    | Barrier
    | Commit(name: string, saved: bool)
    | EndCommit

  // ---------- The steps of a run ----------

  function AfterLayers(p: Plan): Status {
    if p.opts.sync && p.opts.atomic then Committing else Completed
  }

  function Initial(p: Plan, w: World): RunState {
    RunState(if p.layers == [] then AfterLayers(p) else Running, 0, seq(|p.ms|, i => Start), w)
  }

  predicate InLayer(p: Plan, l: nat, i: nat) {
    l < |p.layers| && i in p.layers[l]
  }

  /** Some selected manifest of the current layer has failed. */
  ghost predicate LayerFailed(p: Plan, s: RunState)
    requires |s.phases| == |p.ms|
  {
    exists i: nat :: InLayer(p, s.layer, i) && Selected(p, i) && s.phases[i] == Failed
  }

  ghost predicate Enabled(p: Plan, s: RunState, e: Event)
    requires |s.phases| == |p.ms|
  {
    match e
    case StepManifest(i) => s.status == Running && InLayer(p, s.layer, i) && Selected(p, i) && !Done(s.phases[i])
    case Barrier => s.status == Running && forall i: nat :: InLayer(p, s.layer, i) && Selected(p, i) ==> Done(s.phases[i])
    case Commit(name, _) => s.status == Committing && name in s.world.pending
    case EndCommit => s.status == Committing && s.world.pending == map[]
  }

  ghost function After(p: Plan, s: RunState, e: Event): (t: RunState)
    requires |s.phases| == |p.ms| == |p.tasks| && Enabled(p, s, e)
    ensures |t.phases| == |p.ms|
  {
    match e
    case StepManifest(i) =>
      var next := Step(p.opts, p.tasks[i].job, p.tasks[i].outcome, s.phases[i], s.world);
      s.(phases := s.phases[i := next.0], world := next.1)
    case Barrier =>
      if LayerFailed(p, s) then s.(status := Aborted)
      else s.(layer := s.layer + 1, status := if s.layer + 1 < |p.layers| then Running else AfterLayers(p))
    case Commit(name, saved) =>
      if saved then s.(world := s.world.(store := s.world.store[name := s.world.pending[name]], pending := s.world.pending - {name}))
      else s.(status := Aborted)
    case EndCommit => s.(status := Completed)
  }

  /** The events of `es` happen one after the other and lead from `s` to `t`. */
  ghost predicate Leads(p: Plan, s: RunState, es: seq<Event>, t: RunState)
    requires |p.tasks| == |p.ms|
    decreases |es|
  {
    |s.phases| == |p.ms| &&
    if es == [] then s == t else Enabled(p, s, es[0]) && Leads(p, After(p, s, es[0]), es[1..], t)
  }

  /** A run of a valid plan from world `w` has come to `s`. */
  ghost predicate Reaches(p: Plan, w: World, es: seq<Event>, s: RunState) {
    ValidPlan(p) && |s.phases| == |p.ms| && Leads(p, Initial(p, w), es, s)
  }

  // ---------- The barrier ----------

  /** Earlier layers have succeeded, later ones and unselected manifests have not begun. */
  ghost predicate BarrierInv(p: Plan, s: RunState) {
    && |s.phases| == |p.ms| && s.layer <= |p.layers|
    && (s.status == Running ==> s.layer < |p.layers|)
    && (s.status == Committing || s.status == Completed ==> s.layer == |p.layers|)
    && (forall l: nat, i: nat :: InLayer(p, l, i) && Selected(p, i) && l < s.layer ==> s.phases[i] == Succeeded)
    && (forall l: nat, i: nat :: InLayer(p, l, i) && i < |p.ms| && l > s.layer ==> s.phases[i] == Start)
    && (forall i: nat :: i < |p.ms| && !Selected(p, i) ==> s.phases[i] == Start)
  }

  lemma LayersDisjoint(ms: seq<Manifest>, layers: seq<seq<nat>>, l: nat, m: nat, i: nat)
    requires Ordered(ms, layers) && l < |layers| && m < |layers| && i in layers[l] && i in layers[m]
    ensures l == m && i < |ms|
  {
    if HasAnyDependsOn(ms) {
      var g := IndexGraph(ms);
      assert DepthIs(g, i, l) && DepthIs(g, i, m);
    }
  }

  lemma EventKeepsBarrier(p: Plan, s: RunState, e: Event)
    requires ValidPlan(p) && BarrierInv(p, s) && Enabled(p, s, e)
    ensures BarrierInv(p, After(p, s, e))
  {
    hide Ordered, Step, MatchesTags;
    var t := After(p, s, e);
    if e.StepManifest? {
      forall l: nat | InLayer(p, l, e.i) ensures l == s.layer {
        LayersDisjoint(p.ms, p.layers, l, s.layer, e.i);
      }
    }
  }

  lemma {:induction false} LeadsKeepsBarrier(p: Plan, s: RunState, es: seq<Event>, t: RunState)
    requires ValidPlan(p) && BarrierInv(p, s) && Leads(p, s, es, t)
    ensures BarrierInv(p, t)
    decreases |es|
  {
    if es != [] {
      EventKeepsBarrier(p, s, es[0]);
      hide BarrierInv, Enabled, After;
      LeadsKeepsBarrier(p, After(p, s, es[0]), es[1..], t);
    }
  }

  lemma ReachableBarrier(p: Plan, w: World, es: seq<Event>, t: RunState)
    requires Reaches(p, w, es, t)
    ensures BarrierInv(p, t)
  {
    assert BarrierInv(p, Initial(p, w));
    LeadsKeepsBarrier(p, Initial(p, w), es, t);
  }

  lemma {:induction false} ChainIsEarlier(g: Graph, layers: seq<seq<nat>>, l: nat, q: seq<nat>) returns (m: nat)
    requires ExactLayers(g, layers) && l < |layers| && IsChain(g, q) && q[0] in layers[l] && |q| >= 2
    ensures m < l && q[|q| - 1] in layers[m]
    decreases |q|
  {
    assert q[1] in g[q[0]];
    m := DependencyIsEarlier(g, layers, l, q[0], q[1]);
    if |q| > 2 {
      SliceChain(g, q, 1, |q|);
      hide ExactLayers, IsChain;
      m := ChainIsEarlier(g, layers, m, q[1..]);
    }
  }

  lemma FirstEdge(g: Graph, q: seq<nat>)
    requires IsChain(g, q) && |q| > 1
    ensures q[0] < |g| && q[1] in g[q[0]]
  {
  }

  lemma NoChainsWithoutDependsOn(ms: seq<Manifest>, q: seq<nat>)
    requires !HasAnyDependsOn(ms) && IsChain(IndexGraph(ms), q)
    ensures |q| == 1
  {
    if |q| > 1 {
      FirstEdge(IndexGraph(ms), q);
    }
  }

  lemma EveryManifestPlaced(p: Plan, i: nat) returns (l: nat)
    requires ValidPlan(p) && i < |p.ms|
    ensures InLayer(p, l, i)
  {
    if HasAnyDependsOn(p.ms) {
      assert Placed(p.layers, i);
      var k :| 0 <= k < |p.layers| && i in p.layers[k];
      l := k;
    } else {
      assert p.layers[i] == [i];
      l := i;
    }
  }

  lemma StartedIsPlaced(p: Plan, s: RunState, i: nat) returns (l: nat)
    requires ValidPlan(p) && BarrierInv(p, s) && i < |p.ms| && s.phases[i] != Start
    ensures l <= s.layer && InLayer(p, l, i)
  {
    l := EveryManifestPlaced(p, i);
  }

  /** When a manifest has begun, every selected manifest it depends on, however indirectly and even
      through manifests the tags skip, has already succeeded. */
  lemma StartedAfterDependencies(p: Plan, w: World, es: seq<Event>, s: RunState, q: seq<nat>)
    requires Reaches(p, w, es, s)
    requires IsChain(IndexGraph(p.ms), q) && |q| >= 2
    requires s.phases[q[0]] != Start && Selected(p, q[|q| - 1])
    ensures s.phases[q[|q| - 1]] == Succeeded
  {
    ReachableBarrier(p, w, es, s);
    var l := StartedIsPlaced(p, s, q[0]);
    if !HasAnyDependsOn(p.ms) {
      NoChainsWithoutDependsOn(p.ms, q);
    } else {
      var m := ChainIsEarlier(IndexGraph(p.ms), p.layers, l, q);
      assert InLayer(p, m, q[|q| - 1]);
    }
  }

  /** Once a manifest has failed, no manifest of a later layer ever begins. */
  lemma FailureStopsLaterLayers(p: Plan, w: World, es: seq<Event>, s: RunState, l: nat, m: nat, i: nat, j: nat)
    requires Reaches(p, w, es, s)
    requires InLayer(p, l, i) && InLayer(p, m, j) && l < m && i < |p.ms| && j < |p.ms| && s.phases[i] == Failed
    ensures s.phases[j] == Start
  {
    ReachableBarrier(p, w, es, s);
    assert Selected(p, i);
    hide Reaches;
  }
}
