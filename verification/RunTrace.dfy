// An apply run as a list of what each selected manifest did, one after the other.
module RunTrace {
  import opened Common
  import opened Manifests
  import opened DependencyGraph
  import opened DependencyOrder
  import opened StateDiff
  import opened SyncModel
  import opened LayerConfluence
  import opened LayeredApply
  import opened RunConfluence
  import opened ApplyMeaning
  import opened SyncMeaning

  /** Some manifest fails when the tasks are applied one after the other. */
  ghost predicate AnyFails(opts: Options, tasks: seq<Task>, w: World) {
    tasks != [] &&
    (RunJob(opts, tasks[0].job, tasks[0].outcome, w).0 == Failed
     || AnyFails(opts, tasks[1..], RunJob(opts, tasks[0].job, tasks[0].outcome, w).1))
  }

  /** Layer `l` has a failing manifest when everything is applied in order. */
  ghost predicate InOrderFails(p: Plan, w: World, l: nat)
    requires |p.tasks| == |p.ms| && l < |p.layers|
  {
    AnyFails(p.opts, LayerTasks(p, l), WorldBefore(p, w, l))
  }

  ghost predicate FirstFailure(p: Plan, w: World, l: nat)
    requires |p.tasks| == |p.ms|
  {
    l < |p.layers| && InOrderFails(p, w, l) && forall k: nat :: k < l ==> !InOrderFails(p, w, k)
  }

  // ---------- Traces ----------

  /** Manifest `i` has been applied, with success or not, from one world to the next. */
  datatype Taken = Taken(i: nat, ok: bool, before: World, after: World)

  ghost predicate Takes(p: Plan, t: Taken)
    requires |p.tasks| == |p.ms|
  {
    && t.i < |p.ms|
    && var task := p.tasks[t.i];
       if p.opts.sync then Synced(p.opts, task.job, task.outcome, t.before, t.ok, t.after)
       else Applied(task.job, task.outcome, t.before, t.ok, t.after)
  }

  ghost predicate Follows(w: World, ts: seq<Taken>, k: int)
    requires 0 <= k < |ts|
  {
    ts[k].before == if k == 0 then w else ts[k - 1].after
  }

  /** Each of `ts` starts in the world that the one before it left. */
  ghost predicate OneByOne(p: Plan, w: World, ts: seq<Taken>, end: World)
    requires |p.tasks| == |p.ms|
  {
    && (forall k :: 0 <= k < |ts| ==> Takes(p, ts[k]))
    && (forall k :: 0 <= k < |ts| ==> Follows(w, ts, k))
    && end == if ts == [] then w else ts[|ts| - 1].after
  }

  ghost predicate IsTaken(ts: seq<Taken>, i: nat) {
    exists t :: t in ts && t.i == i
  }

  ghost predicate InFirstLayers(p: Plan, l: nat, i: nat) {
    exists m: nat :: m < l && InLayer(p, m, i)
  }

  /** In an earlier layer, or declared before in the same one. */
  ghost predicate Precedes(p: Plan, i: nat, j: nat) {
    exists m: nat, n: nat :: InLayer(p, m, i) && InLayer(p, n, j) && (m < n || (m == n && i < j))
  }

  /** The selected manifests of the first `l` layers and no others, each once and in order. */
  ghost predicate TakesLayers(p: Plan, l: nat, ts: seq<Taken>) {
    && (forall i: nat :: IsTaken(ts, i) <==> Selected(p, i) && InFirstLayers(p, l, i))
    && forall a, b :: 0 <= a < b < |ts| ==> ts[a].i != ts[b].i && Precedes(p, ts[a].i, ts[b].i)
  }

  ghost predicate HasFailure(ts: seq<Taken>) {
    exists t :: t in ts && !t.ok
  }

  ghost predicate FailsIn(p: Plan, ts: seq<Taken>, m: nat) {
    exists t :: t in ts && !t.ok && InLayer(p, m, t.i)
  }

  /** From `w` to `end` the first `l` layers have been applied in order. With `stopped` that layer is
      the only one with failures, and without it there is no failure. */
  ghost predicate RunsLayers(p: Plan, w: World, l: nat, end: World, stopped: Option<nat>)
    requires |p.tasks| == |p.ms|
  {
    exists ts :: OneByOne(p, w, ts, end) && TakesLayers(p, l, ts) && FailuresAre(p, l, ts, stopped)
  }

  ghost predicate FailuresAre(p: Plan, l: nat, ts: seq<Taken>, stopped: Option<nat>) {
    forall m: nat :: m < l ==> (FailsIn(p, ts, m) <==> stopped == Some(m))
  }

  // ---------- Applying in order has such a trace ----------

  lemma OneTask(p: Plan, i: nat, w: World) returns (t: Taken)
    requires |p.tasks| == |p.ms| && i < |p.ms|
    ensures t.i == i && t.before == w && Takes(p, t)
    ensures var r := RunJob(p.opts, p.tasks[i].job, p.tasks[i].outcome, w); t.after == r.1 && (t.ok <==> r.0 != Failed)
  {
    var job, o := p.tasks[i].job, p.tasks[i].outcome;
    var r := RunJob(p.opts, job, o, w);
    t := Taken(i, r.0 == Succeeded, w, r.1);
    hide RunJob, Synced, Applied;
    if p.opts.sync {
      SyncMakesTheChanges(p.opts, job, o, w);
    } else {
      ApplyPutsTheBuild(p.opts, job, o, w);
    }
  }

  lemma Joined(p: Plan, w: World, front: seq<Taken>, mid: World, back: seq<Taken>, end: World)
    requires |p.tasks| == |p.ms| && OneByOne(p, w, front, mid) && OneByOne(p, mid, back, end)
    ensures OneByOne(p, w, front + back, end)
  {
    hide Takes;
    var ts := front + back;
    forall k | 0 <= k < |ts| ensures Takes(p, ts[k]) {
      assert ts[k] == if k < |front| then front[k] else back[k - |front|];
    }
    forall k | 0 <= k < |ts| ensures Follows(w, ts, k) {
      if k < |front| {
        assert Follows(w, front, k);
      } else {
        var j := k - |front|;
        assert ts[k] == back[j];
        assert Follows(mid, back, j);
        if j > 0 {
          assert ts[k - 1] == back[j - 1];
        } else if front != [] {
          assert ts[k - 1] == front[|front| - 1];
        }
      }
    }
    assert back != [] ==> ts[|ts| - 1] == back[|back| - 1];
    assert back == [] ==> ts == front;
  }

  lemma OneTaken(p: Plan, t: Taken)
    requires |p.tasks| == |p.ms| && Takes(p, t)
    ensures OneByOne(p, t.before, [t], t.after)
  {
    hide Takes;
  }

  ghost predicate TakesFrom(members: seq<nat>, k: nat, ts: seq<Taken>) {
    |ts| + k == |members| && forall a :: 0 <= a < |ts| ==> ts[a].i == members[k + a]
  }

  lemma TakesOneMore(members: seq<nat>, k: nat, t: Taken, ts: seq<Taken>)
    requires TakesFrom(members, k + 1, ts) && t.i == members[k]
    ensures TakesFrom(members, k, [t] + ts)
  {
  }

  /** The trace of the tasks of layer `l` from the `k`-th on. */
  lemma {:induction false} LayerTrace(p: Plan, l: nat, k: nat, w: World) returns (ts: seq<Taken>)
    requires |p.tasks| == |p.ms| && l < |p.layers| && k <= |Members(p, l)|
    ensures TakesFrom(Members(p, l), k, ts)
    ensures OneByOne(p, w, ts, ApplyInOrder(p.opts, LayerTasks(p, l)[k..], w))
    ensures AnyFails(p.opts, LayerTasks(p, l)[k..], w) <==> HasFailure(ts)
    decreases |Members(p, l)| - k
  {
    hide *;
    var tasks := LayerTasks(p, l)[k..];
    LayerTasksAre(p, l);
    if k == |Members(p, l)| {
      ts := NoTasks(p, Members(p, l), tasks, w);
    } else {
      LayerTaskAt(p, l, k);
      var t := OneTask(p, Members(p, l)[k], w);
      assert tasks[1..] == LayerTasks(p, l)[k + 1..];
      TasksStep(p.opts, tasks, w);
      var rest := LayerTrace(p, l, k + 1, t.after);
      OneTaken(p, t);
      ts := [t] + rest;
      TakesOneMore(Members(p, l), k, t, rest);
      Joined(p, w, [t], t.after, rest, ApplyInOrder(p.opts, tasks[1..], t.after));
      FailureAdded(t, rest);
    }
  }

  lemma LayerTasksAre(p: Plan, l: nat)
    requires l < |p.layers| && |p.tasks| == |p.ms|
    ensures |LayerTasks(p, l)| == |Members(p, l)|
  {
  }

  lemma LayerTaskAt(p: Plan, l: nat, k: nat)
    requires l < |p.layers| && |p.tasks| == |p.ms| && k < |Members(p, l)|
    ensures Members(p, l)[k] < |p.ms| && |LayerTasks(p, l)| == |Members(p, l)| && LayerTasks(p, l)[k] == p.tasks[Members(p, l)[k]]
  {
    assert Members(p, l)[k] in Members(p, l);
  }

  lemma NoTasks(p: Plan, members: seq<nat>, tasks: seq<Task>, w: World) returns (ts: seq<Taken>)
    requires |p.tasks| == |p.ms| && tasks == []
    ensures ts == [] && TakesFrom(members, |members|, ts) && OneByOne(p, w, ts, ApplyInOrder(p.opts, tasks, w))
    ensures !AnyFails(p.opts, tasks, w) && !HasFailure(ts)
  {
    ts := [];
  }

  lemma FailureAdded(t: Taken, rest: seq<Taken>)
    ensures HasFailure([t] + rest) <==> !t.ok || HasFailure(rest)
  {
    assert t in [t] + rest;
  }

  lemma TasksStep(opts: Options, tasks: seq<Task>, w: World)
    requires tasks != []
    ensures var r := RunJob(opts, tasks[0].job, tasks[0].outcome, w);
            && ApplyInOrder(opts, tasks, w) == ApplyInOrder(opts, tasks[1..], r.1)
            && (AnyFails(opts, tasks, w) <==> r.0 == Failed || AnyFails(opts, tasks[1..], r.1))
  {
    hide RunJob;
  }

  /** The trace of the first `l` layers. */
  lemma {:induction false} LayersTrace(p: Plan, w: World, l: nat) returns (ts: seq<Taken>)
    requires ValidPlan(p) && l <= |p.layers|
    ensures OneByOne(p, w, ts, WorldBefore(p, w, l)) && TakesLayers(p, l, ts)
    ensures FailsAsInOrder(p, w, l, ts)
  {
    hide *;
    TasksOfPlan(p);
    if l == 0 {
      ts := NothingTaken(p, w);
    } else {
      var mid := WorldBefore(p, w, l - 1);
      var front := LayersTrace(p, w, l - 1);
      var back := WholeLayer(p, w, l - 1);
      ts := front + back;
      Joined(p, w, front, mid, back, WorldBefore(p, w, l));
      LayerAdded(p, l - 1, front, back);
      FailuresAdded(p, l - 1, front, back);
      FailsOneMore(p, w, l - 1, front, ts, HasFailure(back));
    }
  }

  ghost predicate FailsAsInOrder(p: Plan, w: World, l: nat, ts: seq<Taken>)
    requires |p.tasks| == |p.ms| && l <= |p.layers|
  {
    forall m: nat :: m < l ==> (FailsIn(p, ts, m) <==> InOrderFails(p, w, m))
  }

  ghost predicate SameFailures(p: Plan, l: nat, a: seq<Taken>, b: seq<Taken>) {
    forall m: nat :: m < l ==> (FailsIn(p, a, m) <==> FailsIn(p, b, m))
  }

  lemma FailsOneMore(p: Plan, w: World, l: nat, front: seq<Taken>, ts: seq<Taken>, failed: bool)
    requires |p.tasks| == |p.ms| && l < |p.layers| && FailsAsInOrder(p, w, l, front) && SameFailures(p, l, ts, front)
    requires (FailsIn(p, ts, l) <==> failed) && (failed <==> InOrderFails(p, w, l))
    ensures FailsAsInOrder(p, w, l + 1, ts)
  {
    hide FailsIn, InOrderFails;
  }

  lemma TasksOfPlan(p: Plan)
    requires ValidPlan(p)
    ensures |p.tasks| == |p.ms|
  {
  }

  lemma NothingTaken(p: Plan, w: World) returns (ts: seq<Taken>)
    requires |p.tasks| == |p.ms|
    ensures ts == [] && OneByOne(p, w, ts, WorldBefore(p, w, 0)) && TakesLayers(p, 0, ts) && FailsAsInOrder(p, w, 0, ts)
  {
    ts := [];
    hide Selected;
  }

  lemma WholeLayer(p: Plan, w: World, l: nat) returns (ts: seq<Taken>)
    requires ValidPlan(p) && l < |p.layers|
    ensures OneByOne(p, WorldBefore(p, w, l), ts, WorldBefore(p, w, l + 1)) && TakesLayer(p, l, ts)
    ensures HasFailure(ts) <==> InOrderFails(p, w, l)
  {
    hide *;
    LayerIsItsTasks(p, w, l);
    ts := LayerTrace(p, l, 0, WorldBefore(p, w, l));
    LayerTaken(p, l, ts);
  }

  lemma LayerIsItsTasks(p: Plan, w: World, l: nat)
    requires ValidPlan(p) && l < |p.layers|
    ensures |p.tasks| == |p.ms|
    ensures var tasks, mid := LayerTasks(p, l)[0..], WorldBefore(p, w, l);
            WorldBefore(p, w, l + 1) == ApplyInOrder(p.opts, tasks, mid) && (InOrderFails(p, w, l) <==> AnyFails(p.opts, tasks, mid))
  {
    hide LayerTasks, ApplyInOrder, AnyFails, Ordered;
    assert LayerTasks(p, l)[0..] == LayerTasks(p, l);
  }

  lemma {:induction false} PickIncreasing(p: Plan, idxs: seq<nat>)
    requires StrictlyIncreasing(idxs)
    ensures StrictlyIncreasing(Pick(p, idxs))
  {
    if idxs != [] {
      assert idxs == [idxs[0]] + idxs[1..];
      PickIncreasing(p, idxs[1..]);
      hide Selected;
      forall b | 0 <= b < |Pick(p, idxs[1..])| ensures Pick(p, idxs[1..])[b] > idxs[0] {
        assert Pick(p, idxs[1..])[b] in idxs[1..];
      }
    }
  }

  lemma MembersIncreasing(p: Plan, l: nat)
    requires ValidPlan(p) && l < |p.layers|
    ensures StrictlyIncreasing(Members(p, l))
  {
    assert StrictlyIncreasing(p.layers[l]);
    hide Ordered;
    PickIncreasing(p, p.layers[l]);
  }

  /** What taking exactly the selected manifests of layer `l`, in order, means. */
  ghost predicate TakesLayer(p: Plan, l: nat, ts: seq<Taken>) {
    && (forall i: nat :: IsTaken(ts, i) <==> Selected(p, i) && InLayer(p, l, i))
    && forall a, b :: 0 <= a < b < |ts| ==> ts[a].i < ts[b].i
  }

  lemma LayerTaken(p: Plan, l: nat, ts: seq<Taken>)
    requires ValidPlan(p) && l < |p.layers|
    requires TakesFrom(Members(p, l), 0, ts)
    ensures TakesLayer(p, l, ts)
  {
    MembersIncreasing(p, l);
    var m := Members(p, l);
    hide ValidPlan, Selected, InLayer, Members;
    assert StrictlyIncreasing(m);
    forall i: nat ensures IsTaken(ts, i) <==> Selected(p, i) && InLayer(p, l, i) {
      if Selected(p, i) && InLayer(p, l, i) {
        var a :| 0 <= a < |m| && m[a] == i;
        assert ts[a] in ts;
      }
    }
  }

  lemma TakenInEither(front: seq<Taken>, back: seq<Taken>, i: nat)
    ensures IsTaken(front + back, i) <==> IsTaken(front, i) || IsTaken(back, i)
  {
  }

  lemma OneLayerMore(p: Plan, l: nat, i: nat)
    ensures InFirstLayers(p, l + 1, i) <==> InFirstLayers(p, l, i) || InLayer(p, l, i)
  {
    hide InLayer;
  }

  lemma NotInBoth(p: Plan, l: nat, i: nat, m: nat)
    requires ValidPlan(p) && InLayer(p, m, i) && InLayer(p, l, i)
    ensures m == l
  {
    LayersDisjoint(p.ms, p.layers, l, m, i);
  }

  lemma LayerAdded(p: Plan, l: nat, front: seq<Taken>, back: seq<Taken>)
    requires ValidPlan(p) && TakesLayers(p, l, front) && TakesLayer(p, l, back)
    ensures TakesLayers(p, l + 1, front + back)
  {
    var ts := front + back;
    hide ValidPlan, InLayer, Selected;
    forall i: nat ensures IsTaken(ts, i) <==> Selected(p, i) && InFirstLayers(p, l + 1, i) {
      TakenInEither(front, back, i);
      OneLayerMore(p, l, i);
    }
    forall a, b | 0 <= a < b < |ts| ensures ts[a].i != ts[b].i && Precedes(p, ts[a].i, ts[b].i) {
      if b < |front| {
        assert ts[a] == front[a] && ts[b] == front[b];
      } else {
        assert ts[b] == back[b - |front|] && ts[b] in back;
        assert IsTaken(back, ts[b].i);
        if a < |front| {
          assert ts[a] == front[a] && ts[a] in front;
          assert IsTaken(front, ts[a].i);
          EarlierLayer(p, l, ts[a].i, ts[b].i);
        } else {
          assert ts[a] == back[a - |front|] && ts[a] in back;
          assert IsTaken(back, ts[a].i);
        }
      }
    }
  }

  lemma EarlierLayer(p: Plan, l: nat, i: nat, j: nat)
    requires ValidPlan(p) && InFirstLayers(p, l, i) && InLayer(p, l, j)
    ensures i != j && Precedes(p, i, j)
  {
    var m: nat :| m < l && InLayer(p, m, i);
    hide ValidPlan, InLayer;
    if i == j { NotInBoth(p, l, i, m); }
  }

  lemma FailuresAdded(p: Plan, l: nat, front: seq<Taken>, back: seq<Taken>)
    requires ValidPlan(p) && TakesLayers(p, l, front) && TakesLayer(p, l, back)
    ensures SameFailures(p, l, front + back, front)
    ensures FailsIn(p, front + back, l) <==> HasFailure(back)
  {
    hide ValidPlan, InLayer, Selected;
    forall t | t in back ensures InLayer(p, l, t.i) {
      assert IsTaken(back, t.i);
    }
    forall t | t in front ensures InFirstLayers(p, l, t.i) {
      assert IsTaken(front, t.i);
    }
    hide TakesLayers, TakesLayer;
    forall m: nat | m <= l ensures FailsIn(p, front + back, m) <==> if m < l then FailsIn(p, front, m) else HasFailure(back) {
      FailuresIn(p, l, m, front, back);
    }
  }

  lemma FailuresIn(p: Plan, l: nat, m: nat, front: seq<Taken>, back: seq<Taken>)
    requires ValidPlan(p) && m <= l
    requires (forall t :: t in back ==> InLayer(p, l, t.i)) && forall t :: t in front ==> InFirstLayers(p, l, t.i)
    ensures FailsIn(p, front + back, m) <==> if m < l then FailsIn(p, front, m) else HasFailure(back)
  {
    hide ValidPlan, InLayer;
    if FailsIn(p, front + back, m) {
      var t :| t in front + back && !t.ok && InLayer(p, m, t.i);
      if t in back {
        NotInBoth(p, l, t.i, m);
      } else {
        var k: nat :| k < l && InLayer(p, k, t.i);
        NotInBoth(p, m, t.i, k);
      }
    }
    if m < l && FailsIn(p, front, m) {
      var t :| t in front && !t.ok && InLayer(p, m, t.i);
      assert t in front + back;
    }
    if m == l && HasFailure(back) {
      var t :| t in back && !t.ok;
      assert t in front + back;
    }
  }

  /** Applying the first `l` layers in order is such a run, if at most the layer it stopped at fails. */
  lemma InOrderRunsLayers(p: Plan, w: World, l: nat, stopped: Option<nat>)
    requires ValidPlan(p) && l <= |p.layers|
    requires forall m: nat :: m < l ==> (InOrderFails(p, w, m) <==> stopped == Some(m))
    ensures |p.tasks| == |p.ms| && RunsLayers(p, w, l, WorldBefore(p, w, l), stopped)
  {
    hide ValidPlan, WorldBefore, InOrderFails, OneByOne, TakesLayers, FailsIn;
    TasksOfPlan(p);
    var ts := LayersTrace(p, w, l);
    assert FailuresAre(p, l, ts, stopped);
  }
}
