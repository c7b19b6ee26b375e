// The goroutines of one layer: whatever the scheduler does, the layer ends as if its manifests had
// been applied one by one in declaration order.
module LayerConfluence {
  import opened Common
  import opened StateKeys
  import opened StateDiff
  import opened SyncModel
  import opened SyncEffects
  import opened SyncHistory

  datatype Task = Task(job: Job, outcome: Outcome)

  // ---------- What a manifest can touch ----------

  /** The resources of its build and, when it prunes, of the saved keys its build has dropped. */
  function Footprint(opts: Options, job: Job, saved: Entries): set<Slot> {
    (set o | o in job.objects :: SlotOf(o.id)) +
    (set k | k in saved && opts.sync && opts.prune && k !in Current(job) && SlotOfKey(k).Some? :: SlotOfKey(k).value)
  }

  /** What is left to do stays within the slots `fp` and, for saves, under a name. */
  ghost predicate Within(opts: Options, job: Job, fp: set<Slot>, p: Phase, w: World) {
    match p
    case Start => Footprint(opts, job, Stored(w, job.name)) <= fp
    case Syncing(todo, _) => job.name != "" && forall e :: e in todo ==> CallWithin(job, opts.prune, e, fp)
    case Saving(_) => job.name != ""
    case Putting(rest) => forall o :: o in rest ==> SlotOf(o.id) in fp
    case _ => true
  }

  ghost predicate CallWithin(job: Job, prune: bool, e: DiffEntry, fp: set<Slot>) {
    var c := CallOf(job, prune, e);
    c.Ok? && c.value.Some? ==> c.value.value.slot in fp
  }

  /** The two worlds look the same to a manifest that touches `fp` and saves under `name`. */
  ghost predicate AgreeOn(fp: set<Slot>, name: string, a: World, b: World) {
    && (forall s :: s in fp ==> SameAt(a.cluster, b.cluster, s))
    && SameAt(a.store, b.store, name) && SameAt(a.pending, b.pending, name)
  }

  /** The worlds differ at most where such a manifest may have written. */
  ghost predicate DifferOnly(fp: set<Slot>, name: string, a: World, b: World) {
    && (forall s :: s !in fp ==> SameAt(a.cluster, b.cluster, s))
    && (forall n :: n != name || n == "" ==> SameAt(a.store, b.store, n) && SameAt(a.pending, b.pending, n))
  }

  lemma BeginsWithin(opts: Options, job: Job, fp: set<Slot>, o: Outcome, w: World)
    requires Footprint(opts, job, Stored(w, job.name)) <= fp
    ensures Within(opts, job, fp, Begin(opts, job, o, w), w)
  {
    var p := Begin(opts, job, o, w);
    if p.Syncing? {
      var saved := Stored(w, job.name);
      forall e | e in p.todo ensures CallWithin(job, opts.prune, e, fp) {
        DiffEntryOf(saved, job, e);
        hide Diff, EntriesOf, ByKey;
        if e.diffType == Removed && ObjectOfKey(e.key).Ok? {
          assert SlotOfKey(e.key) == Some(SlotOf(ObjectOfKey(e.key).value));
        }
      }
    } else if p.Putting? {
      forall x | x in p.rest ensures SlotOf(x.id) in fp {}
    }
  }

  lemma AttemptLocal(o: Outcome, key: string, c: Call, a: Cluster, b: Cluster, fp: set<Slot>)
    requires c.slot in fp
    ensures (forall s :: s in fp ==> SameAt(a, b, s)) ==>
              forall s :: s in fp ==> SameAt(Attempt(o, key, c, a), Attempt(o, key, c, b), s)
    ensures forall s :: s !in fp ==> SameAt(a, Attempt(o, key, c, a), s)
  {
  }

  lemma SyncStepLocal(opts: Options, job: Job, o: Outcome, p: Phase, fp: set<Slot>, a: World, b: World)
    requires p.Syncing? && p.todo != [] && Within(opts, job, fp, p, a) && AgreeOn(fp, job.name, a, b)
    ensures var x, y := SyncStep(opts, job, o, p.todo, p.entries, a), SyncStep(opts, job, o, p.todo, p.entries, b);
            x.0 == y.0 && AgreeOn(fp, job.name, x.1, y.1) && Within(opts, job, fp, x.0, x.1) && DifferOnly(fp, job.name, a, x.1)
  {
    hide CallOf, Attempt, Record;
    assert CallWithin(job, opts.prune, p.todo[0], fp);
    var c := CallOf(job, opts.prune, p.todo[0]);
    if c.Ok? && c.value.Some? {
      AttemptLocal(o, p.todo[0].key, c.value.value, a.cluster, b.cluster, fp);
    }
  }

  lemma PutStepLocal(opts: Options, job: Job, o: Outcome, p: Phase, fp: set<Slot>, a: World, b: World)
    requires p.Putting? && p.rest != [] && Within(opts, job, fp, p, a) && AgreeOn(fp, job.name, a, b)
    ensures var x, y := PutStep(job, o, p.rest, a), PutStep(job, o, p.rest, b);
            x.0 == y.0 && AgreeOn(fp, job.name, x.1, y.1) && Within(opts, job, fp, x.0, x.1) && DifferOnly(fp, job.name, a, x.1)
  {
    hide Attempt, KeyOf;
    var obj := p.rest[0];
    assert obj in p.rest;
    AttemptLocal(o, KeyOf(job.name, obj), Put(SlotOf(obj.id), obj.content), a.cluster, b.cluster, fp);
  }

  /** A step sees and changes nothing but the manifest's own part of the world. */
  lemma StepLocal(opts: Options, job: Job, o: Outcome, p: Phase, fp: set<Slot>, a: World, b: World)
    requires Within(opts, job, fp, p, a) && AgreeOn(fp, job.name, a, b)
    ensures var x, y := Step(opts, job, o, p, a), Step(opts, job, o, p, b);
            x.0 == y.0 && AgreeOn(fp, job.name, x.1, y.1) && Within(opts, job, fp, x.0, x.1) && DifferOnly(fp, job.name, a, x.1)
  {
    hide SyncStep, PutStep, Footprint, CallWithin, EntriesOf, Diff;
    match p {
      case Start =>
        assert Stored(a, job.name) == Stored(b, job.name);
        BeginsWithin(opts, job, fp, o, a);
      case Syncing(todo, _) =>
        if todo != [] { SyncStepLocal(opts, job, o, p, fp, a, b); }
      case Putting(rest) =>
        if rest != [] { PutStepLocal(opts, job, o, p, fp, a, b); }
      case _ =>
        LateStepLocal(opts, job, o, p, fp, a, b);
        hide Step;
    }
  }

  lemma LateStepLocal(opts: Options, job: Job, o: Outcome, p: Phase, fp: set<Slot>, a: World, b: World)
    requires Within(opts, job, fp, p, a) && AgreeOn(fp, job.name, a, b) && !p.Start? && !p.Syncing? && !p.Putting?
    ensures var x, y := Step(opts, job, o, p, a), Step(opts, job, o, p, b);
            x.0 == y.0 && AgreeOn(fp, job.name, x.1, y.1) && Within(opts, job, fp, x.0, x.1) && DifferOnly(fp, job.name, a, x.1)
  {
    hide EntriesOf;
  }

  /** So its whole run comes out the same in worlds that agree on that part. */
  lemma {:induction false} FinishLocal(opts: Options, job: Job, o: Outcome, p: Phase, fp: set<Slot>, a: World, b: World)
    requires Within(opts, job, fp, p, a) && AgreeOn(fp, job.name, a, b)
    ensures var x, y := Finish(opts, job, o, p, a), Finish(opts, job, o, p, b);
            x.0 == y.0 && AgreeOn(fp, job.name, x.1, y.1)
    decreases Stage(p), Todo(p)
  {
    hide Within, AgreeOn, Step;
    if !Done(p) {
      StepLocal(opts, job, o, p, fp, a, b);
      StepAdvances(opts, job, o, p, a);
      var x, y := Step(opts, job, o, p, a), Step(opts, job, o, p, b);
      FinishLocal(opts, job, o, x.0, fp, x.1, y.1);
    }
  }

  // ---------- The layer ----------

  datatype LayerState = LayerState(phases: seq<Phase>, world: World)

  function Begun(tasks: seq<Task>, w: World): LayerState {
    LayerState(seq(|tasks|, i => Start), w)
  }

  /** Goroutine `i` makes one step; finished or unknown ones do nothing. */
  ghost function StepOf(opts: Options, tasks: seq<Task>, s: LayerState, i: nat): LayerState
    requires |s.phases| == |tasks|
  {
    if i >= |tasks| || Done(s.phases[i]) then s
    else
      var next := Step(opts, tasks[i].job, tasks[i].outcome, s.phases[i], s.world);
      LayerState(s.phases[i := next.0], next.1)
  }

  ghost function RunSchedule(opts: Options, tasks: seq<Task>, s: LayerState, schedule: seq<nat>): (r: LayerState)
    requires |s.phases| == |tasks|
    ensures |r.phases| == |tasks|
    decreases |schedule|
  {
    if schedule == [] then s
    else RunSchedule(opts, tasks, StepOf(opts, tasks, s, schedule[0]), schedule[1..])
  }

  predicate Complete(s: LayerState) {
    forall i :: 0 <= i < |s.phases| ==> Done(s.phases[i])
  }

  ghost function FootprintOf(opts: Options, tasks: seq<Task>, w: World, i: nat): set<Slot>
    requires i < |tasks|
  {
    Footprint(opts, tasks[i].job, Stored(w, tasks[i].job.name))
  }

  /** No two manifests share a resource or a name; unnamed ones save nothing. */
  ghost predicate Separate(opts: Options, tasks: seq<Task>, w: World) {
    forall i: nat, j: nat :: i < |tasks| && j < |tasks| && i != j ==>
      FootprintOf(opts, tasks, w, i) !! FootprintOf(opts, tasks, w, j) && (tasks[i].job.name != tasks[j].job.name || tasks[i].job.name == "")
  }

  /** Manifest `i` is on its way to the end it would reach on its own. */
  ghost predicate OnCourse(opts: Options, tasks: seq<Task>, w0: World, s: LayerState, i: nat)
    requires |s.phases| == |tasks| && i < |tasks|
  {
    var t, fp := tasks[i], FootprintOf(opts, tasks, w0, i);
    var end, alone := Finish(opts, t.job, t.outcome, s.phases[i], s.world), RunJob(opts, t.job, t.outcome, w0);
    && Within(opts, t.job, fp, s.phases[i], s.world)
    && end.0 == alone.0 && AgreeOn(fp, t.job.name, end.1, alone.1)
  }

  ghost predicate NobodysSlot(opts: Options, tasks: seq<Task>, w0: World, s: Slot) {
    forall i: nat :: i < |tasks| ==> s !in FootprintOf(opts, tasks, w0, i)
  }

  ghost predicate NobodysName(tasks: seq<Task>, n: string) {
    n == "" || forall i: nat :: i < |tasks| ==> tasks[i].job.name != n
  }

  ghost predicate RestUntouched(opts: Options, tasks: seq<Task>, w0: World, w: World) {
    && (forall s :: NobodysSlot(opts, tasks, w0, s) ==> SameAt(w0.cluster, w.cluster, s))
    && (forall n :: NobodysName(tasks, n) ==> SameAt(w0.store, w.store, n) && SameAt(w0.pending, w.pending, n))
  }

  ghost predicate LayerInv(opts: Options, tasks: seq<Task>, w0: World, s: LayerState) {
    && |s.phases| == |tasks|
    && (forall i: nat {:trigger OnCourse(opts, tasks, w0, s, i)} :: i < |tasks| ==> OnCourse(opts, tasks, w0, s, i))
    && RestUntouched(opts, tasks, w0, s.world)
  }

  lemma BegunInv(opts: Options, tasks: seq<Task>, w: World)
    ensures LayerInv(opts, tasks, w, Begun(tasks, w))
  {
    hide Footprint, Finish, NobodysSlot, NobodysName;
  }

  lemma SelfStepOnCourse(opts: Options, tasks: seq<Task>, w0: World, s: LayerState, i: nat)
    requires |s.phases| == |tasks| && i < |tasks| && !Done(s.phases[i]) && OnCourse(opts, tasks, w0, s, i)
    ensures OnCourse(opts, tasks, w0, StepOf(opts, tasks, s, i), i)
    ensures DifferOnly(FootprintOf(opts, tasks, w0, i), tasks[i].job.name, s.world, StepOf(opts, tasks, s, i).world)
  {
    var t, fp := tasks[i], FootprintOf(opts, tasks, w0, i);
    StepLocal(opts, t.job, t.outcome, s.phases[i], fp, s.world, s.world);
    hide Step, Within, AgreeOn, FootprintOf, DifferOnly;
  }

  lemma OtherStepOnCourse(opts: Options, tasks: seq<Task>, w0: World, s: LayerState, i: nat, j: nat)
    requires |s.phases| == |tasks| && i < |tasks| && j < |tasks| && i != j && Separate(opts, tasks, w0)
    requires !Done(s.phases[i]) && OnCourse(opts, tasks, w0, s, j)
    requires DifferOnly(FootprintOf(opts, tasks, w0, i), tasks[i].job.name, s.world, StepOf(opts, tasks, s, i).world)
    ensures OnCourse(opts, tasks, w0, StepOf(opts, tasks, s, i), j)
  {
    var t, fp := tasks[j], FootprintOf(opts, tasks, w0, j);
    var next := StepOf(opts, tasks, s, i);
    assert next.phases[j] == s.phases[j];
    hide Footprint, Finish, Step, RunJob;
    assert FootprintOf(opts, tasks, w0, i) !! fp;
    OthersAgree(FootprintOf(opts, tasks, w0, i), tasks[i].job.name, fp, t.job.name, s.world, next.world);
    WithinKept(opts, t.job, fp, s.phases[j], s.world, next.world);
    FinishLocal(opts, t.job, t.outcome, s.phases[j], fp, s.world, next.world);
    hide Within, DifferOnly;
  }

  lemma OthersAgree(mine: set<Slot>, name: string, fp: set<Slot>, other: string, a: World, b: World)
    requires DifferOnly(mine, name, a, b) && mine !! fp && (name != other || name == "")
    ensures AgreeOn(fp, other, a, b)
  {
  }

  lemma WithinKept(opts: Options, job: Job, fp: set<Slot>, p: Phase, a: World, b: World)
    requires Within(opts, job, fp, p, a) && AgreeOn(fp, job.name, a, b)
    ensures Within(opts, job, fp, p, b)
  {
    hide Footprint;
    assert Stored(a, job.name) == Stored(b, job.name);
  }

  lemma RestKept(opts: Options, tasks: seq<Task>, w0: World, i: nat, a: World, b: World)
    requires i < |tasks| && RestUntouched(opts, tasks, w0, a) && DifferOnly(FootprintOf(opts, tasks, w0, i), tasks[i].job.name, a, b)
    ensures RestUntouched(opts, tasks, w0, b)
  {
    hide FootprintOf;
    forall s | NobodysSlot(opts, tasks, w0, s) ensures SameAt(w0.cluster, b.cluster, s) {
      assert SameAt(a.cluster, b.cluster, s);
    }
    forall n | NobodysName(tasks, n) ensures SameAt(w0.store, b.store, n) && SameAt(w0.pending, b.pending, n) {
      assert SameAt(a.store, b.store, n) && SameAt(a.pending, b.pending, n);
    }
  }

  /** Every step of every goroutine keeps all of them on course. */
  lemma StepKeepsInv(opts: Options, tasks: seq<Task>, w0: World, s: LayerState, i: nat)
    requires LayerInv(opts, tasks, w0, s) && Separate(opts, tasks, w0)
    ensures LayerInv(opts, tasks, w0, StepOf(opts, tasks, s, i))
  {
    if i < |tasks| && !Done(s.phases[i]) {
      assert OnCourse(opts, tasks, w0, s, i);
      SelfStepOnCourse(opts, tasks, w0, s, i);
      RestKept(opts, tasks, w0, i, s.world, StepOf(opts, tasks, s, i).world);
      var next := StepOf(opts, tasks, s, i);
      hide StepOf, OnCourse, RestUntouched, Separate, DifferOnly, FootprintOf;
      forall j: nat | j < |tasks| ensures OnCourse(opts, tasks, w0, next, j) {
        if j != i {
          assert OnCourse(opts, tasks, w0, s, j);
          OtherStepOnCourse(opts, tasks, w0, s, i, j);
        }
      }
    }
  }

  lemma {:induction false} ScheduleKeepsInv(opts: Options, tasks: seq<Task>, w0: World, s: LayerState, schedule: seq<nat>)
    requires LayerInv(opts, tasks, w0, s) && Separate(opts, tasks, w0)
    ensures LayerInv(opts, tasks, w0, RunSchedule(opts, tasks, s, schedule))
    decreases |schedule|
  {
    if schedule != [] {
      StepKeepsInv(opts, tasks, w0, s, schedule[0]);
      hide LayerInv, Separate, StepOf;
      ScheduleKeepsInv(opts, tasks, w0, StepOf(opts, tasks, s, schedule[0]), schedule[1..]);
    }
  }

  // ---------- The end is determined ----------

  /** Where a finished layer is, read off what each manifest would do alone. */
  lemma CompleteIsAlone(opts: Options, tasks: seq<Task>, w0: World, s: LayerState, i: nat)
    requires LayerInv(opts, tasks, w0, s) && Complete(s) && i < |tasks|
    ensures var alone := RunJob(opts, tasks[i].job, tasks[i].outcome, w0);
            s.phases[i] == alone.0 && AgreeOn(FootprintOf(opts, tasks, w0, i), tasks[i].job.name, s.world, alone.1)
  {
    hide RunJob, FootprintOf, Within, AgreeOn, RestUntouched;
    assert OnCourse(opts, tasks, w0, s, i);
    assert Done(s.phases[i]);
  }

  lemma SameEverywhere<K(!new), V(!new)>(a: map<K, V>, b: map<K, V>)
    requires forall k :: SameAt(a, b, k)
    ensures a == b
  {
    assert forall k :: k in a ==> SameAt(a, b, k);
    assert forall k :: k in b ==> SameAt(a, b, k);
  }

  /** Two finished runs of the same layer, however they were scheduled, are the same state. */
  lemma CompleteIsUnique(opts: Options, tasks: seq<Task>, w0: World, s: LayerState, t: LayerState)
    requires LayerInv(opts, tasks, w0, s) && LayerInv(opts, tasks, w0, t) && Complete(s) && Complete(t)
    ensures s == t
  {
    forall i: nat | i < |tasks|
      ensures s.phases[i] == t.phases[i]
      ensures AgreeOn(FootprintOf(opts, tasks, w0, i), tasks[i].job.name, s.world, t.world)
    {
      CompleteIsAlone(opts, tasks, w0, s, i);
      CompleteIsAlone(opts, tasks, w0, t, i);
      hide RunJob, FootprintOf, OnCourse;
    }
    hide FootprintOf, OnCourse, Complete;
    forall x: Slot ensures SameAt(s.world.cluster, t.world.cluster, x) {
      if NobodysSlot(opts, tasks, w0, x) {
        assert SameAt(w0.cluster, s.world.cluster, x) && SameAt(w0.cluster, t.world.cluster, x);
      }
    }
    forall n: string ensures SameAt(s.world.store, t.world.store, n) && SameAt(s.world.pending, t.world.pending, n) {
      if NobodysName(tasks, n) {
        assert SameAt(w0.store, s.world.store, n) && SameAt(w0.store, t.world.store, n);
        assert SameAt(w0.pending, s.world.pending, n) && SameAt(w0.pending, t.world.pending, n);
      }
    }
    SameEverywhere(s.world.cluster, t.world.cluster);
    SameEverywhere(s.world.store, t.world.store);
    SameEverywhere(s.world.pending, t.world.pending);
    assert s.phases == t.phases;
  }

  // ---------- One manifest after the other ----------

  /** The world after applying the manifests in declaration order, each to its end. */
  ghost function ApplyInOrder(opts: Options, tasks: seq<Task>, w: World): World {
    if tasks == [] then w
    else ApplyInOrder(opts, tasks[1..], RunJob(opts, tasks[0].job, tasks[0].outcome, w).1)
  }

  ghost function FinishTask(opts: Options, tasks: seq<Task>, s: LayerState, i: nat): LayerState
    requires |s.phases| == |tasks| && i < |tasks|
  {
    var end := Finish(opts, tasks[i].job, tasks[i].outcome, s.phases[i], s.world);
    LayerState(s.phases[i := end.0], end.1)
  }

  lemma {:induction false} FinishTaskInv(opts: Options, tasks: seq<Task>, w0: World, s: LayerState, i: nat)
    requires LayerInv(opts, tasks, w0, s) && Separate(opts, tasks, w0) && i < |tasks|
    ensures LayerInv(opts, tasks, w0, FinishTask(opts, tasks, s, i))
    decreases Stage(s.phases[i]), Todo(s.phases[i])
  {
    hide OnCourse, RestUntouched, Separate;
    if Done(s.phases[i]) {
      assert FinishTask(opts, tasks, s, i) == s;
    } else {
      var next := StepOf(opts, tasks, s, i);
      StepKeepsInv(opts, tasks, w0, s, i);
      StepAdvances(opts, tasks[i].job, tasks[i].outcome, s.phases[i], s.world);
      hide LayerInv, Step;
      assert FinishTask(opts, tasks, s, i) == FinishTask(opts, tasks, next, i);
      FinishTaskInv(opts, tasks, w0, next, i);
    }
  }

  lemma {:induction false} InOrderFrom(opts: Options, tasks: seq<Task>, w0: World, s: LayerState, k: nat) returns (t: LayerState)
    requires LayerInv(opts, tasks, w0, s) && Separate(opts, tasks, w0) && k <= |tasks|
    requires forall i :: 0 <= i < k ==> Done(s.phases[i])
    requires forall i :: k <= i < |tasks| ==> s.phases[i] == Start
    ensures LayerInv(opts, tasks, w0, t) && Complete(t) && t.world == ApplyInOrder(opts, tasks[k..], s.world)
    decreases |tasks| - k
  {
    hide OnCourse, RestUntouched, Separate, Finish;
    if k == |tasks| {
      t := s;
    } else {
      FinishTaskInv(opts, tasks, w0, s, k);
      var next := FinishTask(opts, tasks, s, k);
      assert tasks[k..][1..] == tasks[k + 1..];
      t := InOrderFrom(opts, tasks, w0, next, k + 1);
    }
  }

  /** Every interleaving of a layer ends as the manifests applied one by one in declaration order,
      and each manifest succeeds or fails as it would have on its own. */
  lemma EveryScheduleIsInOrder(opts: Options, tasks: seq<Task>, w: World, schedule: seq<nat>)
    requires Separate(opts, tasks, w) && Complete(RunSchedule(opts, tasks, Begun(tasks, w), schedule))
    ensures var end := RunSchedule(opts, tasks, Begun(tasks, w), schedule);
            && end.world == ApplyInOrder(opts, tasks, w)
            && forall i :: 0 <= i < |tasks| ==> end.phases[i] == RunJob(opts, tasks[i].job, tasks[i].outcome, w).0
  {
    var start := Begun(tasks, w);
    var end := RunSchedule(opts, tasks, start, schedule);
    BegunInv(opts, tasks, w);
    ScheduleKeepsInv(opts, tasks, w, start, schedule);
    hide LayerInv, Separate, RunSchedule;
    var inOrder := InOrderFrom(opts, tasks, w, start, 0);
    assert tasks[0..] == tasks;
    CompleteIsUnique(opts, tasks, w, end, inOrder);
    forall i | 0 <= i < |tasks| ensures end.phases[i] == RunJob(opts, tasks[i].job, tasks[i].outcome, w).0 {
      CompleteIsAlone(opts, tasks, w, end, i);
    }
  }
}
