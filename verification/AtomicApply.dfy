// What ends up in the state store: atomic runs save all or nothing, and what they save is what a
// run that saves as it goes would have.
module AtomicApply {
  import opened Common
  import opened Manifests
  import opened StateDiff
  import opened SyncModel
  import opened SyncEffects
  import opened LayerConfluence
  import opened LayeredApply

  /** The entries a name has, put-off saves included. */
  function Effective(w: World, name: string): Entries {
    if name in w.pending then w.pending[name] else Stored(w, name)
  }

  /** Where a manifest stands between its entries before the run and its target. */
  ghost predicate Progress(opts: Options, job: Job, saved: Entries, p: Phase, w: World) {
    var target := Target(opts.prune, saved, Current(job));
    match p
    case Start => job.name !in w.pending && Effective(w, job.name) == saved
    case Syncing(todo, entries) =>
      job.name !in w.pending && Effective(w, job.name) == saved && RecordAll(opts.prune, todo, entries) == target
    case Saving(entries) => job.name !in w.pending && Effective(w, job.name) == saved && entries == target
    case Testing => Effective(w, job.name) == target
    case Succeeded => Effective(w, job.name) == target
    case Failed => true
    case _ => false
  }

  /** Only the saves under `name` differ, and only on the side the mode writes to. */
  ghost predicate SavesDiffer(opts: Options, name: string, a: World, b: World) {
    && (forall n :: n != name ==> SameAt(a.store, b.store, n) && SameAt(a.pending, b.pending, n))
    && (if opts.atomic then a.store == b.store else a.pending == b.pending)
  }

  lemma BeginProgress(opts: Options, job: Job, saved: Entries, o: Outcome, w: World)
    requires opts.sync && job.name != "" && Progress(opts, job, saved, Start, w)
    ensures Progress(opts, job, saved, Begin(opts, job, o, w), w)
  {
    hide Diff, RecordAll, EntriesOf;
    var current, always := Current(job), AlwaysKeys(job);
    assert Stored(w, job.name) == saved;
    EmptyDiff(saved, current, always);
    RecordingReachesTarget(opts.prune, saved, current, always);
    assert saved + saved == saved;
  }

  lemma StepProgress(opts: Options, job: Job, saved: Entries, o: Outcome, p: Phase, w: World)
    requires opts.sync && job.name != "" && Progress(opts, job, saved, p, w)
    ensures var next := Step(opts, job, o, p, w);
            Progress(opts, job, saved, next.0, next.1) && SavesDiffer(opts, job.name, w, next.1)
  {
    hide SyncStep, PutStep, RecordAll, Diff, EntriesOf, Target, Begin;
    match p {
      case Start => BeginProgress(opts, job, saved, o, w);
      case Syncing(todo, entries) =>
        if todo != [] {
          SyncStepProgress(opts, job, saved, o, p, w);
        } else {
          NothingLeft(opts.prune, entries);
        }
      case _ =>
    }
  }

  lemma NothingLeft(prune: bool, entries: Entries)
    ensures RecordAll(prune, [], entries) == entries
  {
  }

  lemma SyncStepProgress(opts: Options, job: Job, saved: Entries, o: Outcome, p: Phase, w: World)
    requires p.Syncing? && p.todo != [] && Progress(opts, job, saved, p, w)
    ensures var next := SyncStep(opts, job, o, p.todo, p.entries, w);
            Progress(opts, job, saved, next.0, next.1) && next.1.store == w.store && next.1.pending == w.pending
  {
    hide CallOf, Attempt, Record, Target, EntriesOf;
  }

  lemma OthersProgress(opts: Options, other: Job, saved: Entries, p: Phase, name: string, a: World, b: World)
    requires Progress(opts, other, saved, p, a) && SavesDiffer(opts, name, a, b) && other.name != name
    ensures Progress(opts, other, saved, p, b) && Effective(a, other.name) == Effective(b, other.name)
  {
    hide RecordAll, EntriesOf;
    assert SameAt(a.store, b.store, other.name) && SameAt(a.pending, b.pending, other.name);
  }

  // ---------- The whole run ----------

  /** What strict name validation guarantees before a sync. */
  predicate NamesValid(p: Plan) {
    && (forall i :: 0 <= i < |p.ms| ==> p.ms[i].name != "")
    && forall i, j :: 0 <= i < j < |p.ms| ==> p.ms[i].name != p.ms[j].name
  }

  ghost predicate SyncPlan(p: Plan, w: World) {
    ValidPlan(p) && p.opts.sync && NamesValid(p) && w.pending == map[]
  }

  predicate Named(p: Plan, n: string) {
    exists i :: 0 <= i < |p.ms| && p.ms[i].name == n
  }

  ghost predicate OnTrack(p: Plan, w0: World, s: RunState, i: nat)
    requires i < |p.tasks| && i < |s.phases|
  {
    Progress(p.opts, p.tasks[i].job, Stored(w0, p.tasks[i].job.name), s.phases[i], s.world)
  }

  ghost predicate SaveInv(p: Plan, w0: World, s: RunState) {
    && |s.phases| == |p.ms| == |p.tasks|
    && (forall i: nat {:trigger OnTrack(p, w0, s, i)} :: i < |p.ms| ==> OnTrack(p, w0, s, i))
    && (forall n :: !Named(p, n) ==> Effective(s.world, n) == Stored(w0, n))
    && (p.opts.atomic && s.layer < |p.layers| ==> s.world.store == w0.store)
    && (!p.opts.atomic || s.status == Completed ==> s.world.pending == map[])
  }

  lemma ManifestStepKeepsSaves(p: Plan, w0: World, s: RunState, i: nat)
    requires SyncPlan(p, w0) && BarrierInv(p, s) && SaveInv(p, w0, s) && Enabled(p, s, StepManifest(i))
    ensures SaveInv(p, w0, LayeredApply.After(p, s, StepManifest(i)))
  {
    var t := LayeredApply.After(p, s, StepManifest(i));
    var job := p.tasks[i].job;
    assert job.name == p.ms[i].name;
    assert OnTrack(p, w0, s, i);
    StepProgress(p.opts, job, Stored(w0, job.name), p.tasks[i].outcome, s.phases[i], s.world);
    hide Step, Progress, Ordered, BarrierInv, InLayer, MatchesTags;
    forall j: nat | j < |p.ms| ensures OnTrack(p, w0, t, j) {
      if j != i {
        assert OnTrack(p, w0, s, j);
        assert p.tasks[j].job.name == p.ms[j].name != job.name;
        OthersProgress(p.opts, p.tasks[j].job, Stored(w0, p.tasks[j].job.name), s.phases[j], job.name, s.world, t.world);
      }
    }
    forall n | !Named(p, n) ensures Effective(t.world, n) == Stored(w0, n) {
      assert n != job.name;
      assert SameAt(s.world.store, t.world.store, n) && SameAt(s.world.pending, t.world.pending, n);
    }
  }

  /** Moving a put-off save into the store changes no manifest's effective entries. */
  lemma CommitKeepsProgress(opts: Options, job: Job, saved: Entries, p: Phase, w: World, name: string)
    requires Progress(opts, job, saved, p, w) && name in w.pending
    ensures Progress(opts, job, saved, p, w.(store := w.store[name := w.pending[name]], pending := w.pending - {name}))
  {
    hide RecordAll, EntriesOf;
  }

  lemma OtherEventKeepsSaves(p: Plan, w0: World, s: RunState, e: Event)
    requires SyncPlan(p, w0) && BarrierInv(p, s) && SaveInv(p, w0, s) && Enabled(p, s, e) && !e.StepManifest?
    ensures SaveInv(p, w0, LayeredApply.After(p, s, e))
  {
    var t := LayeredApply.After(p, s, e);
    hide Ordered, InLayer, MatchesTags, LayerFailed;
    forall i: nat | i < |p.ms| ensures OnTrack(p, w0, t, i) {
      assert OnTrack(p, w0, s, i);
      if e.Commit? && e.saved {
        CommitKeepsProgress(p.opts, p.tasks[i].job, Stored(w0, p.tasks[i].job.name), s.phases[i], s.world, e.name);
      }
    }
  }

  lemma {:induction false} LeadsKeepsSaves(p: Plan, w0: World, s: RunState, es: seq<Event>, t: RunState)
    requires SyncPlan(p, w0) && BarrierInv(p, s) && SaveInv(p, w0, s) && Leads(p, s, es, t)
    ensures SaveInv(p, w0, t)
    decreases |es|
  {
    hide BarrierInv, SaveInv, Enabled, Ordered, NamesValid, LayeredApply.After;
    if es != [] {
      if es[0].StepManifest? {
        ManifestStepKeepsSaves(p, w0, s, es[0].i);
      } else {
        OtherEventKeepsSaves(p, w0, s, es[0]);
      }
      EventKeepsBarrier(p, s, es[0]);
      LeadsKeepsSaves(p, w0, LayeredApply.After(p, s, es[0]), es[1..], t);
    }
  }

  lemma InitialSaves(p: Plan, w: World)
    requires SyncPlan(p, w)
    ensures SaveInv(p, w, Initial(p, w)) && BarrierInv(p, Initial(p, w))
  {
    hide Ordered, MatchesTags;
  }

  lemma ReachableSaves(p: Plan, w: World, es: seq<Event>, s: RunState)
    requires SyncPlan(p, w) && Reaches(p, w, es, s)
    ensures SaveInv(p, w, s) && BarrierInv(p, s)
  {
    InitialSaves(p, w);
    ReachableBarrier(p, w, es, s);
    hide SaveInv, BarrierInv, SyncPlan, ValidPlan, Initial;
    LeadsKeepsSaves(p, w, Initial(p, w), es, s);
  }

  /** In an atomic run no saved state changes before every selected manifest has succeeded; so the
      failure of any manifest leaves all of them as they were. */
  lemma AtomicSavesAfterAllSucceeded(p: Plan, w: World, es: seq<Event>, s: RunState)
    requires SyncPlan(p, w) && p.opts.atomic && Reaches(p, w, es, s)
    ensures s.world.store == w.store || forall i: nat :: Selected(p, i) ==> s.phases[i] == Succeeded
    ensures (exists i: nat :: i < |p.ms| && s.phases[i] == Failed) ==> s.world.store == w.store
  {
    ReachableSaves(p, w, es, s);
    hide Reaches, OnTrack, Ordered, MatchesTags;
    if s.world.store != w.store {
      forall i: nat | i < |p.ms| ensures if Selected(p, i) then s.phases[i] == Succeeded else s.phases[i] == Start {
        var l := EveryManifestPlaced(p, i);
      }
    }
  }

  /** Only a failure among the final saves themselves can leave some of them done and others not. */
  lemma FailedFinalSaveKeepsEarlierOnes(p: Plan, s: RunState, a: string, b: string) returns (t: RunState)
    requires |p.tasks| == |p.ms| == |s.phases| && s.status == Committing
    requires a in s.world.pending && b in s.world.pending && a != b
    ensures Leads(p, s, [Commit(a, true), Commit(b, false)], t) && t.status == Aborted
    ensures Stored(t.world, a) == s.world.pending[a] && Stored(t.world, b) == Stored(s.world, b)
  {
    var es := [Commit(a, true), Commit(b, false)];
    var u := LayeredApply.After(p, s, es[0]);
    assert u.world.pending == s.world.pending - {a};
    t := LayeredApply.After(p, u, es[1]);
    assert es[1..][1..] == [] && es[1..][0] == es[1];
    assert Leads(p, t, [], t);
    assert Leads(p, u, es[1..], t);
  }

  /** The entries a completed run leaves under a name: the target of the selected manifest of that
      name, and otherwise what was there. */
  ghost predicate LeavesEntries(p: Plan, w: World, n: string, entries: Entries)
    requires |p.tasks| == |p.ms|
  {
    && (forall i: nat :: i < |p.ms| && p.ms[i].name == n && Selected(p, i) ==>
          entries == Target(p.opts.prune, Stored(w, n), Current(p.tasks[i].job)))
    && ((forall i: nat :: i < |p.ms| && p.ms[i].name == n ==> !Selected(p, i)) ==> entries == Stored(w, n))
  }

  lemma CompletedEntries(p: Plan, w: World, es: seq<Event>, s: RunState, n: string)
    requires SyncPlan(p, w) && Reaches(p, w, es, s) && s.status == Completed
    ensures |p.tasks| == |p.ms| && LeavesEntries(p, w, n, Stored(s.world, n))
  {
    ReachableSaves(p, w, es, s);
    hide Reaches, Ordered, MatchesTags, EntriesOf, Target;
    assert Effective(s.world, n) == Stored(s.world, n);
    forall i: nat | i < |p.ms| && p.ms[i].name == n
      ensures if Selected(p, i) then Stored(s.world, n) == Target(p.opts.prune, Stored(w, n), Current(p.tasks[i].job))
              else Stored(s.world, n) == Stored(w, n)
    {
      assert OnTrack(p, w, s, i);
      if Selected(p, i) {
        var l := EveryManifestPlaced(p, i);
        assert s.phases[i] == Succeeded;
      } else {
        assert s.phases[i] == Start;
      }
    }
    if forall i: nat :: i < |p.ms| && p.ms[i].name == n ==> !Selected(p, i) {
      if Named(p, n) {
        var i :| 0 <= i < |p.ms| && p.ms[i].name == n;
      }
    }
  }

  /** A completed atomic run and a completed run that saves as it goes, started from the same state,
      leave the same entries for every manifest, whatever their scheduling. */
  lemma AtomicSavesTheSame(p: Plan, w: World, esA: seq<Event>, a: RunState, esB: seq<Event>, b: RunState, q: Plan, n: string)
    requires q == p.(opts := p.opts.(atomic := false), tasks := q.tasks) && |q.tasks| == |p.tasks|
    requires forall i :: 0 <= i < |p.tasks| ==> q.tasks[i].job == p.tasks[i].job
    requires SyncPlan(p, w) && p.opts.atomic && Reaches(p, w, esA, a) && a.status == Completed
    requires Reaches(q, w, esB, b) && b.status == Completed
    ensures Stored(a.world, n) == Stored(b.world, n)
  {
    hide Leads, Ordered, MatchesTags, EntriesOf, Target;
    assert SyncPlan(q, w);
    CompletedEntries(p, w, esA, a, n);
    CompletedEntries(q, w, esB, b, n);
    assert forall i: nat :: i < |p.ms| ==> Selected(p, i) == Selected(q, i);
  }
}
