// When a failing atomic run leaves every saved state as it was, and when it does not.
module AtomicFailure {
  import opened Common
  import opened Manifests
  import opened StateKeys
  import opened StateDiff
  import opened SyncModel
  import opened SyncEffects
  import opened LayerConfluence
  import opened LayeredApply
  import opened AtomicApply

  // ---------- A run can always get through its layers ----------

  lemma LeadsOne(p: Plan, s: RunState, e: Event)
    requires |s.phases| == |p.ms| == |p.tasks| && Enabled(p, s, e)
    ensures Leads(p, s, [e], LayeredApply.After(p, s, e))
  {
    var t := LayeredApply.After(p, s, e);
    hide Enabled, LayeredApply.After;
    assert [e][1..] == [] && Leads(p, t, [], t);
  }

  lemma {:induction false} LeadsOn(p: Plan, s: RunState, es: seq<Event>, u: RunState, es': seq<Event>, t: RunState)
    requires |p.tasks| == |p.ms| && Leads(p, s, es, u) && Leads(p, u, es', t)
    ensures Leads(p, s, es + es', t)
    decreases |es|
  {
    hide Enabled, LayeredApply.After;
    if es == [] {
      assert es + es' == es';
    } else {
      assert (es + es')[1..] == es[1..] + es' && (es + es')[0] == es[0];
      LeadsOn(p, LayeredApply.After(p, s, es[0]), es[1..], u, es', t);
    }
  }

  predicate NoCommits(es: seq<Event>) {
    forall e :: e in es ==> e.StepManifest? || e.Barrier?
  }

  /** Same layer, still running. */
  ghost predicate SameLayer(p: Plan, s: RunState, t: RunState) {
    |t.phases| == |s.phases| == |p.ms| && t.status == s.status == Running && t.layer == s.layer
  }

  lemma {:induction false} RunManifest(p: Plan, s: RunState, i: nat) returns (es: seq<Event>, t: RunState)
    requires |s.phases| == |p.ms| == |p.tasks| && Enabled(p, s, StepManifest(i))
    ensures Leads(p, s, es, t) && NoCommits(es) && SameLayer(p, s, t)
    ensures Done(t.phases[i]) && forall j :: 0 <= j < |p.ms| && j != i ==> t.phases[j] == s.phases[j]
    decreases Stage(s.phases[i]), Todo(s.phases[i])
  {
    var e := StepManifest(i);
    var u := LayeredApply.After(p, s, e);
    StepAdvances(p.opts, p.tasks[i].job, p.tasks[i].outcome, s.phases[i], s.world);
    LeadsOne(p, s, e);
    hide Step, Leads, MatchesTags;
    if Done(u.phases[i]) {
      es, t := [e], u;
    } else {
      var rest;
      rest, t := RunManifest(p, u, i);
      LeadsOn(p, s, [e], u, rest, t);
      es := [e] + rest;
    }
  }

  function Unfinished(s: RunState): set<nat> {
    set i: nat | i < |s.phases| && !Done(s.phases[i])
  }

  lemma {:induction false} RunLayer(p: Plan, s: RunState) returns (es: seq<Event>, t: RunState)
    requires |s.phases| == |p.ms| == |p.tasks| && s.status == Running
    ensures Leads(p, s, es, t) && NoCommits(es) && SameLayer(p, s, t) && Enabled(p, t, Barrier)
    decreases |Unfinished(s)|
  {
    hide MatchesTags;
    if i: nat :| InLayer(p, s.layer, i) && Selected(p, i) && !Done(s.phases[i]) {
      var first, u := RunManifest(p, s, i);
      assert Unfinished(u) == Unfinished(s) - {i};
      var rest;
      rest, t := RunLayer(p, u);
      LeadsOn(p, s, first, u, rest, t);
      es := first + rest;
    } else {
      es, t := [], s;
    }
  }

  /** From every running state there is a way to the end of the layers, or to a layer that fails. */
  lemma {:induction false} RunLayers(p: Plan, s: RunState) returns (es: seq<Event>, t: RunState)
    requires ValidPlan(p) && BarrierInv(p, s) && s.status != Aborted
    ensures Leads(p, s, es, t) && NoCommits(es) && t.status != Running
    ensures t.status == Aborted ==> exists i: nat :: i < |t.phases| && t.phases[i] == Failed
    decreases |p.layers| - s.layer, if s.status == Running then 1 else 0
  {
    hide Ordered, MatchesTags;
    if s.status == Running {
      var first, u := RunLayer(p, s);
      LeadsOne(p, u, Barrier);
      var v := LayeredApply.After(p, u, Barrier);
      LeadsOn(p, s, first, u, [Barrier], v);
      LeadsKeepsBarrier(p, s, first, u);
      EventKeepsBarrier(p, u, Barrier);
      if v.status == Aborted {
        es, t := first + [Barrier], v;
      } else {
        var rest;
        rest, t := RunLayers(p, v);
        LeadsOn(p, s, first + [Barrier], v, rest, t);
        es := first + [Barrier] + rest;
      }
    } else {
      es, t := [], s;
    }
  }

  // ---------- The manifests of a run ----------

  ghost function DiffOf(p: Plan, w: World, i: nat): seq<DiffEntry>
    requires i < |p.tasks|
  {
    JobDiff(p.tasks[i].job, w)
  }

  /** Every entry of the manifest's diff can be carried out: prune can read the keys it drops. */
  ghost predicate Doable(p: Plan, w: World, i: nat)
    requires i < |p.tasks|
  {
    forall e :: e in DiffOf(p, w, i) ==> CallOf(p.tasks[i].job, p.opts.prune, e).Ok?
  }

  /** A successful sync of the manifest gives it other saved entries. */
  predicate ChangesEntries(p: Plan, w: World, i: nat)
    requires i < |p.tasks|
  {
    var job := p.tasks[i].job;
    Target(p.opts.prune, Stored(w, job.name), Current(job)) != Stored(w, job.name)
  }

  lemma ChangeNeedsDiff(p: Plan, w: World, i: nat)
    requires i < |p.tasks| && ChangesEntries(p, w, i)
    ensures DiffOf(p, w, i) != []
  {
    var job := p.tasks[i].job;
    EmptyDiff(Stored(w, job.name), Current(job), AlwaysKeys(job));
    hide Diff, EntriesOf;
    assert Stored(w, job.name) + Stored(w, job.name) == Stored(w, job.name);
  }

  ghost predicate SameJobs(p: Plan, q: Plan) {
    q == p.(tasks := q.tasks) && |q.tasks| == |p.tasks| && forall i :: 0 <= i < |p.tasks| ==> q.tasks[i].job == p.tasks[i].job
  }

  ghost predicate SameEntries(a: World, b: World) {
    forall n :: Stored(a, n) == Stored(b, n)
  }

  /** Whatever fails, a run of these manifests that is aborted leaves all saved entries as they were. */
  ghost predicate AllOrNothing(p: Plan, w: World) {
    forall q, es, s :: SameJobs(p, q) && Reaches(q, w, es, s) && s.status == Aborted ==> SameEntries(s.world, w)
  }

  // ---------- When every call works ----------

  function AllWell(p: Plan): Plan {
    p.(tasks := seq(|p.tasks|, i requires 0 <= i < |p.tasks| => Task(p.tasks[i].job, ALL_WELL)))
  }

  /** On the way to success, and to a put-off save when one is due. */
  ghost predicate HopefulPhase(job: Job, prune: bool, due: bool, p: Phase, w: World) {
    match p
    case Start => true
    case Syncing(todo, _) => forall e :: e in todo ==> CallOf(job, prune, e).Ok?
    case Saving(_) => true
    case Testing => due ==> job.name in w.pending
    case Succeeded => due ==> job.name in w.pending
    case _ => false
  }

  ghost predicate Hopeful(p: Plan, w0: World, s: RunState, i: nat)
    requires i < |p.tasks| && i < |s.phases|
  {
    HopefulPhase(p.tasks[i].job, p.opts.prune, DiffOf(p, w0, i) != [], s.phases[i], s.world)
  }

  ghost predicate AllHopeful(p: Plan, w0: World, s: RunState) {
    && |s.phases| == |p.ms| == |p.tasks|
    && forall i: nat {:trigger Hopeful(p, w0, s, i)} :: i < |p.ms| ==> Hopeful(p, w0, s, i)
  }

  /** The run starts from `w0` with every call working and every selected diff doable. */
  ghost predicate GoodPlan(p: Plan, w0: World) {
    && SyncPlan(p, w0) && p.opts.atomic && p == AllWell(p)
    && forall i: nat :: Selected(p, i) && i < |p.tasks| ==> Doable(p, w0, i)
  }

  lemma StepHopeful(opts: Options, job: Job, saved: Entries, p: Phase, w: World)
    requires opts.sync && opts.atomic && job.name != "" && Progress(opts, job, saved, p, w)
    requires HopefulPhase(job, opts.prune, Diff(saved, Current(job), AlwaysKeys(job)) != [], p, w)
    requires forall e :: e in Diff(saved, Current(job), AlwaysKeys(job)) ==> CallOf(job, opts.prune, e).Ok?
    ensures var next := Step(opts, job, ALL_WELL, p, w);
            HopefulPhase(job, opts.prune, Diff(saved, Current(job), AlwaysKeys(job)) != [], next.0, next.1)
  {
    hide Diff, Current, AlwaysKeys, RecordAll, CallOf, Attempt, Record, Target;
    match p {
      case Start => assert Stored(w, job.name) == saved;
      case Syncing(todo, entries) =>
        if todo != [] {
          assert todo == [todo[0]] + todo[1..];
        }
      case _ =>
    }
  }

  lemma OwnStepHopeful(p: Plan, w0: World, s: RunState, i: nat)
    requires GoodPlan(p, w0) && SaveInv(p, w0, s) && AllHopeful(p, w0, s) && Enabled(p, s, StepManifest(i))
    ensures Hopeful(p, w0, LayeredApply.After(p, s, StepManifest(i)), i)
  {
    var job := p.tasks[i].job;
    assert OnTrack(p, w0, s, i) && Hopeful(p, w0, s, i) && Doable(p, w0, i);
    assert p.tasks[i].outcome == ALL_WELL && job.name == p.ms[i].name != "";
    hide Ordered, InLayer, MatchesTags, AllHopeful, SaveInv, GoodPlan, Diff, CallOf, EntriesOf, Step, Progress, HopefulPhase;
    StepHopeful(p.opts, job, Stored(w0, job.name), s.phases[i], s.world);
  }

  lemma StepKeepsHopeful(p: Plan, w0: World, s: RunState, i: nat)
    requires GoodPlan(p, w0) && SaveInv(p, w0, s) && AllHopeful(p, w0, s) && Enabled(p, s, StepManifest(i))
    ensures AllHopeful(p, w0, LayeredApply.After(p, s, StepManifest(i)))
  {
    var t, job := LayeredApply.After(p, s, StepManifest(i)), p.tasks[i].job;
    OwnStepHopeful(p, w0, s, i);
    assert OnTrack(p, w0, s, i);
    StepProgress(p.opts, job, Stored(w0, job.name), p.tasks[i].outcome, s.phases[i], s.world);
    hide Step, Progress, Ordered, InLayer, MatchesTags, DiffOf, CallOf;
    forall j: nat | j < |p.ms| ensures Hopeful(p, w0, t, j) {
      if j != i {
        assert Hopeful(p, w0, s, j);
        assert p.tasks[j].job.name == p.ms[j].name != job.name;
        assert SameAt(s.world.pending, t.world.pending, p.tasks[j].job.name);
      }
    }
  }

  lemma {:induction false} LeadsKeepsHopeful(p: Plan, w0: World, s: RunState, es: seq<Event>, t: RunState)
    requires GoodPlan(p, w0) && BarrierInv(p, s) && SaveInv(p, w0, s) && AllHopeful(p, w0, s)
    requires Leads(p, s, es, t) && NoCommits(es)
    ensures AllHopeful(p, w0, t)
    decreases |es|
  {
    if es != [] {
      var u := LayeredApply.After(p, s, es[0]);
      EventKeepsBarrier(p, s, es[0]);
      if es[0].StepManifest? {
        StepKeepsHopeful(p, w0, s, es[0].i);
        ManifestStepKeepsSaves(p, w0, s, es[0].i);
      } else {
        OtherEventKeepsSaves(p, w0, s, es[0]);
        BarrierKeepsHopeful(p, w0, s);
      }
      hide BarrierInv, SaveInv, AllHopeful, Enabled, LayeredApply.After, GoodPlan, SyncPlan;
      LeadsKeepsHopeful(p, w0, u, es[1..], t);
    }
  }

  lemma BarrierKeepsHopeful(p: Plan, w0: World, s: RunState)
    requires AllHopeful(p, w0, s) && Enabled(p, s, Barrier)
    ensures AllHopeful(p, w0, LayeredApply.After(p, s, Barrier))
  {
    hide DiffOf, CallOf, LayerFailed, InLayer;
    var t := LayeredApply.After(p, s, Barrier);
    forall i: nat | i < |p.ms| ensures Hopeful(p, w0, t, i) {
      assert Hopeful(p, w0, s, i);
    }
  }

  /** A run in which every call works comes to its final saves, with one for every selected manifest
      whose diff has entries. */
  lemma ReachesFinalSaves(p: Plan, w: World) returns (es: seq<Event>, t: RunState)
    requires GoodPlan(p, w)
    ensures Reaches(p, w, es, t) && t.status == Committing
    ensures forall i: nat :: Selected(p, i) && DiffOf(p, w, i) != [] ==> p.tasks[i].job.name in t.world.pending
  {
    var start := Initial(p, w);
    InitialSaves(p, w);
    assert AllHopeful(p, w, start);
    es, t := RunLayers(p, start);
    LeadsKeepsHopeful(p, w, start, es, t);
    LeadsKeepsBarrier(p, start, es, t);
    NotCompleted(p, start, es, t);
    hide Leads, Ordered, MatchesTags, DiffOf, CallOf;
    forall i: nat | i < |p.ms| ensures t.phases[i] != Failed {
      assert Hopeful(p, w, t, i);
    }
    forall i: nat | Selected(p, i) && DiffOf(p, w, i) != [] ensures p.tasks[i].job.name in t.world.pending {
      var l := EveryManifestPlaced(p, i);
      assert t.phases[i] == Succeeded;
      assert Hopeful(p, w, t, i);
    }
  }

  /** An atomic sync completes by its final saves only. */
  lemma {:induction false} NotCompleted(p: Plan, s: RunState, es: seq<Event>, t: RunState)
    requires p.opts.sync && p.opts.atomic && |p.tasks| == |p.ms| && s.status != Completed && NoCommits(es) && Leads(p, s, es, t)
    ensures t.status != Completed
    decreases |es|
  {
    hide Step, MatchesTags, InLayer;
    if es != [] {
      NotCompleted(p, LayeredApply.After(p, s, es[0]), es[1..], t);
    }
  }

  // ---------- What is left when a run is aborted ----------

  /** Some selected manifest of that name has put off a save. */
  ghost predicate PutOff(p: Plan, w0: World, n: string) {
    exists i: nat :: i < |p.tasks| && Selected(p, i) && p.ms[i].name == n && DiffOf(p, w0, i) != []
  }

  ghost predicate Unsaved(p: Plan, w0: World, w: World, n: string) {
    Stored(w, n) == Stored(w0, n) && PutOff(p, w0, n)
  }

  ghost predicate DueWhenSyncing(p: Plan, w0: World, phase: Phase, i: nat)
    requires i < |p.tasks|
  {
    phase.Syncing? || phase.Saving? ==> DiffOf(p, w0, i) != []
  }

  /** A put-off save has not been made, belongs to a selected manifest, and one is left when the final
      saves are broken off. */
  ghost predicate SavesLeft(p: Plan, w0: World, s: RunState) {
    && |s.phases| == |p.ms| == |p.tasks|
    && (forall n :: n in s.world.pending ==> Unsaved(p, w0, s.world, n))
    && (forall i: nat :: i < |p.ms| ==> DueWhenSyncing(p, w0, s.phases[i], i))
    && (s.status == Aborted && s.layer == |p.layers| ==> s.world.pending != map[])
  }

  /** A step puts off the manifest's own save at most, and only for a diff that has entries. */
  lemma StepPutsOff(opts: Options, job: Job, saved: Entries, o: Outcome, p: Phase, w: World)
    requires opts.sync && opts.atomic && job.name != "" && Progress(opts, job, saved, p, w)
    requires p.Syncing? || p.Saving? ==> Diff(saved, Current(job), AlwaysKeys(job)) != []
    ensures var next := Step(opts, job, o, p, w);
            && next.1.store == w.store
            && next.1.pending.Keys <= w.pending.Keys + {job.name}
            && (job.name in next.1.pending && job.name !in w.pending ==> Diff(saved, Current(job), AlwaysKeys(job)) != [])
            && (next.0.Syncing? || next.0.Saving? ==> Diff(saved, Current(job), AlwaysKeys(job)) != [])
  {
    hide Diff, Current, AlwaysKeys, RecordAll, CallOf, Attempt, Record, Target;
    match p {
      case Start => assert Stored(w, job.name) == saved;
      case Syncing(todo, entries) =>
        if todo != [] {
          SyncStepKeepsSaves(opts, job, o, todo, entries, w);
          hide SyncStep;
        }
      case _ =>
    }
  }

  lemma SyncStepKeepsSaves(opts: Options, job: Job, o: Outcome, todo: seq<DiffEntry>, entries: Entries, w: World)
    requires todo != []
    ensures var next := SyncStep(opts, job, o, todo, entries, w);
            next.1.store == w.store && next.1.pending == w.pending && (next.0.Syncing? || next.0.Failed?)
  {
    hide CallOf, Attempt, Record;
  }

  lemma OwnStepSaves(p: Plan, w0: World, s: RunState, i: nat)
    requires SyncPlan(p, w0) && p.opts.atomic && SavesLeft(p, w0, s) && Enabled(p, s, StepManifest(i))
    requires i < |p.ms| && OnTrack(p, w0, s, i)
    ensures var t, n := LayeredApply.After(p, s, StepManifest(i)), p.tasks[i].job.name;
            && t.world.store == s.world.store
            && t.world.pending.Keys <= s.world.pending.Keys + {n}
            && (n in t.world.pending && n !in s.world.pending ==> DiffOf(p, w0, i) != [])
            && (t.phases[i].Syncing? || t.phases[i].Saving? ==> DiffOf(p, w0, i) != [])
  {
    var job := p.tasks[i].job;
    assert job.name == p.ms[i].name != "";
    hide Ordered, InLayer, MatchesTags, Diff, EntriesOf, Step, Progress, PutOff;
    StepPutsOff(p.opts, job, Stored(w0, job.name), p.tasks[i].outcome, s.phases[i], s.world);
  }

  lemma StepKeepsSavesLeft(p: Plan, w0: World, s: RunState, i: nat)
    requires SyncPlan(p, w0) && p.opts.atomic && BarrierInv(p, s) && SaveInv(p, w0, s) && SavesLeft(p, w0, s)
    requires Enabled(p, s, StepManifest(i))
    ensures SavesLeft(p, w0, LayeredApply.After(p, s, StepManifest(i)))
  {
    var t := LayeredApply.After(p, s, StepManifest(i));
    assert OnTrack(p, w0, s, i) && p.tasks[i].job.name == p.ms[i].name;
    OwnStepSaves(p, w0, s, i);
    assert s.world.store == w0.store && Selected(p, i);
    hide SavesLeft, SaveInv, BarrierInv, SyncPlan, Ordered, InLayer, MatchesTags, DiffOf, OnTrack, Step;
    NextSavesLeft(p, w0, s, t, i);
  }

  lemma NextSavesLeft(p: Plan, w0: World, s: RunState, t: RunState, i: nat)
    requires SavesLeft(p, w0, s) && |t.phases| == |s.phases| == |p.ms| == |p.tasks| && t.world.store == s.world.store == w0.store && t.status == Running
    requires i < |p.ms| && Selected(p, i) && forall j :: 0 <= j < |s.phases| && j != i ==> t.phases[j] == s.phases[j]
    requires t.world.pending.Keys <= s.world.pending.Keys + {p.ms[i].name}
    requires p.ms[i].name in t.world.pending && p.ms[i].name !in s.world.pending ==> DiffOf(p, w0, i) != []
    requires t.phases[i].Syncing? || t.phases[i].Saving? ==> DiffOf(p, w0, i) != []
    ensures SavesLeft(p, w0, t)
  {
    assert DueWhenSyncing(p, w0, t.phases[i], i);
    hide DiffOf, PutOff, Selected, DueWhenSyncing, Unsaved, Stored;
    NextPending(p, w0, s.world, t.world, i);
    forall j: nat | j < |p.ms| ensures DueWhenSyncing(p, w0, t.phases[j], j) {
      assert j != i ==> DueWhenSyncing(p, w0, s.phases[j], j);
    }
  }

  lemma NextPending(p: Plan, w0: World, a: World, b: World, i: nat)
    requires i < |p.ms| && i < |p.tasks| && Selected(p, i) && b.store == a.store == w0.store
    requires forall n :: n in a.pending ==> Unsaved(p, w0, a, n)
    requires b.pending.Keys <= a.pending.Keys + {p.ms[i].name}
    requires p.ms[i].name in b.pending && p.ms[i].name !in a.pending ==> DiffOf(p, w0, i) != []
    ensures forall n :: n in b.pending ==> Unsaved(p, w0, b, n)
  {
    hide *;
    forall n | n in b.pending ensures Unsaved(p, w0, b, n) {
      assert n in b.pending.Keys;
      NextUnsaved(p, w0, a, b, i, n);
    }
  }

  lemma NextUnsaved(p: Plan, w0: World, a: World, b: World, i: nat, n: string)
    requires i < |p.ms| && i < |p.tasks| && Selected(p, i) && b.store == a.store == w0.store
    requires n in a.pending ==> Unsaved(p, w0, a, n)
    requires n !in a.pending ==> n == p.ms[i].name && DiffOf(p, w0, i) != []
    ensures Unsaved(p, w0, b, n)
  {
    hide MatchesTags, DiffOf;
  }

  lemma OtherKeepsSavesLeft(p: Plan, w0: World, s: RunState, e: Event)
    requires BarrierInv(p, s) && SavesLeft(p, w0, s) && Enabled(p, s, e) && !e.StepManifest?
    ensures SavesLeft(p, w0, LayeredApply.After(p, s, e))
  {
    hide PutOff, DiffOf, InLayer, LayerFailed, MatchesTags;
  }

  lemma {:induction false} LeadsKeepsSavesLeft(p: Plan, w0: World, s: RunState, es: seq<Event>, t: RunState)
    requires SyncPlan(p, w0) && p.opts.atomic && BarrierInv(p, s) && SaveInv(p, w0, s) && SavesLeft(p, w0, s) && Leads(p, s, es, t)
    ensures SavesLeft(p, w0, t)
    decreases |es|
  {
    hide BarrierInv, SaveInv, SavesLeft, Enabled, Ordered, NamesValid, LayeredApply.After;
    if es != [] {
      if es[0].StepManifest? {
        StepKeepsSavesLeft(p, w0, s, es[0].i);
        ManifestStepKeepsSaves(p, w0, s, es[0].i);
      } else {
        OtherKeepsSavesLeft(p, w0, s, es[0]);
        OtherEventKeepsSaves(p, w0, s, es[0]);
      }
      EventKeepsBarrier(p, s, es[0]);
      LeadsKeepsSavesLeft(p, w0, LayeredApply.After(p, s, es[0]), es[1..], t);
    }
  }

  /** A manifest with an entry that cannot be carried out never succeeds. */
  ghost predicate Doomed(p: Plan, s: RunState, i: nat)
    requires i < |p.tasks| && i < |s.phases|
  {
    DoomedPhase(p.tasks[i].job, p.opts.prune, s.phases[i])
  }

  ghost predicate DoomedPhase(job: Job, prune: bool, p: Phase) {
    match p
    case Start => true
    case Syncing(todo, _) => exists e :: e in todo && CallOf(job, prune, e).Err?
    case Failed => true
    case _ => false
  }

  lemma StepStaysDoomed(opts: Options, job: Job, saved: Entries, o: Outcome, p: Phase, w: World)
    requires opts.sync && job.name != "" && Progress(opts, job, saved, p, w) && DoomedPhase(job, opts.prune, p)
    requires exists e :: e in Diff(saved, Current(job), AlwaysKeys(job)) && CallOf(job, opts.prune, e).Err?
    ensures DoomedPhase(job, opts.prune, Step(opts, job, o, p, w).0)
  {
    hide Diff, Current, AlwaysKeys, RecordAll, CallOf, Attempt, Record, Target;
    match p {
      case Start => assert Stored(w, job.name) == saved;
      case Syncing(todo, entries) =>
        var e :| e in todo && CallOf(job, opts.prune, e).Err?;
        assert todo == [todo[0]] + todo[1..];
      case _ =>
    }
  }

  lemma StepKeepsDoomed(p: Plan, w0: World, s: RunState, e: Event, i: nat)
    requires SyncPlan(p, w0) && SaveInv(p, w0, s) && Enabled(p, s, e) && i < |p.ms| && !Doable(p, w0, i) && Doomed(p, s, i)
    ensures Doomed(p, LayeredApply.After(p, s, e), i)
  {
    if e.StepManifest? && e.i == i {
      var job := p.tasks[i].job;
      assert OnTrack(p, w0, s, i);
      assert job.name == p.ms[i].name != "";
      hide Ordered, InLayer, MatchesTags, SaveInv, Diff, CallOf, EntriesOf, Step, Progress, DoomedPhase;
      StepStaysDoomed(p.opts, job, Stored(w0, job.name), p.tasks[i].outcome, s.phases[i], s.world);
    } else {
      OtherPhaseStays(p, s, e, i);
      hide *;
      SameDoom(p, s, LayeredApply.After(p, s, e), i);
    }
  }

  lemma OtherPhaseStays(p: Plan, s: RunState, e: Event, i: nat)
    requires |s.phases| == |p.ms| == |p.tasks| && Enabled(p, s, e) && i < |s.phases| && !(e.StepManifest? && e.i == i)
    ensures LayeredApply.After(p, s, e).phases[i] == s.phases[i]
  {
    hide InLayer, MatchesTags, Step, LayerFailed;
  }

  lemma SameDoom(p: Plan, s: RunState, t: RunState, i: nat)
    requires i < |p.tasks| && i < |s.phases| && i < |t.phases| && t.phases[i] == s.phases[i] && Doomed(p, s, i)
    ensures Doomed(p, t, i)
  {
    hide DoomedPhase;
  }

  lemma {:induction false} LeadsKeepsDoomed(p: Plan, w0: World, s: RunState, es: seq<Event>, t: RunState, i: nat)
    requires SyncPlan(p, w0) && BarrierInv(p, s) && SaveInv(p, w0, s) && Leads(p, s, es, t)
    requires i < |p.ms| && !Doable(p, w0, i) && Doomed(p, s, i)
    ensures i < |t.phases| && Doomed(p, t, i)
    decreases |es|
  {
    if es != [] {
      StepKeepsDoomed(p, w0, s, es[0], i);
      if es[0].StepManifest? {
        ManifestStepKeepsSaves(p, w0, s, es[0].i);
      } else {
        OtherEventKeepsSaves(p, w0, s, es[0]);
      }
      EventKeepsBarrier(p, s, es[0]);
      hide BarrierInv, SaveInv, Doomed, Doable, Enabled, Ordered, NamesValid, LayeredApply.After;
      LeadsKeepsDoomed(p, w0, LayeredApply.After(p, s, es[0]), es[1..], t, i);
    }
  }

  // ---------- Exactly when an atomic run is all or nothing ----------

  /** Two manifests, one of which changes its entries and the other of which also puts off a save. */
  ghost predicate Splittable(p: Plan, w: World, a: nat, b: nat) {
    && a < |p.tasks| && b < |p.tasks| && a != b && Selected(p, a) && Selected(p, b)
    && ChangesEntries(p, w, a) && DiffOf(p, w, b) != []
  }

  ghost predicate Blocked(p: Plan, w: World, i: nat) {
    i < |p.tasks| && Selected(p, i) && !Doable(p, w, i)
  }

  lemma StoreIsOld(p: Plan, w: World, s: RunState)
    requires p.opts.atomic && SaveInv(p, w, s) && s.layer < |p.layers|
    ensures SameEntries(s.world, w)
  {
    hide OnTrack;
  }

  /** What an aborted run has done to the entries of one name. */
  lemma AbortedEntries(p: Plan, w: World, s: RunState, n: string)
    requires SyncPlan(p, w) && p.opts.atomic && BarrierInv(p, s) && SaveInv(p, w, s) && SavesLeft(p, w, s)
    requires s.status == Aborted && forall a: nat, b: nat :: !Splittable(p, w, a, b)
    ensures Stored(s.world, n) == Stored(w, n)
  {
    if s.layer < |p.layers| {
      StoreIsOld(p, w, s);
      hide *;
      EntryIsSame(s.world, w, n);
    } else if n in s.world.pending {
      assert Unsaved(p, w, s.world, n);
      hide SavesLeft, SaveInv, SyncPlan, BarrierInv, Splittable, PutOff;
    } else if Named(p, n) {
      var i: nat :| i < |p.ms| && p.ms[i].name == n;
      hide *;
      AbortedManifest(p, w, s, i);
      NothingPutOff(s.world, n);
    } else {
      assert Effective(s.world, n) == Stored(w, n);
      hide *;
      NothingPutOff(s.world, n);
    }
  }

  lemma NothingPutOff(w: World, n: string)
    requires n !in w.pending
    ensures Effective(w, n) == Stored(w, n)
  {
  }

  lemma EntryIsSame(a: World, b: World, n: string)
    requires SameEntries(a, b)
    ensures Stored(a, n) == Stored(b, n)
  {
  }

  lemma AbortedManifest(p: Plan, w: World, s: RunState, i: nat)
    requires SyncPlan(p, w) && p.opts.atomic && BarrierInv(p, s) && SaveInv(p, w, s) && SavesLeft(p, w, s)
    requires s.status == Aborted && s.layer >= |p.layers| && forall a: nat, b: nat :: !Splittable(p, w, a, b)
    requires i < |p.ms| && p.ms[i].name !in s.world.pending
    ensures Effective(s.world, p.ms[i].name) == Stored(w, p.ms[i].name)
  {
    var b := SaveIsLeft(p, w, s);
    assert OnTrack(p, w, s, i) && p.tasks[i].job.name == p.ms[i].name && ValidPlan(p);
    hide *;
    if Selected(p, i) {
      AllSucceededByThen(p, s, i);
      NotSplit(p, w, i, b);
    } else {
      UnselectedHasNotBegun(p, s, i);
    }
    EntriesOnTrack(p, w, s, i);
  }

  lemma NotSplit(p: Plan, w: World, a: nat, b: nat)
    requires a < |p.tasks| && b < |p.tasks| && a != b && Selected(p, a) && Selected(p, b) && DiffOf(p, w, b) != []
    requires !Splittable(p, w, a, b)
    ensures var job := p.tasks[a].job; Target(p.opts.prune, Stored(w, job.name), Current(job)) == Stored(w, job.name)
  {
    hide DiffOf, Target, EntriesOf, MatchesTags;
  }

  lemma EntriesOnTrack(p: Plan, w: World, s: RunState, i: nat)
    requires i < |p.tasks| && i < |s.phases| && OnTrack(p, w, s, i)
    ensures var job := p.tasks[i].job;
            && (s.phases[i] == Start ==> Effective(s.world, job.name) == Stored(w, job.name))
            && (s.phases[i] == Succeeded ==> Effective(s.world, job.name) == Target(p.opts.prune, Stored(w, job.name), Current(job)))
  {
    hide Target, EntriesOf, Effective, RecordAll;
  }

  lemma SaveIsLeft(p: Plan, w: World, s: RunState) returns (b: nat)
    requires SavesLeft(p, w, s) && s.status == Aborted && s.layer == |p.layers|
    ensures b < |p.tasks| && b < |p.ms| && Selected(p, b) && p.ms[b].name in s.world.pending && DiffOf(p, w, b) != []
  {
    var m :| m in s.world.pending;
    assert PutOff(p, w, m);
    b :| b < |p.tasks| && Selected(p, b) && p.ms[b].name == m && DiffOf(p, w, b) != [];
  }

  lemma AllSucceededByThen(p: Plan, s: RunState, i: nat)
    requires ValidPlan(p) && BarrierInv(p, s) && s.layer == |p.layers| && Selected(p, i)
    ensures s.phases[i] == Succeeded
  {
    var l := EveryManifestPlaced(p, i);
    hide Ordered, MatchesTags;
  }

  lemma UnselectedHasNotBegun(p: Plan, s: RunState, i: nat)
    requires BarrierInv(p, s) && i < |p.ms| && !Selected(p, i)
    ensures s.phases[i] == Start
  {
    hide MatchesTags;
  }

  lemma BlockedStaysInLayers(p: Plan, w: World, es: seq<Event>, s: RunState, i: nat)
    requires SyncPlan(p, w) && Reaches(p, w, es, s) && Blocked(p, w, i)
    ensures s.layer < |p.layers|
  {
    var start := Initial(p, w);
    InitialSaves(p, w);
    assert Doomed(p, start, i);
    LeadsKeepsDoomed(p, w, start, es, s, i);
    ReachableBarrier(p, w, es, s);
    var l := EveryManifestPlaced(p, i);
    hide Leads, Ordered, MatchesTags, CallOf, Doable;
  }

  lemma AbortedKeepsAll(p: Plan, w: World, es: seq<Event>, s: RunState)
    requires SyncPlan(p, w) && p.opts.atomic && Reaches(p, w, es, s) && s.status == Aborted
    requires (exists i: nat :: Blocked(p, w, i)) || forall a: nat, b: nat :: !Splittable(p, w, a, b)
    ensures SameEntries(s.world, w)
  {
    ReachableSaves(p, w, es, s);
    if i: nat :| Blocked(p, w, i) {
      BlockedStaysInLayers(p, w, es, s, i);
      StoreIsOld(p, w, s);
    } else {
      hide *;
      ReachableSavesLeft(p, w, es, s);
      forall n ensures Stored(s.world, n) == Stored(w, n) {
        AbortedEntries(p, w, s, n);
      }
      EntriesAreSame(s.world, w);
    }
  }

  lemma ReachableSavesLeft(p: Plan, w: World, es: seq<Event>, s: RunState)
    requires SyncPlan(p, w) && p.opts.atomic && Reaches(p, w, es, s)
    ensures SavesLeft(p, w, s)
  {
    var start := Initial(p, w);
    InitialSaves(p, w);
    assert SavesLeft(p, w, start) by { hide DiffOf, PutOff; }
    hide BarrierInv, SaveInv, SavesLeft, SyncPlan, Initial, Leads;
    LeadsKeepsSavesLeft(p, w, start, es, s);
  }

  lemma EntriesAreSame(a: World, b: World)
    requires forall n :: Stored(a, n) == Stored(b, n)
    ensures SameEntries(a, b)
  {
  }

  /** With every call working but one final save, a run saves one manifest and not the other. */
  lemma SplitRun(p: Plan, w: World, a: nat, b: nat) returns (es: seq<Event>, s: RunState)
    requires SyncPlan(p, w) && p.opts.atomic && Splittable(p, w, a, b) && forall i: nat :: !Blocked(p, w, i)
    ensures Reaches(AllWell(p), w, es, s) && s.status == Aborted
    ensures Stored(s.world, p.tasks[a].job.name) != Stored(w, p.tasks[a].job.name)
  {
    var q := AllWell(p);
    AllWellIsGood(p, w);
    var front, t := ReachesFinalSaves(q, w);
    ChangeNeedsDiff(p, w, a);
    var an, bn := p.tasks[a].job.name, p.tasks[b].job.name;
    assert DiffOf(q, w, a) == DiffOf(p, w, a) && DiffOf(q, w, b) == DiffOf(p, w, b);
    assert Selected(q, a) && Selected(q, b) && an == p.ms[a].name && bn == p.ms[b].name;
    PendingIsTarget(q, w, front, t, a);
    hide DiffOf, Ordered, MatchesTags, ChangesEntries, Target, EntriesOf, GoodPlan;
    var rest;
    s := FailedFinalSaveKeepsEarlierOnes(q, t, an, bn);
    rest := [Commit(an, true), Commit(bn, false)];
    LeadsOn(q, Initial(q, w), front, t, rest, s);
    es := front + rest;
    LeadsPhases(q, t, rest, s);
    assert ChangesEntries(p, w, a);
    ChangedEntries(p, w, a);
  }

  lemma ChangedEntries(p: Plan, w: World, a: nat)
    requires a < |p.tasks| && ChangesEntries(p, w, a)
    ensures Target(p.opts.prune, Stored(w, p.tasks[a].job.name), Current(p.tasks[a].job)) != Stored(w, p.tasks[a].job.name)
  {
  }

  lemma {:induction false} LeadsPhases(p: Plan, s: RunState, es: seq<Event>, t: RunState)
    requires |p.tasks| == |p.ms| && Leads(p, s, es, t)
    ensures |t.phases| == |p.ms|
    decreases |es|
  {
    hide Enabled, LayeredApply.After;
    if es != [] {
      LeadsPhases(p, LayeredApply.After(p, s, es[0]), es[1..], t);
    }
  }

  lemma AllWellIsGood(p: Plan, w: World)
    requires SyncPlan(p, w) && p.opts.atomic && forall i: nat :: !Blocked(p, w, i)
    ensures GoodPlan(AllWell(p), w) && SameJobs(p, AllWell(p))
  {
    var q := AllWell(p);
    assert AllWell(q).tasks == q.tasks;
    hide Ordered, MatchesTags, CallOf, Diff;
    forall i: nat | Selected(q, i) && i < |q.tasks| ensures Doable(q, w, i) {
      assert Selected(p, i) && !Blocked(p, w, i);
      assert DiffOf(q, w, i) == DiffOf(p, w, i);
    }
  }

  lemma PendingIsTarget(p: Plan, w: World, es: seq<Event>, s: RunState, i: nat)
    requires SyncPlan(p, w) && p.opts.atomic && Reaches(p, w, es, s) && s.status == Committing
    requires Selected(p, i) && p.tasks[i].job.name in s.world.pending
    ensures s.world.pending[p.tasks[i].job.name] == Target(p.opts.prune, Stored(w, p.tasks[i].job.name), Current(p.tasks[i].job))
  {
    ReachableSaves(p, w, es, s);
    assert OnTrack(p, w, s, i);
    var l := EveryManifestPlaced(p, i);
    hide Leads, Ordered, MatchesTags, EntriesOf, Target;
    assert s.phases[i] == Succeeded;
  }

  /** Whatever may fail, an aborted atomic run leaves all saved entries as they were exactly when no
      manifest that changes its entries is selected together with another one whose diff has entries,
      or some selected manifest's diff cannot be carried out, so that no run gets to its final saves. */
  lemma AllOrNothingIff(p: Plan, w: World)
    requires SyncPlan(p, w) && p.opts.atomic
    ensures AllOrNothing(p, w)
            <==> (exists i: nat :: Blocked(p, w, i)) || forall a: nat, b: nat :: !Splittable(p, w, a, b)
  {
    if (exists i: nat :: Blocked(p, w, i)) || forall a: nat, b: nat :: !Splittable(p, w, a, b) {
      forall q, es, s | SameJobs(p, q) && Reaches(q, w, es, s) && s.status == Aborted ensures SameEntries(s.world, w) {
        SameConditions(p, q, w);
        AbortedKeepsAll(q, w, es, s);
      }
    } else {
      var a: nat, b: nat :| Splittable(p, w, a, b);
      var es, s := SplitRun(p, w, a, b);
      AllWellIsGood(p, w);
      hide Reaches, GoodPlan, Splittable, Blocked;
      assert !SameEntries(s.world, w);
    }
  }

  lemma SameConditions(p: Plan, q: Plan, w: World)
    requires SyncPlan(p, w) && SameJobs(p, q)
    ensures SyncPlan(q, w) && q.opts == p.opts
    ensures forall i: nat :: Blocked(p, w, i) <==> Blocked(q, w, i)
    ensures forall a: nat, b: nat :: Splittable(p, w, a, b) <==> Splittable(q, w, a, b)
  {
    hide Ordered, MatchesTags, CallOf, Diff, Target, EntriesOf;
    forall i: nat | i < |p.tasks| ensures DiffOf(p, w, i) == DiffOf(q, w, i) && (Doable(p, w, i) <==> Doable(q, w, i))
                                          && (ChangesEntries(p, w, i) <==> ChangesEntries(q, w, i)) && (Selected(p, i) <==> Selected(q, i)) {}
  }
}
