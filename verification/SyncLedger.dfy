// The saved state over a whole history of syncs of one manifest.
module SyncLedger {
  import opened Common
  import opened StateKeys
  import opened StateDiff
  import opened SyncModel
  import opened SyncEffects
  import opened SyncHistory

  // ---------- One run, with or without prune ----------

  /** A run over keys that all stand for different resources. */
  ghost predicate CleanRun(opts: Options, job: Job, o: Outcome, w: World) {
    && opts.sync && !opts.atomic && job.name != "" && Printable(job)
    && RunJob(opts, job, o, w).0 == Succeeded
    && Truthful(w.cluster, Stored(w, job.name))
    && OneKeyPerSlot(Stored(w, job.name).Keys + Current(job).Keys)
  }

  ghost predicate SlotOfNone(keys: set<string>, s: Slot) {
    forall k :: k in keys ==> SlotOfKey(k) != Some(s)
  }

  lemma OnlyItsKeyTouches(job: Job, prune: bool, saved: Entries, e: DiffEntry, s: Slot, k: string)
    requires OneKeyPerSlot(saved.Keys + Current(job).Keys) && k in saved.Keys + Current(job).Keys && SlotOfKey(k) == Some(s)
    requires e in Diff(saved, Current(job), AlwaysKeys(job)) && Touches(prune, e, s)
    ensures Classify(saved, Current(job), AlwaysKeys(job), k) == Some(e)
  {
    DiffEntryOf(saved, job, e);
    hide Diff, EntriesOf, SlotOfKey;
  }

  /** The slot of a saved or built key holds something after the run exactly when the key is saved. */
  lemma OccupiedIffSaved(job: Job, prune: bool, saved: Entries, cluster: Cluster, k: string, s: Slot)
    requires Printable(job) && Truthful(cluster, saved) && OneKeyPerSlot(saved.Keys + Current(job).Keys)
    requires k in saved.Keys + Current(job).Keys && SlotOfKey(k) == Some(s)
    ensures s in LandAll(CallsOf(job, prune, Diff(saved, Current(job), AlwaysKeys(job))), cluster)
            <==> k in Target(prune, saved, Current(job))
  {
    var d := Diff(saved, Current(job), AlwaysKeys(job));
    SlotAfter(job, prune, saved, cluster, s);
    DiffIsSorted(saved, job);
    LastTouchIsLast(prune, d, s);
    if Listed(job, saved, k) {
      ListedIsInDiff(job, saved, k);
    }
    var last := LastTouch(prune, d, s);
    if last.Some? {
      OnlyItsKeyTouches(job, prune, saved, last.value, s, k);
    }
    assert k in saved ==> TrueAt(cluster, saved, k);
    hide Diff, EntriesOf, SlotOfKey, LastTouch, LandAll, CallsOf, Sorted, Less, OneKeyPerSlot, Truthful;
  }

  lemma OtherSlotsKept(job: Job, prune: bool, saved: Entries, cluster: Cluster, s: Slot)
    requires Printable(job) && SlotOfNone(saved.Keys + Current(job).Keys, s)
    ensures SameAt(LandAll(CallsOf(job, prune, Diff(saved, Current(job), AlwaysKeys(job))), cluster), cluster, s)
  {
    var d := Diff(saved, Current(job), AlwaysKeys(job));
    SlotAfter(job, prune, saved, cluster, s);
    DiffIsSorted(saved, job);
    LastTouchIsLast(prune, d, s);
    hide Diff, EntriesOf, SlotOfKey, LastTouch, LandAll, CallsOf, Sorted, Less;
    var last := LastTouch(prune, d, s);
    if last.Some? {
      DiffEntryOf(saved, job, last.value);
    }
  }

  /** A slot that a saved or built key stands for holds something exactly when a key saved after the
      run stands for it. */
  lemma CleanSlot(job: Job, prune: bool, saved: Entries, cluster: Cluster, s: Slot)
    requires Printable(job) && Truthful(cluster, saved) && OneKeyPerSlot(saved.Keys + Current(job).Keys)
    requires !SlotOfNone(saved.Keys + Current(job).Keys, s)
    ensures s in LandAll(CallsOf(job, prune, Diff(saved, Current(job), AlwaysKeys(job))), cluster)
            <==> !SlotOfNone(Target(prune, saved, Current(job)).Keys, s)
  {
    var k :| k in saved.Keys + Current(job).Keys && SlotOfKey(k) == Some(s);
    OccupiedIffSaved(job, prune, saved, cluster, k, s);
    hide SlotOfKey, LandAll, CallsOf, Diff, EntriesOf, Truthful;
  }

  /** A run or history over `keys` that leaves `entries` recorded: a slot that a key stands for holds
      something exactly when a recorded key stands for it, and any other slot is as before. */
  ghost predicate SlotEffect(keys: set<string>, entries: set<string>, before: Cluster, after: Cluster, s: Slot) {
    if SlotOfNone(keys, s) then SameAt(after, before, s) else s in after <==> !SlotOfNone(entries, s)
  }

  /** A run keeps the record true, leaves a slot of its keys occupied exactly when the key is saved,
      and leaves all other slots alone. */
  lemma CleanRunIsExact(opts: Options, job: Job, o: Outcome, w: World)
    requires CleanRun(opts, job, o, w)
    ensures var after := RunJob(opts, job, o, w).1; var saved := Stored(w, job.name); var keys := saved.Keys + Current(job).Keys;
            && Stored(after, job.name) == Target(opts.prune, saved, Current(job))
            && Truthful(after.cluster, Stored(after, job.name))
            && forall s :: SlotEffect(keys, Stored(after, job.name).Keys, w.cluster, after.cluster, s)
  {
    var after, saved := RunJob(opts, job, o, w).1, Stored(w, job.name);
    var keys := saved.Keys + Current(job).Keys;
    RunLands(opts, job, o, w);
    RecordStaysTrue(opts, job, o, w);
    hide RunJob, Diff, LandAll, CallsOf, EntriesOf, SlotOfKey, OneKeyPerSlot, SlotOfNone, Truthful, Target, SameAt;
    forall s ensures SlotEffect(keys, Stored(after, job.name).Keys, w.cluster, after.cluster, s) {
      if SlotOfNone(keys, s) {
        OtherSlotsKept(job, opts.prune, saved, w.cluster, s);
      } else {
        CleanSlot(job, opts.prune, saved, w.cluster, s);
      }
    }
  }

  lemma RecordStaysTrue(opts: Options, job: Job, o: Outcome, w: World)
    requires CleanRun(opts, job, o, w)
    ensures var after := RunJob(opts, job, o, w).1; Truthful(after.cluster, Stored(after, job.name))
  {
    hide RunJob, EntriesOf, SlotOfKey, Truthful;
    if opts.prune {
      PruneKeepsTrueRecordIff(opts, job, o, w);
    } else {
      AddingKeepsTrueRecordIff(opts, job, o, w);
    }
  }

  // ---------- Histories ----------

  datatype Run = Run(objects: seq<Object>, alwaysSync: bool, prune: bool, outcome: Outcome)

  function JobOf(name: string, r: Run): Job {
    Job(name, r.objects, r.alwaysSync)
  }

  function OptionsOf(r: Run): Options {
    Options(true, r.prune, false)
  }

  ghost function RunOne(name: string, r: Run, w: World): (Phase, World) {
    RunJob(OptionsOf(r), JobOf(name, r), r.outcome, w)
  }

  ghost function After(name: string, runs: seq<Run>, w: World): World {
    if runs == [] then w
    else RunOne(name, runs[|runs| - 1], After(name, runs[..|runs| - 1], w)).1
  }

  ghost predicate AllSucceed(name: string, runs: seq<Run>, w: World) {
    runs != [] ==>
      && AllSucceed(name, runs[..|runs| - 1], w)
      && RunOne(name, runs[|runs| - 1], After(name, runs[..|runs| - 1], w)).0 == Succeeded
  }

  function Build(name: string, r: Run): Entries {
    Current(JobOf(name, r))
  }

  /** Every key that occurs in some build of the history. */
  function Seen(name: string, runs: seq<Run>): set<string> {
    if runs == [] then {} else Seen(name, runs[..|runs| - 1]) + Build(name, runs[|runs| - 1]).Keys
  }

  /** Run `i` is the last one that applied `k`, and no prune run came after it. */
  ghost predicate LastApplied(name: string, runs: seq<Run>, i: nat, k: string) {
    && i < |runs| && k in Build(name, runs[i])
    && forall j :: i < j < |runs| ==> k !in Build(name, runs[j]) && !runs[j].prune
  }

  ghost predicate Recorded(name: string, runs: seq<Run>, k: string, h: string) {
    exists i: nat :: LastApplied(name, runs, i, k) && Build(name, runs[i])[k] == h
  }

  /** Every run succeeds, and in each of them the saved and built keys are different resources. */
  ghost predicate CleanRuns(name: string, runs: seq<Run>, w: World) {
    runs != [] ==>
      var front, last := runs[..|runs| - 1], runs[|runs| - 1];
      var before := After(name, front, w);
      && CleanRuns(name, front, w)
      && Printable(JobOf(name, last)) && RunOne(name, last, before).0 == Succeeded
      && OneKeyPerSlot(Stored(before, name).Keys + Build(name, last).Keys)
  }

  ghost predicate CleanHistory(name: string, runs: seq<Run>, w: World) {
    name != "" && Stored(w, name) == map[] && CleanRuns(name, runs, w)
  }

  /** The saved entries are true, of the slots of all keys ever applied exactly those of saved keys
      hold something, and no other slot has changed. */
  ghost predicate Exact(name: string, seen: set<string>, w0: World, w: World) {
    var entries := Stored(w, name);
    && entries.Keys <= seen
    && Truthful(w.cluster, entries)
    && forall s :: SlotEffect(seen, entries.Keys, w0.cluster, w.cluster, s)
  }

  /** After any history of successful syncs, with any builds and prune flags, the saved state is
      exactly what is in the cluster: recorded keys are there, dropped ones are not. */
  lemma {:induction false} HistoryIsExact(name: string, runs: seq<Run>, w: World)
    requires CleanHistory(name, runs, w)
    ensures Exact(name, Seen(name, runs), w, After(name, runs, w))
  {
    if runs != [] {
      var front, last := runs[..|runs| - 1], runs[|runs| - 1];
      HistoryIsExact(name, front, w);
      var before := After(name, front, w);
      assert After(name, runs, w) == RunOne(name, last, before).1;
      assert Seen(name, runs) == Seen(name, front) + Build(name, last).Keys;
      hide After, Seen, Build, SlotOfKey, Exact, RunOne;
      ExtendExact(name, Seen(name, front), last, w, before);
    }
  }

  lemma ExtendExact(name: string, seen: set<string>, last: Run, w0: World, before: World)
    requires name != "" && Printable(JobOf(name, last)) && RunOne(name, last, before).0 == Succeeded
    requires OneKeyPerSlot(Stored(before, name).Keys + Build(name, last).Keys)
    requires Exact(name, seen, w0, before)
    ensures Exact(name, seen + Build(name, last).Keys, w0, RunOne(name, last, before).1)
  {
    var after := RunOne(name, last, before).1;
    var saved, build, entries := Stored(before, name).Keys, Build(name, last).Keys, Stored(after, name).Keys;
    hide RunJob, EntriesOf, SlotOfKey, Truthful, OneKeyPerSlot, SlotEffect;
    CleanRunIsExact(OptionsOf(last), JobOf(name, last), last.outcome, before);
    forall s ensures SlotEffect(seen + build, entries, w0.cluster, after.cluster, s) {
      ExtendSlot(seen, saved, build, entries, w0.cluster, before.cluster, after.cluster, s);
    }
  }

  /** A slot of an earlier key that the run has nothing to do with stays as empty as it was. */
  lemma ExtendSlot(seen: set<string>, saved: set<string>, build: set<string>, entries: set<string>,
                   c0: Cluster, c1: Cluster, c2: Cluster, s: Slot)
    requires saved <= seen && entries <= saved + build
    requires SlotEffect(seen, saved, c0, c1, s) && SlotEffect(saved + build, entries, c1, c2, s)
    ensures SlotEffect(seen + build, entries, c0, c2, s)
  {
    hide SlotOfKey;
  }

  /** A key is saved with a hash exactly when its last application, with that hash, has not been
      followed by a prune run that dropped it. */
  lemma {:induction false} StateRecordsLastApplication(name: string, runs: seq<Run>, w: World, k: string, h: string)
    requires name != "" && Stored(w, name) == map[] && AllSucceed(name, runs, w)
    ensures var entries := Stored(After(name, runs, w), name);
            k in entries && entries[k] == h <==> Recorded(name, runs, k, h)
  {
    if runs != [] {
      var front, last := runs[..|runs| - 1], runs[|runs| - 1];
      StateRecordsLastApplication(name, front, w, k, h);
      var before := After(name, front, w);
      RunStoresTarget(OptionsOf(last), JobOf(name, last), last.outcome, before);
      assert After(name, runs, w) == RunOne(name, last, before).1;
      hide RunJob, EntriesOf, After, AllSucceed;
      RecordedStep(name, runs, k, h);
    }
  }

  lemma RecordedStep(name: string, runs: seq<Run>, k: string, h: string)
    requires runs != []
    ensures var front, last := runs[..|runs| - 1], runs[|runs| - 1];
            Recorded(name, runs, k, h) <==>
            if k in Build(name, last) then Build(name, last)[k] == h else !last.prune && Recorded(name, front, k, h)
  {
    hide Build;
    var front, last, n := runs[..|runs| - 1], runs[|runs| - 1], |runs| - 1;
    if Recorded(name, runs, k, h) {
      var i: nat :| LastApplied(name, runs, i, k) && Build(name, runs[i])[k] == h;
      LastAppliedStep(name, runs, i, k);
      if i < n {
        assert runs[i] == front[i] && Recorded(name, front, k, h);
      }
    }
    if k in Build(name, last) && Build(name, last)[k] == h {
      LastAppliedStep(name, runs, n, k);
    } else if k !in Build(name, last) && !last.prune && Recorded(name, front, k, h) {
      var i: nat :| LastApplied(name, front, i, k) && Build(name, front[i])[k] == h;
      LastAppliedStep(name, runs, i, k);
      assert runs[i] == front[i];
    }
  }

  lemma LastAppliedStep(name: string, runs: seq<Run>, i: nat, k: string)
    requires runs != [] && i < |runs|
    ensures var front, last := runs[..|runs| - 1], runs[|runs| - 1];
            LastApplied(name, runs, i, k) <==>
            if i == |runs| - 1 then k in Build(name, last)
            else LastApplied(name, front, i, k) && k !in Build(name, last) && !last.prune
  {
    hide Build;
    var front := runs[..|runs| - 1];
    assert forall j :: 0 <= j < |front| ==> front[j] == runs[j];
  }

  /** After a prune run the saved state is the build itself: nothing older is remembered. */
  lemma PruneForgetsNothingElse(name: string, runs: seq<Run>, w: World)
    requires name != "" && AllSucceed(name, runs, w) && runs != [] && runs[|runs| - 1].prune
    ensures Stored(After(name, runs, w), name) == Build(name, runs[|runs| - 1])
  {
    var last := runs[|runs| - 1];
    RunStoresTarget(OptionsOf(last), JobOf(name, last), last.outcome, After(name, runs[..|runs| - 1], w));
  }
}
