// What a sync of one manifest amounts to once it has come to its end.
module SyncEffects {
  import opened Common
  import opened StateKeys
  import opened StateDiff
  import opened SyncModel

  // ---------- All the calls of a diff ----------

  function CallsOf(job: Job, prune: bool, todo: seq<DiffEntry>): seq<Call> {
    if todo == [] then []
    else
      var rest := CallsOf(job, prune, todo[1..]);
      match CallOf(job, prune, todo[0])
      case Ok(Some(c)) => [c] + rest
      case _ => rest
  }

  function LandAll(calls: seq<Call>, cluster: Cluster): Cluster {
    if calls == [] then cluster else LandAll(calls[1..], Land(calls[0], cluster))
  }

  function RecordAll(prune: bool, todo: seq<DiffEntry>, entries: Entries): Entries {
    if todo == [] then entries else RecordAll(prune, todo[1..], Record(prune, todo[0], entries))
  }

  /** The entries a successful sync leaves behind. */
  function Target(prune: bool, saved: Entries, current: Entries): Entries {
    if prune then current else saved + current
  }

  // ---------- The saved entries ----------

  ghost predicate KeyFree(todo: seq<DiffEntry>, k: string) {
    forall e :: e in todo ==> e.key != k
  }

  ghost predicate SameAt<K, V>(a: map<K, V>, b: map<K, V>, k: K) {
    (k in a <==> k in b) && (k in a ==> a[k] == b[k])
  }

  lemma {:induction false} RecordKeepsOthers(prune: bool, todo: seq<DiffEntry>, entries: Entries, k: string)
    requires KeyFree(todo, k)
    ensures SameAt(RecordAll(prune, todo, entries), entries, k)
  {
    if todo != [] {
      assert todo[0] in todo;
      RecordKeepsOthers(prune, todo[1..], Record(prune, todo[0], entries), k);
    }
  }

  lemma {:induction false} RecordSets(prune: bool, todo: seq<DiffEntry>, entries: Entries, e: DiffEntry)
    requires DistinctKeys(todo) && e in todo
    ensures e.diffType == Removed && !prune ==> SameAt(RecordAll(prune, todo, entries), entries, e.key)
    ensures e.diffType == Removed && prune ==> e.key !in RecordAll(prune, todo, entries)
    ensures e.diffType != Removed ==> e.key in RecordAll(prune, todo, entries) && RecordAll(prune, todo, entries)[e.key] == e.newHash
  {
    var next := Record(prune, todo[0], entries);
    if todo[0] == e {
      RecordKeepsOthers(prune, todo[1..], next, e.key);
    } else {
      assert todo == [todo[0]] + todo[1..];
      assert e in todo[1..];
      var j :| 0 <= j < |todo[1..]| && todo[1..][j] == e;
      assert todo[j + 1].key != todo[0].key;
      RecordSets(prune, todo[1..], next, e);
    }
  }

  lemma RecordAt(prune: bool, saved: Entries, current: Entries, always: set<string>, k: string)
    ensures SameAt(RecordAll(prune, Diff(saved, current, always), saved), Target(prune, saved, current), k)
  {
    var d := Diff(saved, current, always);
    DiffIsExact(saved, current, always, d);
    DiffKeysDistinct(saved, current, always);
    hide Diff, RecordAll, DistinctKeys, Sorted;
    var c := Classify(saved, current, always, k);
    if c.Some? {
      assert c.value in d;
      RecordSets(prune, d, saved, c.value);
    } else {
      assert KeyFree(d, k);
      RecordKeepsOthers(prune, d, saved, k);
    }
  }

  /** Carrying out a whole diff turns the saved entries into the build, or adds the build to them. */
  lemma RecordingReachesTarget(prune: bool, saved: Entries, current: Entries, always: set<string>)
    ensures RecordAll(prune, Diff(saved, current, always), saved) == Target(prune, saved, current)
  {
    var r, t := RecordAll(prune, Diff(saved, current, always), saved), Target(prune, saved, current);
    forall k: string ensures SameAt(r, t, k) {
      RecordAt(prune, saved, current, always, k);
    }
    hide RecordAll, Diff, Target;
    assert forall k :: k in r ==> SameAt(r, t, k);
    assert forall k :: k in t ==> SameAt(r, t, k);
  }

  // ---------- A run to success ----------

  /** Every call of the diff can be made and works out, and so does everything after it. */
  predicate Smooth(opts: Options, job: Job, o: Outcome, todo: seq<DiffEntry>) {
    && (forall e :: e in todo ==>
          var c := CallOf(job, opts.prune, e); c.Ok? && (c.value.Some? ==> e.key !in o.failing))
    && o.readyUp && (opts.atomic || o.saveUp) && o.testsPass
  }

  /** The world with the diff carried out and the entries saved. */
  function Carried(opts: Options, job: Job, todo: seq<DiffEntry>, entries: Entries, w: World): World {
    var saved := RecordAll(opts.prune, todo, entries);
    var after := w.(cluster := LandAll(CallsOf(job, opts.prune, todo), w.cluster));
    if opts.atomic then after.(pending := w.pending[job.name := saved])
    else after.(store := w.store[job.name := saved])
  }

  /** `a` and `b` differ on slots of `s` only. */
  ghost predicate AgreeOutside(a: Cluster, b: Cluster, s: set<Slot>) {
    forall x :: x !in s ==> SameAt(a, b, x)
  }

  function SlotsOf(calls: seq<Call>): set<Slot> {
    set c | c in calls :: c.slot
  }

  /** A run of a diff succeeds exactly when everything works out, and then has carried it out. */
  lemma {:induction false} SyncingEnds(opts: Options, job: Job, o: Outcome, todo: seq<DiffEntry>, entries: Entries, w: World)
    ensures var r := Finish(opts, job, o, Syncing(todo, entries), w);
            && (r.0 == Succeeded <==> Smooth(opts, job, o, todo))
            && (r.0 == Succeeded ==> r.1 == Carried(opts, job, todo, entries, w))
    decreases |todo|
  {
    if todo == [] {
      SavingEnds(opts, job, o, entries, w);
    } else {
      var next := SyncStep(opts, job, o, todo, entries, w);
      assert Step(opts, job, o, Syncing(todo, entries), w) == next;
      assert Finish(opts, job, o, Syncing(todo, entries), w) == Finish(opts, job, o, next.0, next.1);
      SmoothStep(opts, job, o, todo);
      if next.0 != Failed {
        SyncingEnds(opts, job, o, todo[1..], Record(opts.prune, todo[0], entries), next.1);
        CarriedStep(opts, job, o, todo, entries, w);
      }
    }
  }

  lemma SavingEnds(opts: Options, job: Job, o: Outcome, entries: Entries, w: World)
    ensures var r := Finish(opts, job, o, Syncing([], entries), w);
            && (r.0 == Succeeded <==> Smooth(opts, job, o, []))
            && (r.0 == Succeeded ==> r.1 == Carried(opts, job, [], entries, w))
            && (r.0 == Failed ==> r.1 == w || r.1 == Carried(opts, job, [], entries, w))
  {
    var p := Syncing([], entries);
    var n1 := Step(opts, job, o, p, w);
    assert Finish(opts, job, o, p, w) == Finish(opts, job, o, n1.0, n1.1);
    if o.readyUp {
      var n2 := Step(opts, job, o, Saving(entries), w);
      assert Finish(opts, job, o, Saving(entries), w) == Finish(opts, job, o, n2.0, n2.1);
      if n2.0 == Testing {
        var n3 := Step(opts, job, o, Testing, n2.1);
        assert Finish(opts, job, o, Testing, n2.1) == Finish(opts, job, o, n3.0, n3.1);
      }
    }
  }

  lemma SmoothStep(opts: Options, job: Job, o: Outcome, todo: seq<DiffEntry>)
    requires todo != []
    ensures Smooth(opts, job, o, todo) <==>
            Smooth(opts, job, o, todo[1..]) &&
            var c := CallOf(job, opts.prune, todo[0]); c.Ok? && (c.value.Some? ==> todo[0].key !in o.failing)
  {
    hide CallOf;
    assert todo == [todo[0]] + todo[1..];
  }

  lemma CarriedStep(opts: Options, job: Job, o: Outcome, todo: seq<DiffEntry>, entries: Entries, w: World)
    requires todo != [] && SyncStep(opts, job, o, todo, entries, w).0 != Failed
    ensures var next := SyncStep(opts, job, o, todo, entries, w).1;
            Carried(opts, job, todo[1..], Record(opts.prune, todo[0], entries), next) == Carried(opts, job, todo, entries, w)
  {
    hide CallOf, Record;
  }

  /** A failed run has not touched the saves and only slots of the diff, or it failed at its tests. */
  lemma {:induction false} SyncingFails(opts: Options, job: Job, o: Outcome, todo: seq<DiffEntry>, entries: Entries, w: World)
    requires Finish(opts, job, o, Syncing(todo, entries), w).0 == Failed
    ensures var after := Finish(opts, job, o, Syncing(todo, entries), w).1;
            || after == Carried(opts, job, todo, entries, w)
            || (after == w.(cluster := after.cluster)
                && AgreeOutside(after.cluster, w.cluster, SlotsOf(CallsOf(job, opts.prune, todo))))
    decreases |todo|
  {
    if todo == [] {
      SavingEnds(opts, job, o, entries, w);
    } else {
      var next := SyncStep(opts, job, o, todo, entries, w);
      assert Step(opts, job, o, Syncing(todo, entries), w) == next;
      var end := Finish(opts, job, o, next.0, next.1);
      assert Finish(opts, job, o, Syncing(todo, entries), w) == end;
      FirstCallAgrees(opts, job, o, todo, entries, w);
      if next.0 != Failed {
        SyncingFails(opts, job, o, todo[1..], Record(opts.prune, todo[0], entries), next.1);
        CarriedStep(opts, job, o, todo, entries, w);
        RestSlots(job, opts.prune, todo);
      }
    }
  }

  lemma RestSlots(job: Job, prune: bool, todo: seq<DiffEntry>)
    requires todo != []
    ensures SlotsOf(CallsOf(job, prune, todo[1..])) <= SlotsOf(CallsOf(job, prune, todo))
  {
    hide CallOf;
  }

  lemma AttemptAgrees(o: Outcome, key: string, c: Call, cluster: Cluster, s: set<Slot>)
    requires c.slot in s
    ensures AgreeOutside(Attempt(o, key, c, cluster), cluster, s)
  {
  }

  lemma FirstSlot(job: Job, prune: bool, todo: seq<DiffEntry>, c: Call)
    requires todo != [] && CallOf(job, prune, todo[0]) == Ok(Some(c))
    ensures c.slot in SlotsOf(CallsOf(job, prune, todo))
  {
    hide CallOf;
    assert CallsOf(job, prune, todo)[0] == c;
    assert c in CallsOf(job, prune, todo);
  }

  lemma FirstCallAgrees(opts: Options, job: Job, o: Outcome, todo: seq<DiffEntry>, entries: Entries, w: World)
    requires todo != []
    ensures var next := SyncStep(opts, job, o, todo, entries, w).1;
            next == w.(cluster := next.cluster)
            && AgreeOutside(next.cluster, w.cluster, SlotsOf(CallsOf(job, opts.prune, todo)))
  {
    hide CallOf, CallsOf, SlotsOf, Attempt, Record;
    var c := CallOf(job, opts.prune, todo[0]);
    if c.Ok? && c.value.Some? {
      FirstSlot(job, opts.prune, todo, c.value.value);
      AttemptAgrees(o, todo[0].key, c.value.value, w.cluster, SlotsOf(CallsOf(job, opts.prune, todo)));
    }
  }

  // ---------- The whole run of a manifest ----------

  ghost function JobDiff(job: Job, w: World): seq<DiffEntry> {
    Diff(Stored(w, job.name), Current(job), AlwaysKeys(job))
  }

  /** A successful sync has made exactly the calls of the diff and reached the target entries. */
  lemma RunSucceeds(opts: Options, job: Job, o: Outcome, w: World)
    requires opts.sync && job.name != ""
    ensures var r := RunJob(opts, job, o, w); var d := JobDiff(job, w);
            && (r.0 == Succeeded <==>
                  o.buildUp && o.readUp && if d == [] then o.testsPass else Smooth(opts, job, o, d))
            && (r.0 == Succeeded ==> r.1 == if d == [] then w else Carried(opts, job, d, Stored(w, job.name), w))
  {
    var d := JobDiff(job, w);
    var p := Begin(opts, job, o, w);
    assert RunJob(opts, job, o, w) == Finish(opts, job, o, p, w);
    hide Diff, Current, AlwaysKeys;
    if p == Testing {
      var n := Step(opts, job, o, Testing, w);
      assert Finish(opts, job, o, Testing, w) == Finish(opts, job, o, n.0, w);
    } else if p.Syncing? {
      SyncingEnds(opts, job, o, d, Stored(w, job.name), w);
    }
  }

  lemma RunFails(opts: Options, job: Job, o: Outcome, w: World)
    requires opts.sync && job.name != "" && RunJob(opts, job, o, w).0 == Failed
    ensures var after := RunJob(opts, job, o, w).1; var d := JobDiff(job, w);
            || (d != [] && after == Carried(opts, job, d, Stored(w, job.name), w))
            || (after == w.(cluster := after.cluster)
                && AgreeOutside(after.cluster, w.cluster, SlotsOf(CallsOf(job, opts.prune, d))))
  {
    var d := JobDiff(job, w);
    var p := Begin(opts, job, o, w);
    assert RunJob(opts, job, o, w) == Finish(opts, job, o, p, w);
    hide Diff, Current, AlwaysKeys, CallOf, CallsOf;
    if p == Testing {
      var n := Step(opts, job, o, Testing, w);
      assert Finish(opts, job, o, Testing, w) == Finish(opts, job, o, n.0, w);
    } else if p.Syncing? {
      SyncingFails(opts, job, o, d, Stored(w, job.name), w);
    }
  }

  /** The entries stored for the manifest after a successful run that saves as it goes. */
  lemma RunStoresTarget(opts: Options, job: Job, o: Outcome, w: World)
    requires opts.sync && job.name != "" && !opts.atomic && RunJob(opts, job, o, w).0 == Succeeded
    ensures Stored(RunJob(opts, job, o, w).1, job.name) == Target(opts.prune, Stored(w, job.name), Current(job))
  {
    hide Diff, Current, RunJob, RecordAll, LandAll, CallsOf, Smooth;
    var saved := Stored(w, job.name);
    RunSucceeds(opts, job, o, w);
    assert AlwaysKeys(job) <= Current(job).Keys;
    if JobDiff(job, w) == [] {
      EmptyDiff(saved, Current(job), AlwaysKeys(job));
      hide *;
      assert Target(opts.prune, saved, saved) == saved by { assert saved + saved == saved; }
    } else {
      RecordingReachesTarget(opts.prune, saved, Current(job), AlwaysKeys(job));
    }
  }

  /** A second sync of an unchanged build writes nothing and saves nothing, GenesisSecrets apart. */
  lemma UnchangedBuildIsANoOp(opts: Options, job: Job, o: Outcome, again: Outcome, w: World)
    requires opts.sync && opts.prune && !opts.atomic && job.name != "" && !job.alwaysSync
    requires RunJob(opts, job, o, w).0 == Succeeded
    ensures var after := RunJob(opts, job, o, w).1;
            JobDiff(job, after) == [] && RunJob(opts, job, again, after).1 == after
  {
    RunStoresTarget(opts, job, o, w);
    var after := RunJob(opts, job, o, w).1;
    EmptyDiff(Stored(after, job.name), Current(job), AlwaysKeys(job));
    assert JobDiff(job, after) == [];
    hide Diff, Current, Target, Stored;
    var r := RunJob(opts, job, again, after);
    var p := Begin(opts, job, again, after);
    assert r == Finish(opts, job, again, p, after);
    if p == Testing {
      var n := Step(opts, job, again, Testing, after);
      assert Finish(opts, job, again, Testing, after) == Finish(opts, job, again, n.0, after);
    }
  }

  // ---------- Plain apply ----------

  lemma {:induction false} PuttingEnds(opts: Options, job: Job, o: Outcome, rest: seq<Object>, w: World)
    requires job.name != "" && Finish(opts, job, o, Putting(rest), w).0 == Succeeded
    ensures Finish(opts, job, o, Putting(rest), w).1.store == w.store[job.name := Current(job)]
    decreases |rest|
  {
    hide EntriesOf, Attempt;
    var next := Step(opts, job, o, Putting(rest), w);
    assert Finish(opts, job, o, Putting(rest), w) == Finish(opts, job, o, next.0, next.1);
    if rest != [] {
      if next.0.Putting? { PuttingEnds(opts, job, o, rest[1..], next.1); }
    } else {
      var n2 := Step(opts, job, o, PlainTesting, w);
      assert Finish(opts, job, o, PlainTesting, w) == Finish(opts, job, o, n2.0, n2.1);
      if n2.0 == PlainSaving {
        var n3 := Step(opts, job, o, PlainSaving, w);
        assert Finish(opts, job, o, PlainSaving, w) == Finish(opts, job, o, n3.0, n3.1);
      }
    }
  }

  /** An apply without sync records the build alone: keys saved before and not built now are
      forgotten, although nothing has deleted their resources. */
  lemma PlainApplyForgets(opts: Options, job: Job, o: Outcome, w: World)
    requires !opts.sync && job.name != "" && RunJob(opts, job, o, w).0 == Succeeded
    ensures Stored(RunJob(opts, job, o, w).1, job.name) == Current(job)
  {
    hide EntriesOf;
    var p := Begin(opts, job, o, w);
    assert RunJob(opts, job, o, w) == Finish(opts, job, o, p, w);
    PuttingEnds(opts, job, o, job.objects, w);
  }
}
