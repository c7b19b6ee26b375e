// Histories in which syncs fail: which resources the saved state then no longer knows about.
module SyncFailures {
  import opened Common
  import opened StateKeys
  import opened StateDiff
  import opened SyncModel
  import opened SyncEffects
  import opened SyncHistory
  import opened SyncLedger

  // ---------- What an attempt leaves ----------

  /** The entries whose calls took effect when an attempt stops at its first failing one. */
  function Landed(job: Job, prune: bool, o: Outcome, todo: seq<DiffEntry>): seq<DiffEntry> {
    if todo == [] then []
    else
      match CallOf(job, prune, todo[0])
      case Err(_) => []
      case Ok(None) => Landed(job, prune, o, todo[1..])
      case Ok(Some(_)) =>
        if todo[0].key !in o.failing then [todo[0]] + Landed(job, prune, o, todo[1..])
        else if todo[0].key in o.landed then [todo[0]]
        else []
  }

  /** The attempt gets as far as saving: it would succeed if its tests passed. */
  ghost predicate Saves(opts: Options, job: Job, o: Outcome, w: World) {
    RunJob(opts, job, o.(testsPass := true), w).0 == Succeeded
  }

  ghost function LandedOf(opts: Options, job: Job, o: Outcome, w: World): seq<DiffEntry> {
    if o.buildUp && o.readUp then Landed(job, opts.prune, o, JobDiff(job, w)) else []
  }

  lemma {:induction false} SyncingLeaves(opts: Options, job: Job, o: Outcome, todo: seq<DiffEntry>, entries: Entries, w: World)
    ensures Finish(opts, job, o, Syncing(todo, entries), w).1 ==
            if Smooth(opts, job, o.(testsPass := true), todo) then Carried(opts, job, todo, entries, w)
            else w.(cluster := LandAll(CallsOf(job, opts.prune, Landed(job, opts.prune, o, todo)), w.cluster))
    decreases |todo|
  {
    if todo == [] {
      NothingLeftToSync(opts, job, o, entries, w);
    } else {
      var next := SyncStep(opts, job, o, todo, entries, w);
      assert Step(opts, job, o, Syncing(todo, entries), w) == next;
      assert Finish(opts, job, o, Syncing(todo, entries), w) == Finish(opts, job, o, next.0, next.1);
      SmoothStep(opts, job, o.(testsPass := true), todo);
      LandedStep(opts, job, o, todo, entries, w);
      FirstEntryFails(opts, job, o, todo, entries, w);
      if next.0 != Failed {
        SyncingLeaves(opts, job, o, todo[1..], Record(opts.prune, todo[0], entries), next.1);
        CarriedStep(opts, job, o, todo, entries, w);
      }
      hide CallOf, CallsOf, LandAll, Landed, Smooth, Carried, Record, Step;
    }
  }

  lemma NothingLeftToSync(opts: Options, job: Job, o: Outcome, entries: Entries, w: World)
    ensures Finish(opts, job, o, Syncing([], entries), w).1 ==
            if Smooth(opts, job, o.(testsPass := true), []) then Carried(opts, job, [], entries, w) else w
  {
    var p := Syncing([], entries);
    var n1 := Step(opts, job, o, p, w);
    assert Finish(opts, job, o, p, w) == Finish(opts, job, o, n1.0, n1.1);
    if o.readyUp {
      var n2 := Step(opts, job, o, Saving(entries), w);
      assert Finish(opts, job, o, Saving(entries), w) == Finish(opts, job, o, n2.0, n2.1);
      if n2.0 == Testing {
        var n3 := Step(opts, job, o, Testing, n2.1);
        assert Finish(opts, job, o, Testing, n2.1) == Finish(opts, job, o, n3.0, n3.1);
      }
    }
  }

  lemma FirstEntryFails(opts: Options, job: Job, o: Outcome, todo: seq<DiffEntry>, entries: Entries, w: World)
    requires todo != []
    ensures SyncStep(opts, job, o, todo, entries, w).0 == Failed <==>
            !(var c := CallOf(job, opts.prune, todo[0]); c.Ok? && (c.value.Some? ==> todo[0].key !in o.failing))
  {
    hide CallOf, Record, Attempt;
  }

  /** What the first entry contributes to the calls that took effect. */
  lemma LandedStep(opts: Options, job: Job, o: Outcome, todo: seq<DiffEntry>, entries: Entries, w: World)
    requires todo != []
    ensures var next := SyncStep(opts, job, o, todo, entries, w);
            && next.1 == w.(cluster := next.1.cluster)
            && LandAll(CallsOf(job, opts.prune, Landed(job, opts.prune, o, todo)), w.cluster) ==
               (if next.0 == Failed then next.1.cluster
                else LandAll(CallsOf(job, opts.prune, Landed(job, opts.prune, o, todo[1..])), next.1.cluster))
  {
    var c := CallOf(job, opts.prune, todo[0]);
    if c.Ok? && c.value.Some? {
      LandedFirst(job, opts.prune, o, todo, c.value.value, w.cluster);
      hide CallOf, CallsOf, LandAll, Land, Landed, Record;
    } else {
      hide CallOf, Record;
    }
  }

  lemma LandedFirst(job: Job, prune: bool, o: Outcome, todo: seq<DiffEntry>, c: Call, cluster: Cluster)
    requires todo != [] && CallOf(job, prune, todo[0]) == Ok(Some(c))
    ensures LandAll(CallsOf(job, prune, Landed(job, prune, o, todo)), cluster) ==
            if todo[0].key !in o.failing then LandAll(CallsOf(job, prune, Landed(job, prune, o, todo[1..])), Land(c, cluster))
            else if todo[0].key in o.landed then Land(c, cluster)
            else cluster
  {
    var rest := if todo[0].key !in o.failing then Landed(job, prune, o, todo[1..]) else [];
    CallsOfOne(job, prune, todo[0], rest, c);
    LandOne(c, CallsOf(job, prune, rest), cluster);
    hide CallOf, Land;
    assert [todo[0]] + [] == [todo[0]];
  }

  lemma CallsOfOne(job: Job, prune: bool, e: DiffEntry, rest: seq<DiffEntry>, c: Call)
    requires CallOf(job, prune, e) == Ok(Some(c))
    ensures CallsOf(job, prune, [e] + rest) == [c] + CallsOf(job, prune, rest)
  {
    hide CallOf;
    assert ([e] + rest)[1..] == rest;
  }

  lemma LandOne(c: Call, calls: seq<Call>, cluster: Cluster)
    ensures LandAll([c] + calls, cluster) == LandAll(calls, Land(c, cluster))
  {
    assert ([c] + calls)[1..] == calls;
  }

  /** An attempt that gets as far as saving leaves what a successful one leaves; any other leaves the
      saved state alone and makes a first part of its calls. */
  lemma AttemptLeaves(opts: Options, job: Job, o: Outcome, w: World)
    requires opts.sync && !opts.atomic && job.name != ""
    ensures var after := RunJob(opts, job, o, w).1;
            if Saves(opts, job, o, w) then after == RunJob(opts, job, o.(testsPass := true), w).1
            else after == w.(cluster := LandAll(CallsOf(job, opts.prune, LandedOf(opts, job, o, w)), w.cluster))
  {
    var d, o' := JobDiff(job, w), o.(testsPass := true);
    RunSucceeds(opts, job, o', w);
    var p := Begin(opts, job, o, w);
    assert RunJob(opts, job, o, w) == Finish(opts, job, o, p, w);
    hide Diff, Current, AlwaysKeys, Smooth, Carried;
    if p == Testing {
      var n := Step(opts, job, o, Testing, w);
      assert Finish(opts, job, o, Testing, w) == Finish(opts, job, o, n.0, w);
    } else if p.Syncing? {
      SyncingLeaves(opts, job, o, d, Stored(w, job.name), w);
    }
  }

  lemma {:induction false} LandedIsPart(job: Job, prune: bool, o: Outcome, todo: seq<DiffEntry>)
    requires Sorted(todo)
    ensures Sorted(Landed(job, prune, o, todo)) && forall e :: e in Landed(job, prune, o, todo) ==> e in todo
  {
    hide CallOf, Less;
    if todo != [] {
      assert todo == [todo[0]] + todo[1..];
      LandedIsPart(job, prune, o, todo[1..]);
      forall x | x in todo[1..] ensures Less(todo[0], x) {
        var j :| 0 <= j < |todo[1..]| && todo[1..][j] == x;
        assert todo[j + 1] == x;
      }
    }
  }

  // ---------- Histories with failed attempts ----------

  ghost predicate SavesAt(name: string, r: Run, before: World) {
    Saves(OptionsOf(r), JobOf(name, r), r.outcome, before)
  }

  /** The keys an attempt put into the cluster without getting as far as saving. */
  ghost function PutBy(name: string, r: Run, before: World): set<string> {
    set e | e in LandedOf(OptionsOf(r), JobOf(name, r), r.outcome, before) && e.diffType != Removed :: e.key
  }

  /** Every key that has been put into the cluster or recorded at some time. */
  ghost function Applied(name: string, runs: seq<Run>, w: World): set<string> {
    if runs == [] then {}
    else
      var front, last := runs[..|runs| - 1], runs[|runs| - 1];
      var before := After(name, front, w);
      Applied(name, front, w) + if SavesAt(name, last, before) then Build(name, last).Keys else PutBy(name, last, before)
  }

  /** The keys that are in the cluster and that no saved state knows of. */
  ghost function Forgotten(name: string, runs: seq<Run>, w: World): set<string> {
    if runs == [] then {}
    else
      var front, last := runs[..|runs| - 1], runs[|runs| - 1];
      var before := After(name, front, w);
      if SavesAt(name, last, before) then Forgotten(name, front, w) - Build(name, last).Keys
      else Forgotten(name, front, w) + (PutBy(name, last, before) - Stored(before, name).Keys)
  }

  /** Any attempts, from an empty manifest, whose keys all stand for different resources. */
  ghost predicate Attempts(name: string, runs: seq<Run>, w: World) {
    && name != "" && Stored(w, name) == map[]
    && (forall r :: r in runs ==> Printable(JobOf(name, r)))
    && OneKeyPerSlot(Seen(name, runs))
  }

  /** What the cluster holds for a key that is not recorded. */
  ghost predicate Unrecorded(applied: set<string>, forgotten: set<string>, w0: World, w: World, k: string) {
    && SlotOfKey(k).Some?
    && var s := SlotOfKey(k).value;
       if k in forgotten then s in w.cluster
       else if k in applied then s !in w.cluster
       else SameAt(w.cluster, w0.cluster, s)
  }

  ghost predicate Accounted(name: string, seen: set<string>, applied: set<string>, forgotten: set<string>, w0: World, w: World) {
    && Stored(w, name).Keys <= applied <= seen
    && forgotten <= applied && forgotten !! Stored(w, name).Keys
    && forall k :: k in seen && k !in Stored(w, name) ==> Unrecorded(applied, forgotten, w0, w, k)
  }

  /** An attempt that saves: what it drops is deleted, what it builds is recorded. */
  lemma SavedKeyAt(name: string, r: Run, seen: set<string>, applied: set<string>, forgotten: set<string>, w0: World, w: World, k: string)
    requires name != "" && Printable(JobOf(name, r)) && SavesAt(name, r, w) && Build(name, r).Keys <= seen
    requires OneKeyPerSlot(seen) && Accounted(name, seen, applied, forgotten, w0, w)
    requires k in seen && k !in Target(r.prune, Stored(w, name), Build(name, r)) && SlotOfKey(k).Some?
    ensures Unrecorded(applied + Build(name, r).Keys, forgotten - Build(name, r).Keys, w0, RunOne(name, r, w).1, k)
  {
    var job, saved := JobOf(name, r), Stored(w, name);
    AttemptLeaves(OptionsOf(r), job, r.outcome, w);
    RunLands(OptionsOf(r), job, r.outcome.(testsPass := true), w);
    hide RunJob, Diff, EntriesOf, LandAll, CallsOf, SlotOfKey, OneKeyPerSlot;
    if k in saved {
      DroppedIsDeleted(job, saved, w.cluster, seen, k);
    } else {
      assert Unrecorded(applied, forgotten, w0, w, k);
      NotInvolved(job, r.prune, saved, w.cluster, seen, k);
    }
  }

  lemma SavingKeepsAccount(name: string, r: Run, seen: set<string>, applied: set<string>, forgotten: set<string>, w0: World, w: World)
    requires name != "" && Printable(JobOf(name, r)) && SavesAt(name, r, w) && Build(name, r).Keys <= seen
    requires OneKeyPerSlot(seen) && AllHaveSlots(seen) && Accounted(name, seen, applied, forgotten, w0, w)
    ensures Accounted(name, seen, applied + Build(name, r).Keys, forgotten - Build(name, r).Keys, w0, RunOne(name, r, w).1)
  {
    var after, saved := RunOne(name, r, w).1, Stored(w, name);
    assert Stored(after, name) == Target(r.prune, saved, Build(name, r)) by {
      AttemptLeaves(OptionsOf(r), JobOf(name, r), r.outcome, w);
      RunLands(OptionsOf(r), JobOf(name, r), r.outcome.(testsPass := true), w);
    }
    hide RunOne, Build, SlotOfKey, OneKeyPerSlot, Unrecorded, SavesAt, Stored, JobOf;
    forall k | k in seen && k !in Stored(after, name)
      ensures Unrecorded(applied + Build(name, r).Keys, forgotten - Build(name, r).Keys, w0, after, k)
    {
      SavedKeyAt(name, r, seen, applied, forgotten, w0, w, k);
    }
  }

  lemma OnlyThisKey(job: Job, prune: bool, saved: Entries, seen: set<string>, e: DiffEntry, s: Slot, k: string)
    requires Printable(job) && OneKeyPerSlot(seen) && saved.Keys + Current(job).Keys <= seen && k in seen && SlotOfKey(k) == Some(s)
    requires e in Diff(saved, Current(job), AlwaysKeys(job)) && Touches(prune, e, s)
    ensures e.key == k && Classify(saved, Current(job), AlwaysKeys(job), k) == Some(e)
  {
    DiffEntryOf(saved, job, e);
    hide Diff, EntriesOf, SlotOfKey;
  }

  lemma DroppedIsDeleted(job: Job, saved: Entries, cluster: Cluster, seen: set<string>, k: string)
    requires Printable(job) && OneKeyPerSlot(seen) && saved.Keys + Current(job).Keys <= seen
    requires k in saved && k !in Current(job) && SlotOfKey(k).Some?
    ensures SlotOfKey(k).value !in LandAll(CallsOf(job, true, Diff(saved, Current(job), AlwaysKeys(job))), cluster)
  {
    var d, s := Diff(saved, Current(job), AlwaysKeys(job)), SlotOfKey(k).value;
    SlotAfter(job, true, saved, cluster, s);
    DiffIsSorted(saved, job);
    LastTouchIsLast(true, d, s);
    ListedIsInDiff(job, saved, k);
    var x := Classify(saved, Current(job), AlwaysKeys(job), k).value;
    hide Diff, EntriesOf, SlotOfKey, LastTouch, LandAll, CallsOf, Sorted, Less;
    assert Touches(true, x, s);
    OnlyThisKey(job, true, saved, seen, LastTouch(true, d, s).value, s, k);
  }

  lemma NotInvolved(job: Job, prune: bool, saved: Entries, cluster: Cluster, seen: set<string>, k: string)
    requires Printable(job) && OneKeyPerSlot(seen) && saved.Keys + Current(job).Keys <= seen
    requires k in seen && k !in saved && k !in Current(job) && SlotOfKey(k).Some?
    ensures SameAt(LandAll(CallsOf(job, prune, Diff(saved, Current(job), AlwaysKeys(job))), cluster), cluster, SlotOfKey(k).value)
  {
    var d, s := Diff(saved, Current(job), AlwaysKeys(job)), SlotOfKey(k).value;
    SlotAfter(job, prune, saved, cluster, s);
    DiffIsSorted(saved, job);
    LastTouchIsLast(prune, d, s);
    hide Diff, EntriesOf, SlotOfKey, LastTouch, LandAll, CallsOf, Sorted, Less;
    if LastTouch(prune, d, s).Some? {
      OnlyThisKey(job, prune, saved, seen, LastTouch(prune, d, s).value, s, k);
    }
  }

  /** A failed attempt puts an unrecorded key into the cluster exactly when its call took effect. */
  lemma FailedAttemptAt(name: string, r: Run, seen: set<string>, w: World, k: string)
    requires name != "" && Printable(JobOf(name, r)) && !SavesAt(name, r, w)
    requires OneKeyPerSlot(seen) && Stored(w, name).Keys + Build(name, r).Keys <= seen
    requires k in seen && k !in Stored(w, name) && SlotOfKey(k).Some?
    ensures var after, s := RunOne(name, r, w).1, SlotOfKey(k).value;
            if k in PutBy(name, r, w) then s in after.cluster else SameAt(after.cluster, w.cluster, s)
  {
    var opts, job, o := OptionsOf(r), JobOf(name, r), r.outcome;
    var d, part, s := JobDiff(job, w), LandedOf(opts, job, o, w), SlotOfKey(k).value;
    AttemptLeaves(opts, job, o, w);
    DiffIsSorted(Stored(w, name), job);
    LandedIsPart(job, opts.prune, o, d);
    hide RunJob, Diff, EntriesOf, LandAll, CallsOf, SlotOfKey, Landed, OneKeyPerSlot, Less, Touches, CallsOn;
    forall x | x in part && CallsOn(job, opts.prune, x, s)
      ensures x.diffType != Removed && x.key == k && Classify(Stored(w, name), Current(job), AlwaysKeys(job), k) == Some(x)
    {
      TouchesIsCallsOn(Stored(w, name), job, opts.prune, x, s);
      OnlyThisKey(job, opts.prune, Stored(w, name), seen, x, s, k);
    }
    if k in PutBy(name, r, w) {
      var e :| e in part && e.diffType != Removed && e.key == k;
      PutCallsOn(Stored(w, name), job, opts.prune, e, s);
      var c := DecidingCall(Stored(w, name), job, opts.prune, e, s);
      LastCallStays(job, opts.prune, part, w.cluster, e, c);
    } else {
      Untouched(job, opts.prune, part, w.cluster, s);
    }
  }

  lemma PutCallsOn(saved: Entries, job: Job, prune: bool, e: DiffEntry, s: Slot)
    requires Printable(job) && e in Diff(saved, Current(job), AlwaysKeys(job)) && e.diffType != Removed && SlotOfKey(e.key) == Some(s)
    ensures CallsOn(job, prune, e, s)
  {
    TouchesIsCallsOn(saved, job, prune, e, s);
  }

  lemma FailedKeyAt(name: string, r: Run, seen: set<string>, applied: set<string>, forgotten: set<string>, w0: World, w: World, k: string)
    requires name != "" && Printable(JobOf(name, r)) && !SavesAt(name, r, w) && Build(name, r).Keys <= seen
    requires OneKeyPerSlot(seen) && Accounted(name, seen, applied, forgotten, w0, w)
    requires k in seen && k !in Stored(w, name)
    ensures Unrecorded(applied + PutBy(name, r, w), forgotten + (PutBy(name, r, w) - Stored(w, name).Keys), w0, RunOne(name, r, w).1, k)
  {
    assert Unrecorded(applied, forgotten, w0, w, k);
    hide RunOne, Build, SlotOfKey, OneKeyPerSlot, SavesAt, Stored, JobOf, PutBy;
    FailedAttemptAt(name, r, seen, w, k);
  }

  lemma FailingKeepsAccount(name: string, r: Run, seen: set<string>, applied: set<string>, forgotten: set<string>, w0: World, w: World)
    requires name != "" && Printable(JobOf(name, r)) && !SavesAt(name, r, w) && Build(name, r).Keys <= seen
    requires OneKeyPerSlot(seen) && Accounted(name, seen, applied, forgotten, w0, w)
    ensures Accounted(name, seen, applied + PutBy(name, r, w), forgotten + (PutBy(name, r, w) - Stored(w, name).Keys), w0, RunOne(name, r, w).1)
  {
    var after := RunOne(name, r, w).1;
    UnsavedKeepsState(name, r, w);
    PutIsBuilt(name, r, w);
    hide RunOne, Build, SlotOfKey, OneKeyPerSlot, Unrecorded, SavesAt, Stored, JobOf, PutBy;
    forall k | k in seen && k !in Stored(after, name)
      ensures Unrecorded(applied + PutBy(name, r, w), forgotten + (PutBy(name, r, w) - Stored(w, name).Keys), w0, after, k)
    {
      FailedKeyAt(name, r, seen, applied, forgotten, w0, w, k);
    }
  }

  lemma PutIsBuilt(name: string, r: Run, w: World)
    ensures PutBy(name, r, w) <= Build(name, r).Keys
  {
    var job := JobOf(name, r);
    DiffIsSorted(Stored(w, name), job);
    LandedIsPart(job, r.prune, r.outcome, JobDiff(job, w));
    forall e | e in JobDiff(job, w) ensures e.diffType != Removed ==> e.key in Build(name, r) {
      DiffEntryOf(Stored(w, name), job, e);
    }
    hide Diff, EntriesOf, Landed;
  }

  /** After any attempts, successful or not, the cluster holds of the unrecorded keys exactly the
      forgotten ones, apart from resources that were there before and were never applied. */
  lemma {:induction false} ForgottenIsExact(name: string, runs: seq<Run>, w: World, seen: set<string>)
    requires Attempts(name, runs, w) && Seen(name, runs) <= seen && OneKeyPerSlot(seen) && AllHaveSlots(seen)
    ensures Accounted(name, seen, Applied(name, runs, w), Forgotten(name, runs, w), w, After(name, runs, w))
  {
    if runs != [] {
      var front, last := runs[..|runs| - 1], runs[|runs| - 1];
      assert last in runs && forall r :: r in front ==> r in runs;
      assert Seen(name, runs) == Seen(name, front) + Build(name, last).Keys;
      var before := After(name, front, w);
      assert After(name, runs, w) == RunOne(name, last, before).1;
      assert OneKeyPerSlot(Seen(name, front));
      ForgottenIsExact(name, front, w, seen);
      hide After, Seen, Build, SlotOfKey, Accounted, RunOne, SavesAt, PutBy, OneKeyPerSlot;
      if SavesAt(name, last, before) {
        SavingKeepsAccount(name, last, seen, Applied(name, front, w), Forgotten(name, front, w), w, before);
      } else {
        FailingKeepsAccount(name, last, seen, Applied(name, front, w), Forgotten(name, front, w), w, before);
      }
    }
  }

  ghost predicate AllHaveSlots(keys: set<string>) {
    forall k :: k in keys ==> SlotOfKey(k).Some?
  }

  lemma {:induction false} SeenHaveSlots(name: string, runs: seq<Run>)
    requires forall r :: r in runs ==> Printable(JobOf(name, r))
    ensures AllHaveSlots(Seen(name, runs))
  {
    hide SlotOfKey, EntriesOf;
    if runs != [] {
      var last := runs[|runs| - 1];
      assert last in runs && forall r :: r in runs[..|runs| - 1] ==> r in runs;
      SeenHaveSlots(name, runs[..|runs| - 1]);
      forall k | k in Build(name, last) ensures SlotOfKey(k).Some? {
        BuildKeyHasSlot(JobOf(name, last), k);
      }
    }
  }

  // ---------- Exactly when a resource is forgotten ----------

  /** Attempt `i` did not save, but put the key into the cluster, and the key was not recorded. */
  ghost predicate LeftBehind(name: string, runs: seq<Run>, w: World, i: nat, k: string) {
    && i < |runs|
    && var before := After(name, runs[..i], w);
       !SavesAt(name, runs[i], before) && k in PutBy(name, runs[i], before) && k !in Stored(before, name)
  }

  /** Attempt `j` saves and has the key in its build. */
  ghost predicate SavedIn(name: string, runs: seq<Run>, w: World, j: nat, k: string) {
    j < |runs| && SavesAt(name, runs[j], After(name, runs[..j], w)) && k in Build(name, runs[j])
  }

  /** Left behind, and not in the build of any later attempt that saves, among the first `n`. */
  ghost predicate LeftUpTo(name: string, runs: seq<Run>, w: World, n: nat, i: nat, k: string) {
    i < n && LeftBehind(name, runs, w, i, k) && forall j: nat :: i < j < n ==> !SavedIn(name, runs, w, j, k)
  }

  /** Some attempt has left the key behind, and no later one that saves has it in its build. */
  ghost predicate LeftForGood(name: string, runs: seq<Run>, w: World, k: string) {
    exists i: nat :: LeftUpTo(name, runs, w, |runs|, i, k)
  }

  lemma ForgottenStep(name: string, runs: seq<Run>, w: World, n: nat, k: string)
    requires n < |runs|
    ensures k in Forgotten(name, runs[..n + 1], w) <==>
            || (k in Forgotten(name, runs[..n], w) && !SavedIn(name, runs, w, n, k))
            || LeftBehind(name, runs, w, n, k)
  {
    var r := runs[..n + 1];
    assert r[..|r| - 1] == runs[..n] && r[|r| - 1] == runs[n];
    assert Forgotten(name, r, w) ==
           var before := After(name, runs[..n], w);
           if SavesAt(name, runs[n], before) then Forgotten(name, runs[..n], w) - Build(name, runs[n]).Keys
           else Forgotten(name, runs[..n], w) + (PutBy(name, runs[n], before) - Stored(before, name).Keys);
    hide Forgotten, After, SavesAt, PutBy, Build, Stored;
  }

  lemma LeftStep(name: string, runs: seq<Run>, w: World, n: nat, i: nat, k: string)
    ensures LeftUpTo(name, runs, w, n + 1, i, k) <==>
            if i < n then LeftUpTo(name, runs, w, n, i, k) && !SavedIn(name, runs, w, n, k)
            else i == n && LeftBehind(name, runs, w, n, k)
  {
    hide SavedIn, LeftBehind;
  }

  lemma {:induction false} ForgottenUpTo(name: string, runs: seq<Run>, w: World, n: nat, k: string)
    requires n <= |runs|
    ensures k in Forgotten(name, runs[..n], w) <==> exists i: nat :: LeftUpTo(name, runs, w, n, i, k)
  {
    if n > 0 {
      var m: nat := n - 1;
      ForgottenUpTo(name, runs, w, m, k);
      ForgottenStep(name, runs, w, m, k);
      assert runs[..m + 1] == runs[..n];
      hide *;
      if i: nat :| LeftUpTo(name, runs, w, n, i, k) {
        LeftStep(name, runs, w, m, i, k);
      }
      if i: nat :| LeftUpTo(name, runs, w, m, i, k) {
        LeftIsEarlier(name, runs, w, m, i, k);
        LeftStep(name, runs, w, m, i, k);
      }
      LeftStep(name, runs, w, m, m, k);
    }
  }

  lemma LeftIsEarlier(name: string, runs: seq<Run>, w: World, n: nat, i: nat, k: string)
    requires LeftUpTo(name, runs, w, n, i, k)
    ensures i < n
  {
  }

  /** A key is forgotten exactly when some attempt has left it behind for good. */
  lemma ForgottenIff(name: string, runs: seq<Run>, w: World, k: string)
    ensures k in Forgotten(name, runs, w) <==> LeftForGood(name, runs, w, k)
  {
    assert runs[..|runs|] == runs;
    ForgottenUpTo(name, runs, w, |runs|, k);
    hide Forgotten, LeftUpTo;
  }

  /** No resource is forgotten, that is, every key ever applied is recorded or gone from the cluster,
      exactly when whatever a failed attempt left behind is in the build of a later one that saves. */
  lemma NothingForgottenIff(name: string, runs: seq<Run>, w: World)
    requires Attempts(name, runs, w)
    ensures (forall k :: k in Applied(name, runs, w) ==> RecordedOrGone(name, After(name, runs, w), k))
            <==> forall k :: k in Applied(name, runs, w) ==> !LeftForGood(name, runs, w, k)
  {
    SeenHaveSlots(name, runs);
    ForgottenIsExact(name, runs, w, Seen(name, runs));
    hide *;
    forall k | k in Applied(name, runs, w)
      ensures RecordedOrGone(name, After(name, runs, w), k) <==> !LeftForGood(name, runs, w, k)
    {
      ForgottenIff(name, runs, w, k);
      ForgottenAt(name, Seen(name, runs), Applied(name, runs, w), Forgotten(name, runs, w), w, After(name, runs, w), k);
    }
  }

  ghost predicate RecordedOrGone(name: string, w: World, k: string) {
    k in Stored(w, name) || (SlotOfKey(k).Some? && SlotOfKey(k).value !in w.cluster)
  }

  lemma ForgottenAt(name: string, seen: set<string>, applied: set<string>, forgotten: set<string>, w0: World, w: World, k: string)
    requires Accounted(name, seen, applied, forgotten, w0, w) && k in applied
    ensures RecordedOrGone(name, w, k) <==> k !in forgotten
  {
    hide SlotOfKey;
    assert k !in Stored(w, name) ==> Unrecorded(applied, forgotten, w0, w, k);
  }

  // ---------- A failed build and then another one ----------

  lemma {:induction false} NoFailureLandsAll(job: Job, prune: bool, o: Outcome, todo: seq<DiffEntry>)
    requires forall e :: e in todo ==> e.key !in o.failing && CallOf(job, prune, e).Ok? && CallOf(job, prune, e).value.Some?
    ensures Landed(job, prune, o, todo) == todo
  {
    hide CallOf;
    if todo != [] {
      assert todo == [todo[0]] + todo[1..];
      NoFailureLandsAll(job, prune, o, todo[1..]);
    }
  }

  /** With nothing recorded and no failing call an attempt puts its whole build. */
  lemma FirstBuildIsPut(name: string, r: Run, w: World, k: string)
    requires Printable(JobOf(name, r)) && Stored(w, name) == map[] && k in Build(name, r)
    requires r.outcome.failing == {} && r.outcome.buildUp && r.outcome.readUp
    ensures k in PutBy(name, r, w)
  {
    var job, d := JobOf(name, r), JobDiff(JobOf(name, r), w);
    assert Listed(job, map[], k);
    ListedIsInDiff(job, map[], k);
    hide Diff, EntriesOf, ByKey, SlotOfKey, Landed, CallOf;
    forall e | e in d ensures CallOf(job, r.prune, e).Ok? && CallOf(job, r.prune, e).value.Some? && e.diffType != Removed {
      DiffEntryOf(map[], job, e);
      PutOfKey(job, r.prune, e);
    }
    NoFailureLandsAll(job, r.prune, r.outcome, d);
  }

  /** Any object whose first sync fails at its save and is then dropped from the build stays in the
      cluster: the next prune sync succeeds, has nothing to do and records nothing. */
  lemma FailedBuildStays(name: string, o: Object, w: World)
    requires name != "" && SlashFree(StateKey(name, o.id)) && Stored(w, name) == map[]
    ensures var first := RunOne(name, Run([o], false, true, ALL_WELL.(saveUp := false)), w);
            var second := RunOne(name, Run([], false, true, ALL_WELL), first.1);
            && first.0 == Failed && second == (Succeeded, first.1)
            && Stored(second.1, name) == map[] && SlotOf(o.id) in second.1.cluster
  {
    var r, k := Run([o], false, true, ALL_WELL.(saveUp := false)), KeyOf(name, o);
    OneObjectFacts(name, o);
    assert Printable(JobOf(name, r)) && Build(name, r).Keys == {k} && OneKeyPerSlot({k}) && SlotOfKey(k) == Some(SlotOf(o.id)) by {
      hide EntriesOf, SlotOfKey, KeyOf;
    }
    var empty := Run([], false, true, ALL_WELL);
    assert !r.outcome.saveUp && r.outcome.failing == {} && r.outcome.buildUp && r.outcome.readUp;
    hide *;
    UnsavedAttempt(name, r, w, k);
    FirstBuildIsPut(name, r, w, k);
    FailedAttemptAt(name, r, {k}, w, k);
    UnsavedKeepsState(name, r, w);
    EmptyBuildIsNothing(name, RunOne(name, r, w).1);
  }

  lemma UnsavedKeepsState(name: string, r: Run, w: World)
    requires name != "" && !SavesAt(name, r, w)
    ensures Stored(RunOne(name, r, w).1, name) == Stored(w, name)
  {
    AttemptLeaves(OptionsOf(r), JobOf(name, r), r.outcome, w);
    hide RunJob, LandAll, CallsOf, LandedOf;
  }

  lemma UnsavedAttempt(name: string, r: Run, w: World, k: string)
    requires name != "" && !r.outcome.saveUp && Stored(w, name) == map[] && k in Build(name, r)
    ensures RunOne(name, r, w).0 == Failed && !SavesAt(name, r, w)
  {
    var job := JobOf(name, r);
    EmptyDiff(map[], Current(job), AlwaysKeys(job));
    RunSucceeds(OptionsOf(r), job, r.outcome, w);
    RunSucceeds(OptionsOf(r), job, r.outcome.(testsPass := true), w);
    hide RunJob, Diff, EntriesOf;
  }

  lemma EmptyBuildIsNothing(name: string, w: World)
    requires name != "" && Stored(w, name) == map[]
    ensures RunOne(name, Run([], false, true, ALL_WELL), w) == (Succeeded, w)
  {
    var r := Run([], false, true, ALL_WELL);
    assert Build(name, r) == map[];
    EmptyDiff(map[], map[], {});
    RunSucceeds(OptionsOf(r), JobOf(name, r), ALL_WELL, w);
    hide RunJob, Diff, EntriesOf;
  }
}
