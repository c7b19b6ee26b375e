// What syncing one manifest does, read off its objects, the saved entries and which of its calls
// fail, without the steps that do it.
module SyncMeaning {
  import opened Common
  import opened StateKeys
  import opened StateDiff
  import opened SyncModel
  import opened SyncEffects
  import opened ApplyMeaning

  // ---------- Single changes ----------

  /** The change is about the resource `s`: the build's last object with its key is that resource, or
      prune deletes the resource its key names. */
  ghost predicate ChangesSlot(job: Job, prune: bool, e: DiffEntry, s: Slot) {
    if e.diffType == Removed then prune && ObjectOfKey(e.key).Ok? && IsAt(ObjectOfKey(e.key).value, s)
    else exists i: nat :: AppliedAt(job, e, i, s)
  }

  ghost predicate AppliedAt(job: Job, e: DiffEntry, i: nat, s: Slot) {
    LastOfKey(job.name, job.objects, i, e.key) && IsAt(job.objects[i].id, s)
  }

  /** The slot is as the change leaves it: with the content of that object, body included, or gone. */
  ghost predicate LeftBy(job: Job, e: DiffEntry, s: Slot, cluster: Cluster) {
    if e.diffType == Removed then s !in cluster
    else exists i: nat :: AppliedAt(job, e, i, s) && s in cluster && cluster[s] == job.objects[i].content
  }

  /** The change cannot be made: its call fails, or prune cannot read its key. */
  predicate Broken(prune: bool, o: Outcome, e: DiffEntry) {
    if e.diffType == Removed then prune && (ObjectOfKey(e.key).Err? || e.key in o.failing) else e.key in o.failing
  }

  // ---------- All changes of a sync ----------

  /** `d` lists what is to be changed to get from the saved entries to the build, in order. */
  ghost predicate ListsChanges(job: Job, saved: Entries, d: seq<DiffEntry>) {
    exists build :: ListsBuild(job.name, job.objects, build) && ListsDifferences(saved, build, if job.alwaysSync then build.Keys else {}, d)
  }

  ghost predicate ListsDifferences(saved: Entries, build: Entries, always: set<string>, d: seq<DiffEntry>) {
    && (forall e :: e in d <==> SaysSo(e, saved, build, always))
    && forall i, j :: 0 <= i < j < |d| ==> ListedBefore(d[i], d[j])
  }

  ghost predicate LastChange(job: Job, prune: bool, d: seq<DiffEntry>, i: nat, s: Slot) {
    i < |d| && ChangesSlot(job, prune, d[i], s) && forall j :: i < j < |d| ==> !ChangesSlot(job, prune, d[j], s)
  }

  /** Every slot is as its last change leaves it, and without a change as it was. */
  ghost predicate AllChanged(job: Job, prune: bool, d: seq<DiffEntry>, before: Cluster, after: Cluster) {
    && (forall i: nat, s :: LastChange(job, prune, d, i, s) ==> LeftBy(job, d[i], s, after))
    && forall s :: (forall e :: e in d ==> !ChangesSlot(job, prune, e, s)) ==> SameAt(after, before, s)
  }

  /** Change `n` is the first that cannot be made, or all can. */
  ghost predicate FirstBroken(prune: bool, o: Outcome, d: seq<DiffEntry>, n: nat) {
    && n <= |d| && (forall i :: 0 <= i < n ==> !Broken(prune, o, d[i])) && (n < |d| ==> Broken(prune, o, d[n]))
  }

  /** The changes before the first broken one have been made, and that one if it took effect. */
  ghost predicate ChangedUntil(job: Job, prune: bool, o: Outcome, d: seq<DiffEntry>, n: nat, before: Cluster, after: Cluster) {
    && FirstBroken(prune, o, d, n)
    && AllChanged(job, prune, d[..if n < |d| && d[n].key in o.landed then n + 1 else n], before, after)
  }

  /** With prune the build is recorded, and without it dropped keys stay beside it; an atomic sync
      puts the save off. */
  ghost predicate Recorded(opts: Options, job: Job, saved: Entries, before: World, after: World) {
    exists build :: ListsBuild(job.name, job.objects, build) &&
      var entries := if opts.prune then build else saved + build;
      if opts.atomic then after.store == before.store && after.pending == before.pending[job.name := entries]
      else after.store == before.store[job.name := entries] && after.pending == before.pending
  }

  ghost predicate SyncedBy(opts: Options, job: Job, o: Outcome, d: seq<DiffEntry>, n: nat, before: World, ok: bool, after: World) {
    var saved := if job.name in before.store then before.store[job.name] else map[];
    var saves := n == |d| && d != [] && o.readyUp && (opts.atomic || o.saveUp);
    && ListsChanges(job, saved, d)
    && ChangedUntil(job, opts.prune, o, d, n, before.cluster, after.cluster)
    && (ok <==> (d == [] || saves) && o.testsPass)
    && if saves then Recorded(opts, job, saved, before, after)
       else after.store == before.store && after.pending == before.pending
  }

  /** The whole of a sync. */
  ghost predicate Synced(opts: Options, job: Job, o: Outcome, before: World, ok: bool, after: World) {
    if job.name == "" then ok && after == before
    else if !o.buildUp || !o.readUp then !ok && after == before
    else exists d, n: nat :: SyncedBy(opts, job, o, d, n, before, ok, after)
  }

  // ---------- The steps do that ----------

  lemma LastIsUnique(name: string, objects: seq<Object>, i: nat, j: nat, k: string)
    requires LastOfKey(name, objects, i, k) && LastOfKey(name, objects, j, k)
    ensures i == j
  {
    hide HasKey;
  }

  /** Entry `e` has had its effect between `before` and `after`. */
  ghost predicate Effect(job: Job, prune: bool, e: DiffEntry, before: Cluster, after: Cluster) {
    forall s :: if ChangesSlot(job, prune, e, s) then LeftBy(job, e, s, after) else SameAt(after, before, s)
  }

  lemma CallHasEffect(job: Job, prune: bool, e: DiffEntry, c: Call, cluster: Cluster)
    requires CallOf(job, prune, e) == Ok(Some(c))
    ensures Effect(job, prune, e, cluster, Land(c, cluster))
  {
    if e.diffType == Removed {
      assert prune && ObjectOfKey(e.key).Ok? && c == Delete(SlotOf(ObjectOfKey(e.key).value));
      hide *;
      DeleteHasEffect(job, prune, e, cluster);
    } else {
      var i := ByKeyIsLast(job.name, job.objects, e.key);
      assert c == Put(SlotOf(job.objects[i].id), job.objects[i].content);
      hide *;
      PutHasEffect(job, prune, e, i, cluster);
    }
  }

  lemma DeleteHasEffect(job: Job, prune: bool, e: DiffEntry, cluster: Cluster)
    requires e.diffType == Removed && prune && ObjectOfKey(e.key).Ok?
    ensures Effect(job, prune, e, cluster, cluster - {SlotOf(ObjectOfKey(e.key).value)})
  {
    hide ObjectOfKey;
    assert forall s :: ChangesSlot(job, prune, e, s) <==> s == SlotOf(ObjectOfKey(e.key).value);
    hide ChangesSlot, IsAt, SlotOf;
  }

  lemma PutHasEffect(job: Job, prune: bool, e: DiffEntry, i: nat, cluster: Cluster)
    requires e.diffType != Removed && LastOfKey(job.name, job.objects, i, e.key)
    ensures i < |job.objects|
    ensures Effect(job, prune, e, cluster, cluster[SlotOf(job.objects[i].id) := job.objects[i].content])
  {
    LastInRange(job.name, job.objects, i, e.key);
    var slot := SlotOf(job.objects[i].id);
    forall s ensures ChangesSlot(job, prune, e, s) <==> s == slot {
      PutChangesSlot(job, prune, e, i, s);
    }
    assert AppliedAt(job, e, i, slot);
    hide LastOfKey, ChangesSlot, AppliedAt, SlotOf, IsAt;
  }

  lemma PutChangesSlot(job: Job, prune: bool, e: DiffEntry, i: nat, s: Slot)
    requires e.diffType != Removed && LastOfKey(job.name, job.objects, i, e.key) && i < |job.objects|
    ensures ChangesSlot(job, prune, e, s) <==> s == SlotOf(job.objects[i].id)
  {
    hide LastOfKey, HasKey;
    if ChangesSlot(job, prune, e, s) {
      var j: nat :| AppliedAt(job, e, j, s);
      LastIsUnique(job.name, job.objects, i, j, e.key);
    }
    if s == SlotOf(job.objects[i].id) {
      assert AppliedAt(job, e, i, s);
    }
  }

  lemma NoCallNoEffect(job: Job, prune: bool, e: DiffEntry, cluster: Cluster)
    requires e.diffType == Removed && (!prune || ObjectOfKey(e.key).Err?)
    ensures Effect(job, prune, e, cluster, cluster)
  {
    hide ObjectOfKey;
  }

  lemma SyncStepIs(opts: Options, job: Job, o: Outcome, todo: seq<DiffEntry>, entries: Entries, w: World)
    requires todo != [] && (todo[0].diffType != Removed ==> todo[0].key in ByKey(job.name, job.objects))
    ensures var e, next := todo[0], SyncStep(opts, job, o, todo, entries, w);
            && next.0 == (if Broken(opts.prune, o, e) then Failed else Syncing(todo[1..], Record(opts.prune, e, entries)))
            && next.1 == w.(cluster := next.1.cluster)
            && if Broken(opts.prune, o, e) && e.key !in o.landed then next.1 == w
               else Effect(job, opts.prune, e, w.cluster, next.1.cluster)
  {
    hide ByKey, ObjectOfKey, Effect, Record;
    var e := todo[0];
    var c := CallOf(job, opts.prune, e);
    if c.Ok? && c.value.Some? {
      CallHasEffect(job, opts.prune, e, c.value.value, w.cluster);
    } else {
      NoCallNoEffect(job, opts.prune, e, w.cluster);
    }
  }

  lemma NothingChanged(job: Job, prune: bool, cluster: Cluster)
    ensures AllChanged(job, prune, [], cluster, cluster)
  {
  }

  lemma OneMoreChange(job: Job, prune: bool, front: seq<DiffEntry>, e: DiffEntry, before: Cluster, mid: Cluster, after: Cluster)
    requires AllChanged(job, prune, front, before, mid) && Effect(job, prune, e, mid, after)
    ensures AllChanged(job, prune, front + [e], before, after)
  {
    hide ChangesSlot, AppliedAt;
    var d := front + [e];
    assert d[|front|] == e;
    forall i: nat, s | LastChange(job, prune, d, i, s) ensures LeftBy(job, d[i], s, after) {
      if i < |front| {
        assert forall j :: i < j < |front| ==> d[j] == front[j];
        assert LastChange(job, prune, front, i, s);
        assert !ChangesSlot(job, prune, d[|front|], s);
        StaysLeft(job, front[i], s, mid, after);
      }
    }
    forall s | forall x :: x in d ==> !ChangesSlot(job, prune, x, s) ensures SameAt(after, before, s) {
      assert e in d;
      assert forall x :: x in front ==> x in d && !ChangesSlot(job, prune, x, s);
      assert SameAt(mid, before, s);
    }
  }

  lemma StaysLeft(job: Job, e: DiffEntry, s: Slot, mid: Cluster, after: Cluster)
    requires LeftBy(job, e, s, mid) && SameAt(after, mid, s)
    ensures LeftBy(job, e, s, after)
  {
    hide AppliedAt;
  }

  lemma AllMade(job: Job, prune: bool, o: Outcome, d: seq<DiffEntry>, before: Cluster, after: Cluster)
    requires (forall j :: 0 <= j < |d| ==> !Broken(prune, o, d[j])) && AllChanged(job, prune, d, before, after)
    ensures ChangedUntil(job, prune, o, d, |d|, before, after)
  {
    hide Broken, AllChanged;
    assert d[..|d|] == d;
  }

  /** Where a sync ends: the saves are those of `w`, but for the entries if they are saved. */
  ghost predicate EndsAs(opts: Options, job: Job, o: Outcome, d: seq<DiffEntry>, n: nat, start: Cluster, entries: Entries, w: World, r: (Phase, World)) {
    var saves := n == |d| && o.readyUp && (opts.atomic || o.saveUp);
    && ChangedUntil(job, opts.prune, o, d, n, start, r.1.cluster)
    && (r.0 == Succeeded <==> saves && o.testsPass)
    && SavesAre(opts, job, saves, entries, w, r.1)
  }

  /** What is left of a sync once the changes before `i` have been made. */
  lemma {:induction false} SyncingLeaves(opts: Options, job: Job, o: Outcome, d: seq<DiffEntry>, i: nat, start: Cluster, entries: Entries, w: World)
      returns (n: nat)
    requires i <= |d| && forall e :: e in d && e.diffType != Removed ==> e.key in ByKey(job.name, job.objects)
    requires AllChanged(job, opts.prune, d[..i], start, w.cluster)
    requires forall j :: 0 <= j < i ==> !Broken(opts.prune, o, d[j])
    ensures EndsAs(opts, job, o, d, n, start, RecordAll(opts.prune, d[i..], entries), w, Finish(opts, job, o, Syncing(d[i..], entries), w))
    decreases |d| - i
  {
    var todo := d[i..];
    hide *;
    if i == |d| {
      n := i;
      assert todo == [] && d[..i] == d;
      AllMade(job, opts.prune, o, d, start, w.cluster);
      EndsAfterAll(opts, job, o, d, start, entries, w);
    } else {
      var e, next := d[i], SyncStep(opts, job, o, todo, entries, w);
      assert todo[0] == e && todo[1..] == d[i + 1..] && e in d;
      SyncingStep(opts, job, o, todo, entries, w);
      SyncStepIs(opts, job, o, todo, entries, w);
      if Broken(opts.prune, o, e) {
        n := i;
        MadeUntilBroken(job, opts.prune, o, d, n, start, w.cluster, next.1.cluster);
        EndsBroken(opts, job, o, d, n, start, RecordAll(opts.prune, todo, entries), w, next.1);
      } else {
        OneMoreMade(job, opts.prune, d, i, start, w.cluster, next.1.cluster);
        n := SyncingLeaves(opts, job, o, d, i + 1, start, Record(opts.prune, e, entries), next.1);
        EndsFrom(opts, job, o, d, n, start, RecordAll(opts.prune, todo, entries), w, next.1);
      }
    }
  }

  lemma OneMoreMade(job: Job, prune: bool, d: seq<DiffEntry>, i: nat, before: Cluster, mid: Cluster, after: Cluster)
    requires i < |d| && AllChanged(job, prune, d[..i], before, mid) && Effect(job, prune, d[i], mid, after)
    ensures AllChanged(job, prune, d[..i + 1], before, after)
  {
    hide *;
    assert d[..i + 1] == d[..i] + [d[i]];
    OneMoreChange(job, prune, d[..i], d[i], before, mid, after);
  }

  lemma MadeUntilBroken(job: Job, prune: bool, o: Outcome, d: seq<DiffEntry>, n: nat, before: Cluster, mid: Cluster, after: Cluster)
    requires n < |d| && Broken(prune, o, d[n]) && forall j :: 0 <= j < n ==> !Broken(prune, o, d[j])
    requires AllChanged(job, prune, d[..n], before, mid)
    requires if d[n].key in o.landed then Effect(job, prune, d[n], mid, after) else after == mid
    ensures ChangedUntil(job, prune, o, d, n, before, after)
  {
    hide Broken, AllChanged, Effect;
    if d[n].key in o.landed {
      OneMoreMade(job, prune, d, n, before, mid, after);
    }
  }

  lemma EndsAfterAll(opts: Options, job: Job, o: Outcome, d: seq<DiffEntry>, start: Cluster, entries: Entries, w: World)
    requires ChangedUntil(job, opts.prune, o, d, |d|, start, w.cluster)
    ensures EndsAs(opts, job, o, d, |d|, start, RecordAll(opts.prune, [], entries), w, Finish(opts, job, o, Syncing([], entries), w))
  {
    EndOfChanges(opts, job, o, entries, w);
    hide Finish, ChangedUntil;
  }

  lemma EndsBroken(opts: Options, job: Job, o: Outcome, d: seq<DiffEntry>, n: nat, start: Cluster, entries: Entries, w: World, next: World)
    requires n < |d| && ChangedUntil(job, opts.prune, o, d, n, start, next.cluster) && next == w.(cluster := next.cluster)
    ensures EndsAs(opts, job, o, d, n, start, entries, w, Finish(opts, job, o, Failed, next))
  {
    FailedIsFinal(opts, job, o, next);
    hide Finish, ChangedUntil;
  }

  lemma EndsFrom(opts: Options, job: Job, o: Outcome, d: seq<DiffEntry>, n: nat, start: Cluster, entries: Entries, w: World, next: World)
    requires next == w.(cluster := next.cluster)
    ensures forall r :: EndsAs(opts, job, o, d, n, start, entries, next, r) ==> EndsAs(opts, job, o, d, n, start, entries, w, r)
  {
    hide ChangedUntil;
  }

  lemma SyncingStep(opts: Options, job: Job, o: Outcome, todo: seq<DiffEntry>, entries: Entries, w: World)
    requires todo != []
    ensures var next := SyncStep(opts, job, o, todo, entries, w);
            Finish(opts, job, o, Syncing(todo, entries), w) == Finish(opts, job, o, next.0, next.1)
    ensures RecordAll(opts.prune, todo, entries) == RecordAll(opts.prune, todo[1..], Record(opts.prune, todo[0], entries))
  {
    hide SyncStep, Record;
    assert Step(opts, job, o, Syncing(todo, entries), w) == SyncStep(opts, job, o, todo, entries, w);
  }

  /** The saves are as before, but for the new entries if they are saved. */
  ghost predicate SavesAre(opts: Options, job: Job, saves: bool, entries: Entries, before: World, after: World) {
    && after.store == (if saves && !opts.atomic then before.store[job.name := entries] else before.store)
    && after.pending == (if saves && opts.atomic then before.pending[job.name := entries] else before.pending)
  }

  lemma EndOfChanges(opts: Options, job: Job, o: Outcome, entries: Entries, w: World)
    ensures var r := Finish(opts, job, o, Syncing([], entries), w);
            var saves := o.readyUp && (opts.atomic || o.saveUp);
            && r.1.cluster == w.cluster && (r.0 == Succeeded <==> saves && o.testsPass)
            && SavesAre(opts, job, saves, entries, w, r.1)
  {
    var n1 := Step(opts, job, o, Syncing([], entries), w);
    assert Finish(opts, job, o, Syncing([], entries), w) == Finish(opts, job, o, n1.0, n1.1);
    if o.readyUp {
      var n2 := Step(opts, job, o, Saving(entries), w);
      assert Finish(opts, job, o, Saving(entries), w) == Finish(opts, job, o, n2.0, n2.1);
      if n2.0 == Testing {
        TestingEnds(opts, job, o, n2.1);
      }
    }
  }

  lemma TestingEnds(opts: Options, job: Job, o: Outcome, w: World)
    ensures Finish(opts, job, o, Testing, w) == (if o.testsPass then Succeeded else Failed, w)
  {
  }

  lemma DiffListsChanges(job: Job, saved: Entries)
    ensures ListsChanges(job, saved, Diff(saved, Current(job), AlwaysKeys(job)))
    ensures forall e :: e in Diff(saved, Current(job), AlwaysKeys(job)) && e.diffType != Removed ==> e.key in ByKey(job.name, job.objects)
  {
    EntriesListBuild(job.name, job.objects);
    DiffSaysSo(saved, Current(job), AlwaysKeys(job));
    hide Diff, ListsBuild, EntriesOf, ByKey, ListedBefore;
  }

  /** Syncing a manifest makes the changes between its saved entries and its build and records them. */
  lemma SyncMakesTheChanges(opts: Options, job: Job, o: Outcome, w: World)
    requires opts.sync
    ensures var r := RunJob(opts, job, o, w); Synced(opts, job, o, w, r.0 == Succeeded, r.1)
  {
    var p := Begin(opts, job, o, w);
    assert RunJob(opts, job, o, w) == Finish(opts, job, o, p, w);
    if job.name != "" && o.buildUp && o.readUp {
      var saved := if job.name in w.store then w.store[job.name] else map[];
      var d, r := Diff(saved, Current(job), AlwaysKeys(job)), RunJob(opts, job, o, w);
      assert p == if d == [] then Testing else Syncing(d, saved);
      DiffListsChanges(job, saved);
      hide *;
      if d == [] {
        NoChangesEnd(opts, job, o, saved, w);
      } else {
        ChangesEnd(opts, job, o, d, saved, w);
      }
    }
  }

  lemma NoChangesEnd(opts: Options, job: Job, o: Outcome, saved: Entries, w: World)
    requires saved == if job.name in w.store then w.store[job.name] else map[]
    requires ListsChanges(job, saved, []) && job.name != "" && o.buildUp && o.readUp
    ensures var r := Finish(opts, job, o, Testing, w); Synced(opts, job, o, w, r.0 == Succeeded, r.1)
  {
    TestingEnds(opts, job, o, w);
    NothingChanged(job, opts.prune, w.cluster);
    hide Finish, AllChanged, ListsChanges;
    assert SyncedBy(opts, job, o, [], 0, w, o.testsPass, w);
  }

  lemma ChangesEnd(opts: Options, job: Job, o: Outcome, d: seq<DiffEntry>, saved: Entries, w: World)
    requires saved == if job.name in w.store then w.store[job.name] else map[]
    requires d == Diff(saved, Current(job), AlwaysKeys(job)) && d != []
    requires ListsChanges(job, saved, d) && job.name != "" && o.buildUp && o.readUp
    requires forall e :: e in d && e.diffType != Removed ==> e.key in ByKey(job.name, job.objects)
    ensures var r := Finish(opts, job, o, Syncing(d, saved), w); Synced(opts, job, o, w, r.0 == Succeeded, r.1)
  {
    EntriesListBuild(job.name, job.objects);
    assert Current(job) == EntriesOf(job.name, job.objects);
    RecordingReachesTarget(opts.prune, saved, Current(job), AlwaysKeys(job));
    assert Target(opts.prune, saved, Current(job)) == if opts.prune then Current(job) else saved + Current(job);
    hide *;
    NothingChanged(job, opts.prune, w.cluster);
    assert d[..0] == [] && d[0..] == d;
    var n := SyncingLeaves(opts, job, o, d, 0, w.cluster, saved, w);
    EndsSynced(opts, job, o, d, n, Current(job), saved, w, Finish(opts, job, o, Syncing(d, saved), w));
  }

  lemma EndsSynced(opts: Options, job: Job, o: Outcome, d: seq<DiffEntry>, n: nat, build: Entries, saved: Entries, w: World, r: (Phase, World))
    requires saved == if job.name in w.store then w.store[job.name] else map[]
    requires ListsChanges(job, saved, d) && d != [] && job.name != "" && o.buildUp && o.readUp
    requires ListsBuild(job.name, job.objects, build)
    requires EndsAs(opts, job, o, d, n, w.cluster, if opts.prune then build else saved + build, w, r)
    ensures Synced(opts, job, o, w, r.0 == Succeeded, r.1)
  {
    hide ChangedUntil, ListsBuild, ListsChanges;
    assert SyncedBy(opts, job, o, d, n, w, r.0 == Succeeded, r.1);
  }

  // ---------- One key ----------

  /** The key is new or has another hash, or is applied every time. */
  predicate ToBeApplied(job: Job, saved: Entries, k: string, i: nat)
    requires i < |job.objects|
  {
    job.alwaysSync || k !in saved || saved[k] != job.objects[i].content.hash
  }

  /** Nothing else the sync may change is the resource `s`: no object under another key, and no key
      that prune drops. */
  ghost predicate OnlyChangeAt(job: Job, prune: bool, saved: Entries, k: string, s: Slot) {
    && (forall x :: x in job.objects && !HasKey(job.name, x, k) ==> !IsAt(x.id, s))
    && (prune ==> forall r :: r in saved && !Builds(job.name, job.objects, r) && ObjectOfKey(r).Ok? ==> !IsAt(ObjectOfKey(r).value, s))
  }

  /** After a successful sync the resource of a key that was to be applied has exactly the content, body
      included, of the last object with the key. */
  lemma SyncedKeyHasContent(opts: Options, job: Job, o: Outcome, w: World, k: string, i: nat)
    requires opts.sync && job.name != "" && RunJob(opts, job, o, w).0 == Succeeded
    requires LastOfKey(job.name, job.objects, i, k) && i < |job.objects|
    requires ToBeApplied(job, Stored(w, job.name), k, i)
    requires OnlyChangeAt(job, opts.prune, Stored(w, job.name), k, SlotOf(job.objects[i].id))
    ensures var after, s := RunJob(opts, job, o, w).1.cluster, SlotOf(job.objects[i].id);
            s in after && after[s] == job.objects[i].content
  {
    SyncMakesTheChanges(opts, job, o, w);
    var r, saved, s := RunJob(opts, job, o, w), Stored(w, job.name), SlotOf(job.objects[i].id);
    hide RunJob, SyncedBy, Stored, LastOfKey, ToBeApplied, OnlyChangeAt;
    var d, n: nat :| SyncedBy(opts, job, o, d, n, w, true, r.1);
    ChangesAreAllMade(opts, job, o, d, n, saved, w, r.1);
    hide *;
    var e := KeyIsListed(job, saved, d, k, i);
    KeyDecides(job, opts.prune, saved, d, e, i, w.cluster, r.1.cluster);
  }

  lemma ChangesAreAllMade(opts: Options, job: Job, o: Outcome, d: seq<DiffEntry>, n: nat, saved: Entries, w: World, after: World)
    requires saved == Stored(w, job.name) && SyncedBy(opts, job, o, d, n, w, true, after)
    ensures ListsChanges(job, saved, d) && AllChanged(job, opts.prune, d, w.cluster, after.cluster)
  {
    hide ListsChanges, AllChanged, Broken;
    assert d[..|d|] == d;
  }

  lemma KeyIsListed(job: Job, saved: Entries, d: seq<DiffEntry>, k: string, i: nat) returns (e: DiffEntry)
    requires ListsChanges(job, saved, d) && i < |job.objects| && LastOfKey(job.name, job.objects, i, k) && ToBeApplied(job, saved, k, i)
    ensures e in d && e.key == k && e.diffType != Removed
  {
    hide LastOfKey, ListsDifferences, Builds, ListedBefore;
    var build :| ListsBuild(job.name, job.objects, build) && ListsDifferences(saved, build, if job.alwaysSync then build.Keys else {}, d);
    var hash := build[k];
    e := if job.alwaysSync then DiffEntry(k, AlwaysSync, "", hash)
         else if k !in saved then DiffEntry(k, Added, "", hash) else DiffEntry(k, Modified, saved[k], hash);
    SaidIsListed(saved, build, if job.alwaysSync then build.Keys else {}, d, e);
  }

  lemma SaidIsListed(saved: Entries, build: Entries, always: set<string>, d: seq<DiffEntry>, e: DiffEntry)
    requires ListsDifferences(saved, build, always, d)
    ensures e in d <==> SaysSo(e, saved, build, always)
  {
    hide SaysSo, ListedBefore;
  }

  /** Any listed change of the same slot is the change itself. */
  lemma KeyAlone(job: Job, prune: bool, saved: Entries, d: seq<DiffEntry>, e: DiffEntry, x: DiffEntry, s: Slot)
    requires ListsChanges(job, saved, d) && e in d && x in d && e.diffType != Removed
    requires OnlyChangeAt(job, prune, saved, e.key, s) && ChangesSlot(job, prune, x, s)
    ensures x == e
  {
    hide HasKey, IsAt, ListsDifferences, Builds, ObjectOfKey, LastOfKey;
    var build :| ListsBuild(job.name, job.objects, build) && ListsDifferences(saved, build, if job.alwaysSync then build.Keys else {}, d);
    SaidIsListed(saved, build, if job.alwaysSync then build.Keys else {}, d, e);
    SaidIsListed(saved, build, if job.alwaysSync then build.Keys else {}, d, x);
    if x.diffType != Removed {
      var j: nat :| AppliedAt(job, x, j, s);
      LastHasKey(job.name, job.objects, j, x.key);
      assert job.objects[j] in job.objects;
      if x.key != e.key { OneKeyEach(job.name, job.objects[j], x.key, e.key); }
    }
  }

  lemma LastHasKey(name: string, objects: seq<Object>, i: nat, k: string)
    requires LastOfKey(name, objects, i, k)
    ensures i < |objects| && HasKey(name, objects[i], k)
  {
  }

  lemma OneKeyEach(name: string, o: Object, j: string, k: string)
    requires HasKey(name, o, j) && j != k
    ensures !HasKey(name, o, k)
  {
  }

  lemma KeyDecides(job: Job, prune: bool, saved: Entries, d: seq<DiffEntry>, e: DiffEntry, i: nat, before: Cluster, after: Cluster)
    requires ListsChanges(job, saved, d) && AllChanged(job, prune, d, before, after)
    requires e in d && e.diffType != Removed && LastOfKey(job.name, job.objects, i, e.key) && i < |job.objects|
    requires OnlyChangeAt(job, prune, saved, e.key, SlotOf(job.objects[i].id))
    ensures var s := SlotOf(job.objects[i].id); s in after && after[s] == job.objects[i].content
  {
    var s := SlotOf(job.objects[i].id);
    PutChangesSlot(job, prune, e, i, s);
    hide OnlyChangeAt, ListsChanges, LastOfKey, ChangesSlot, SlotOf;
    var m := LastSuch(d, e);
    forall j | m < j < |d| ensures !ChangesSlot(job, prune, d[j], s) {
      if ChangesSlot(job, prune, d[j], s) {
        KeyAlone(job, prune, saved, d, e, d[j], s);
      }
    }
    assert LastChange(job, prune, d, m, s);
    var j: nat :| AppliedAt(job, e, j, s) && s in after && after[s] == job.objects[j].content;
    LastIsUnique(job.name, job.objects, i, j, e.key);
  }

  lemma LastSuch<T>(d: seq<T>, e: T) returns (m: nat)
    requires e in d
    ensures m < |d| && d[m] == e && e !in d[m + 1..]
  {
    m := |d| - 1;
    while d[m] != e
      invariant 0 <= m < |d| && e !in d[m + 1..] && e in d[..m + 1]
      decreases m
    {
      assert d[..m + 1] == d[..m] + [d[m]];
      assert d[m..] == [d[m]] + d[m + 1..];
      m := m - 1;
    }
  }
}
