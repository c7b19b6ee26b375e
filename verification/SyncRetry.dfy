// Running a failed sync again until it succeeds ends where one uninterrupted run would have.
module SyncRetry {
  import opened Common
  import opened StateKeys
  import opened StateDiff
  import opened SyncModel
  import opened SyncEffects

  /** A new process starts from the cluster and the store; put-off saves of the old one are lost. */
  function Restart(w: World): World {
    w.(pending := map[])
  }

  // ---------- Calls that overwrite what they touch ----------

  lemma LandNarrows(c: Call, a: Cluster, b: Cluster, s: set<Slot>)
    requires AgreeOutside(a, b, s)
    ensures AgreeOutside(Land(c, a), Land(c, b), s - {c.slot})
  {
    forall x | x !in s - {c.slot} ensures SameAt(Land(c, a), Land(c, b), x) {
      assert x != c.slot ==> SameAt(a, b, x);
    }
  }

  lemma AgreeEverywhere(a: Cluster, b: Cluster)
    requires AgreeOutside(a, b, {})
    ensures a == b
  {
    assert forall x :: x in a ==> SameAt(a, b, x);
    assert forall x :: x in b ==> SameAt(a, b, x);
  }

  /** What a sequence of calls leaves does not depend on what was in the slots it calls on. */
  lemma {:induction false} LandAgree(calls: seq<Call>, a: Cluster, b: Cluster, s: set<Slot>)
    requires AgreeOutside(a, b, s) && s <= SlotsOf(calls)
    ensures LandAll(calls, a) == LandAll(calls, b)
  {
    if calls == [] {
      assert s == {};
      AgreeEverywhere(a, b);
    } else {
      var c := calls[0];
      LandNarrows(c, a, b, s);
      assert calls == [c] + calls[1..];
      assert s - {c.slot} <= SlotsOf(calls[1..]);
      LandAgree(calls[1..], Land(c, a), Land(c, b), s - {c.slot});
    }
  }

  lemma {:induction false} LandTouches(calls: seq<Call>, cluster: Cluster)
    ensures AgreeOutside(LandAll(calls, cluster), cluster, SlotsOf(calls))
  {
    if calls != [] {
      LandTouches(calls[1..], Land(calls[0], cluster));
      assert calls == [calls[0]] + calls[1..];
      assert SlotsOf(calls[1..]) <= SlotsOf(calls) && calls[0].slot in SlotsOf(calls);
      forall x | x !in SlotsOf(calls) ensures SameAt(LandAll(calls, cluster), cluster, x) {
        assert SameAt(LandAll(calls[1..], Land(calls[0], cluster)), Land(calls[0], cluster), x);
      }
    }
  }

  lemma {:induction false} LandAppend(a: seq<Call>, b: seq<Call>, cluster: Cluster)
    ensures LandAll(a + b, cluster) == LandAll(b, LandAll(a, cluster))
  {
    if a == [] {
      assert a + b == b;
    } else {
      assert (a + b)[1..] == a[1..] + b;
      LandAppend(a[1..], b, Land(a[0], cluster));
    }
  }

  /** Repeating the last part of a sequence of calls changes nothing. */
  lemma RepeatTail(a: seq<Call>, b: seq<Call>, cluster: Cluster)
    ensures LandAll(b, LandAll(a + b, cluster)) == LandAll(a + b, cluster)
  {
    LandAppend(a, b, cluster);
    var before := LandAll(a, cluster);
    LandTouches(b, before);
    LandAgree(b, LandAll(b, before), before, SlotsOf(b));
  }

  // ---------- The always-synced entries come last ----------

  lemma {:induction false} CallsAppend(job: Job, prune: bool, a: seq<DiffEntry>, b: seq<DiffEntry>)
    ensures CallsOf(job, prune, a + b) == CallsOf(job, prune, a) + CallsOf(job, prune, b)
  {
    if a == [] {
      assert a + b == b;
    } else {
      assert (a + b)[1..] == a[1..] + b;
      CallsAppend(job, prune, a[1..], b);
      hide CallOf;
    }
  }

  lemma {:induction false} SkippedMakeNoCalls(job: Job, todo: seq<DiffEntry>)
    requires forall e :: e in todo ==> e.diffType == Removed
    ensures CallsOf(job, false, todo) == []
  {
    if todo != [] {
      assert todo == [todo[0]] + todo[1..];
      SkippedMakeNoCalls(job, todo[1..]);
    }
  }

  /** Every diff against a build ends with the same always-synced entries. */
  lemma AlwaysSyncedTail(saved: Entries, current: Entries, always: set<string>) returns (front: seq<DiffEntry>)
    ensures Diff(saved, current, always) == front + Diff(current, current, always)
    ensures forall e :: e in front <==> e in Diff(saved, current, always) && e.diffType != AlwaysSync
  {
    var d, tail := Diff(saved, current, always), Diff(current, current, always);
    DiffIsExact(saved, current, always, d);
    DiffIsExact(current, current, always, tail);
    var s := set e | e in d && e.diffType != AlwaysSync;
    FrontIsSorted(saved, current, always, s);
    front := Sort(Listing(s));
    hide Diff, Sort, Listing;
    forall e ensures e in front + tail <==> e in d {
      assert e in front + tail <==> e in front || e in tail;
      assert e in d <==> Classify(saved, current, always, e.key) == Some(e);
      assert e in tail <==> Classify(current, current, always, e.key) == Some(e);
      SameAlwaysEntry(saved, current, always, e);
    }
    hide Classify;
    forall e | e in tail ensures e.diffType == AlwaysSync {
      SameAlwaysEntry(saved, current, always, e);
    }
    FrontBeforeTail(front, tail);
    SortedIsUnique(front + tail, d);
  }

  lemma SameAlwaysEntry(saved: Entries, current: Entries, always: set<string>, e: DiffEntry)
    ensures Classify(current, current, always, e.key) == Some(e)
            <==> Classify(saved, current, always, e.key) == Some(e) && e.diffType == AlwaysSync
  {
  }

  lemma FrontIsSorted(saved: Entries, current: Entries, always: set<string>, s: set<DiffEntry>)
    requires forall e :: e in s ==> e in Diff(saved, current, always)
    ensures Sorted(Sort(Listing(s))) && forall e :: e in Sort(Listing(s)) <==> e in s
  {
    var d := Diff(saved, current, always);
    DiffIsExact(saved, current, always, d);
    hide Diff, Sort, Listing, Sorted;
    forall a, b | a in s && b in s && a.key == b.key ensures a == b {
      assert a in d && b in d;
      assert Classify(saved, current, always, a.key) == Some(a);
      assert Classify(saved, current, always, b.key) == Some(b);
    }
    ListingLists(s);
    SortSorts(Listing(s));
  }

  lemma FrontBeforeTail(front: seq<DiffEntry>, tail: seq<DiffEntry>)
    requires Sorted(front) && Sorted(tail)
    requires forall e :: e in front ==> e.diffType != AlwaysSync
    requires forall e :: e in tail ==> e.diffType == AlwaysSync
    ensures Sorted(front + tail)
  {
    var all := front + tail;
    forall i, j | 0 <= i < j < |all| ensures Less(all[i], all[j]) {
      if i < |front| <= j {
        assert all[i] in front && all[j] in tail;
      }
    }
  }

  // ---------- Running again ----------

  /** The first attempt left the saves alone: the second one makes the same calls again. */
  lemma RetryWithSameState(opts: Options, job: Job, o: Outcome, w: World, w2: World)
    requires opts.sync && job.name != "" && RunJob(opts, job, o, w).0 == Succeeded
    requires w2 == w.(cluster := w2.cluster)
    requires AgreeOutside(w2.cluster, w.cluster, SlotsOf(CallsOf(job, opts.prune, JobDiff(job, w))))
    ensures RunJob(opts, job, o, w2) == RunJob(opts, job, o, w)
  {
    var d := JobDiff(job, w);
    assert JobDiff(job, w2) == d;
    RunSucceeds(opts, job, o, w);
    RunSucceeds(opts, job, o, w2);
    LandAgree(CallsOf(job, opts.prune, d), w2.cluster, w.cluster, SlotsOf(CallsOf(job, opts.prune, d)));
    if d == [] {
      assert CallsOf(job, opts.prune, d) == [];
    }
    hide RunJob, Diff, JobDiff, CallsOf, AgreeOutside, LandAll, RecordAll, Smooth;
  }

  /** The first attempt had already saved: only always-synced entries and skipped ones are left. */
  lemma RetryAfterSave(opts: Options, job: Job, o: Outcome, w: World)
    requires opts.sync && job.name != "" && !opts.atomic && RunJob(opts, job, o, w).0 == Succeeded
    ensures var after := RunJob(opts, job, o, w).1; RunJob(opts, job, o, after) == (Succeeded, after)
  {
    var saved, current, always := Stored(w, job.name), Current(job), AlwaysKeys(job);
    var r := RunJob(opts, job, o, w);
    var after := r.1;
    RunStoresTarget(opts, job, o, w);
    RunSucceeds(opts, job, o, w);
    RunSucceeds(opts, job, o, after);
    var d, d2 := JobDiff(job, w), JobDiff(job, after);
    var front := AlwaysSyncedTail(saved, current, always);
    var front2 := AlwaysSyncedTail(Target(opts.prune, saved, current), current, always);
    var tail := Diff(current, current, always);
    assert d == front + tail && d2 == front2 + tail;
    LeftOverIsSkipped(opts.prune, saved, current, always, front2);
    hide RunJob, Diff, AlwaysKeys, Current;
    RepeatedCalls(job, opts.prune, front, front2, tail, w.cluster);
    SmoothAgain(opts, job, o, front, front2, tail);
    RecordingReachesTarget(opts.prune, Target(opts.prune, saved, current), current, always);
    TargetTwice(opts.prune, saved, current);
    hide LandAll, CallsOf, RecordAll, Target, Smooth;
    if d2 != [] {
      assert after.cluster == LandAll(CallsOf(job, opts.prune, d), w.cluster);
      SaveSame(after, job.name);
    }
  }

  lemma SaveSame(w: World, name: string)
    requires name in w.store
    ensures w.store[name := w.store[name]] == w.store
  {
  }

  lemma TargetTwice(prune: bool, saved: Entries, current: Entries)
    ensures Target(prune, Target(prune, saved, current), current) == Target(prune, saved, current)
  {
  }

  lemma LeftOverIsSkipped(prune: bool, saved: Entries, current: Entries, always: set<string>, front: seq<DiffEntry>)
    requires forall e :: e in front <==> e in Diff(Target(prune, saved, current), current, always) && e.diffType != AlwaysSync
    ensures forall e :: e in front ==> e.diffType == Removed && !prune
  {
    var t := Target(prune, saved, current);
    DiffIsExact(t, current, always, Diff(t, current, always));
    hide Diff;
    forall e | e in front ensures e.diffType == Removed && !prune {
      assert Classify(t, current, always, e.key) == Some(e);
    }
  }

  lemma RepeatedCalls(job: Job, prune: bool, front: seq<DiffEntry>, front2: seq<DiffEntry>, tail: seq<DiffEntry>, cluster: Cluster)
    requires forall e :: e in front2 ==> e.diffType == Removed && !prune
    ensures var once := LandAll(CallsOf(job, prune, front + tail), cluster);
            LandAll(CallsOf(job, prune, front2 + tail), once) == once
  {
    CallsAppend(job, prune, front, tail);
    CallsAppend(job, prune, front2, tail);
    if front2 != [] {
      assert front2[0] in front2;
      SkippedMakeNoCalls(job, front2);
    }
    hide LandAll, CallOf;
    assert CallsOf(job, prune, front2) == [];
    assert [] + CallsOf(job, prune, tail) == CallsOf(job, prune, tail);
    RepeatTail(CallsOf(job, prune, front), CallsOf(job, prune, tail), cluster);
  }

  lemma SmoothAgain(opts: Options, job: Job, o: Outcome, front: seq<DiffEntry>, front2: seq<DiffEntry>, tail: seq<DiffEntry>)
    requires forall e :: e in front2 ==> e.diffType == Removed && !opts.prune
    requires front + tail != [] ==> Smooth(opts, job, o, front + tail)
    ensures front2 + tail != [] && front + tail != [] ==> Smooth(opts, job, o, front2 + tail)
  {
    hide ByKey, ObjectOfKey;
    forall e | e in front2 + tail && front + tail != []
      ensures CallOf(job, opts.prune, e).Ok? && (CallOf(job, opts.prune, e).value.Some? ==> e.key !in o.failing)
    {
      if e in tail { assert e in front + tail; }
    }
  }

  /** One failed attempt, then success: the same end as success straight away. */
  lemma RetryConverges(opts: Options, job: Job, failed: Outcome, o: Outcome, w: World)
    requires opts.sync && job.name != "" && w == Restart(w)
    requires RunJob(opts, job, failed, w).0 == Failed && RunJob(opts, job, o, w).0 == Succeeded
    ensures RunJob(opts, job, o, Restart(RunJob(opts, job, failed, w).1)) == RunJob(opts, job, o, w)
  {
    var after := RunJob(opts, job, failed, w).1;
    var d := JobDiff(job, w);
    RunFails(opts, job, failed, w);
    if d != [] && after == Carried(opts, job, d, Stored(w, job.name), w) {
      if opts.atomic {
        LandTouches(CallsOf(job, opts.prune, d), w.cluster);
        hide RunJob, Diff, CallsOf, LandAll, AgreeOutside;
        RetryWithSameState(opts, job, o, w, Restart(after));
      } else {
        RunSucceeds(opts, job, o, w);
        hide RunJob, Diff, CallsOf, LandAll;
        RetryAfterSave(opts, job, o, w);
      }
    } else {
      hide RunJob, Diff, CallsOf, LandAll, AgreeOutside;
      RetryWithSameState(opts, job, o, w, Restart(after));
    }
  }

  // ---------- Any number of failed attempts ----------

  ghost function AfterAttempts(opts: Options, job: Job, attempts: seq<Outcome>, w: World): World {
    if attempts == [] then w
    else AfterAttempts(opts, job, attempts[1..], Restart(RunJob(opts, job, attempts[0], w).1))
  }

  ghost predicate AllFail(opts: Options, job: Job, attempts: seq<Outcome>, w: World) {
    attempts != [] ==>
      && RunJob(opts, job, attempts[0], w).0 == Failed
      && AllFail(opts, job, attempts[1..], Restart(RunJob(opts, job, attempts[0], w).1))
  }

  /** However often and wherever a sync fails first, once it succeeds nothing tells the difference. */
  lemma {:induction false} RetriesConverge(opts: Options, job: Job, attempts: seq<Outcome>, o: Outcome, w: World)
    requires opts.sync && job.name != "" && w == Restart(w)
    requires AllFail(opts, job, attempts, w) && RunJob(opts, job, o, w).0 == Succeeded
    ensures RunJob(opts, job, o, AfterAttempts(opts, job, attempts, w)) == RunJob(opts, job, o, w)
    decreases |attempts|
  {
    if attempts != [] {
      RetryConverges(opts, job, attempts[0], o, w);
      var next := Restart(RunJob(opts, job, attempts[0], w).1);
      hide RunJob;
      RetriesConverge(opts, job, attempts[1..], o, next);
    }
  }

  /** A failed sync whose tests were never reached has left the saved state as it was. */
  lemma FailureKeepsState(opts: Options, job: Job, o: Outcome, w: World)
    requires opts.sync && job.name != "" && RunJob(opts, job, o, w).0 == Failed && o.testsPass
    ensures RunJob(opts, job, o, w).1.store == w.store
  {
    FailsBeforeTests(opts, job, o, Start, w);
  }

  lemma PassingTestsSucceed(opts: Options, job: Job, o: Outcome, w: World)
    requires o.testsPass
    ensures Finish(opts, job, o, Testing, w) == (Succeeded, w)
  {
    var last := Step(opts, job, o, Testing, w);
    assert Finish(opts, job, o, Testing, w) == Finish(opts, job, o, last.0, last.1);
  }

  lemma {:induction false} FailsBeforeTests(opts: Options, job: Job, o: Outcome, p: Phase, w: World)
    requires opts.sync && o.testsPass && !p.Putting? && !p.PlainTesting? && !p.PlainSaving?
    requires Finish(opts, job, o, p, w).0 == Failed
    ensures Finish(opts, job, o, p, w).1.store == w.store
    decreases Stage(p), Todo(p)
  {
    hide Diff, CallOf, Record, Attempt;
    if !Done(p) {
      StepAdvances(opts, job, o, p, w);
      var next := Step(opts, job, o, p, w);
      assert Finish(opts, job, o, p, w) == Finish(opts, job, o, next.0, next.1);
      if next.0 == Testing {
        PassingTestsSucceed(opts, job, o, next.1);
      } else {
        FailsBeforeTests(opts, job, o, next.0, next.1);
      }
    }
  }
}
