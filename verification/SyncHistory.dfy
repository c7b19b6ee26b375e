// Whether the saved state of a manifest still tells the truth about the cluster.
module SyncHistory {
  import opened Common
  import opened StateKeys
  import opened StateDiff
  import opened SyncModel
  import opened SyncEffects

  function SlotOfKey(k: string): Option<Slot> {
    match ObjectOfKey(k)
    case Ok(id) => Some(SlotOf(id))
    case Err(_) => None
  }

  /** The record is true: every saved key is in the cluster, with the content the hash stands for. */
  ghost predicate Truthful(cluster: Cluster, entries: Entries) {
    forall k :: k in entries ==> TrueAt(cluster, entries, k)
  }

  ghost predicate TrueAt(cluster: Cluster, entries: Entries, k: string)
    requires k in entries
  {
    var s := SlotOfKey(k);
    s.Some? && s.value in cluster && cluster[s.value].hash == entries[k]
  }

  /** The names of the build can be printed and read back, as Kubernetes names can. */
  predicate Printable(job: Job) {
    forall o :: o in job.objects ==> SlashFree(StateKey(job.name, o.id))
  }

  lemma KeySlotIsObjectSlot(job: Job, o: Object)
    requires Printable(job) && o in job.objects
    ensures SlotOfKey(KeyOf(job.name, o)) == Some(SlotOf(o.id))
  {
    ParseInvertsToString(StateKey(job.name, o.id));
    hide Parse, ToString;
  }

  /** The call of a diff entry on a key of the build puts the build's content into the key's slot. */
  lemma PutOfKey(job: Job, prune: bool, e: DiffEntry)
    requires Printable(job) && e.diffType != Removed && e.key in Current(job) && e.newHash == Current(job)[e.key]
    ensures exists s, content ::
              CallOf(job, prune, e) == Ok(Some(Put(s, content))) && SlotOfKey(e.key) == Some(s) && content.hash == e.newHash
  {
    var o := ByKey(job.name, job.objects)[e.key];
    KeySlotIsObjectSlot(job, o);
    hide ByKey, EntriesOf, SlotOfKey;
    assert CallOf(job, prune, e) == Ok(Some(Put(SlotOf(o.id), o.content)));
  }

  // ---------- The last call on a slot decides ----------

  /** `e` calls on slot `s` when it is carried out. */
  ghost predicate CallsOn(job: Job, prune: bool, e: DiffEntry, s: Slot) {
    var c := CallOf(job, prune, e);
    c.Ok? && c.value.Some? && c.value.value.slot == s
  }

  function AfterFirst(job: Job, prune: bool, todo: seq<DiffEntry>, cluster: Cluster): Cluster
    requires todo != []
  {
    match CallOf(job, prune, todo[0])
    case Ok(Some(c)) => Land(c, cluster)
    case _ => cluster
  }

  lemma LandFirst(job: Job, prune: bool, todo: seq<DiffEntry>, cluster: Cluster)
    requires todo != []
    ensures LandAll(CallsOf(job, prune, todo), cluster) == LandAll(CallsOf(job, prune, todo[1..]), AfterFirst(job, prune, todo, cluster))
  {
    hide CallOf;
  }

  lemma {:induction false} Untouched(job: Job, prune: bool, todo: seq<DiffEntry>, cluster: Cluster, s: Slot)
    requires forall e :: e in todo ==> !CallsOn(job, prune, e, s)
    ensures SameAt(LandAll(CallsOf(job, prune, todo), cluster), cluster, s)
  {
    if todo != [] {
      assert todo == [todo[0]] + todo[1..];
      assert !CallsOn(job, prune, todo[0], s);
      LandFirst(job, prune, todo, cluster);
      hide CallOf, LandAll, CallsOf;
      Untouched(job, prune, todo[1..], AfterFirst(job, prune, todo, cluster), s);
    }
  }

  /** The entry after which no other calls on the slot leaves its content there, or nothing. */
  lemma {:induction false} LastCallStays(job: Job, prune: bool, todo: seq<DiffEntry>, cluster: Cluster, e: DiffEntry, c: Call)
    requires Sorted(todo) && e in todo && CallOf(job, prune, e) == Ok(Some(c))
    requires forall x :: x in todo && x != e && CallsOn(job, prune, x, c.slot) ==> Less(x, e)
    ensures SameAt(LandAll(CallsOf(job, prune, todo), cluster), Land(c, map[]), c.slot)
  {
    LandFirst(job, prune, todo, cluster);
    HeadOrTail(todo);
    hide *;
    if e in todo[1..] {
      SortedTail(todo);
      LastCallStays(job, prune, todo[1..], AfterFirst(job, prune, todo, cluster), e, c);
    } else {
      assert todo[0] == e;
      LandsFirst(job, prune, todo, cluster, c);
      forall x | x in todo[1..] ensures !CallsOn(job, prune, x, c.slot) {
        HeadIsLeast(todo, x);
      }
      Untouched(job, prune, todo[1..], Land(c, cluster), c.slot);
      LandedAt(c, cluster);
    }
  }

  lemma HeadOrTail(todo: seq<DiffEntry>)
    requires todo != []
    ensures forall x :: x in todo <==> x == todo[0] || x in todo[1..]
  {
    assert todo == [todo[0]] + todo[1..];
  }

  lemma SortedTail(todo: seq<DiffEntry>)
    requires Sorted(todo) && todo != []
    ensures Sorted(todo[1..])
  {
    hide Less;
  }

  lemma LandsFirst(job: Job, prune: bool, todo: seq<DiffEntry>, cluster: Cluster, c: Call)
    requires todo != [] && CallOf(job, prune, todo[0]) == Ok(Some(c))
    ensures AfterFirst(job, prune, todo, cluster) == Land(c, cluster)
  {
  }

  lemma LandedAt(c: Call, cluster: Cluster)
    ensures forall after: Cluster :: SameAt(after, Land(c, cluster), c.slot) ==> SameAt(after, Land(c, map[]), c.slot)
  {
  }

  lemma HeadIsLeast(todo: seq<DiffEntry>, x: DiffEntry)
    requires Sorted(todo) && todo != [] && x in todo[1..]
    ensures x != todo[0] && !Less(x, todo[0])
  {
    var j :| 0 <= j < |todo[1..]| && todo[1..][j] == x;
    assert Less(todo[0], todo[j + 1]);
    LessIsOrder(todo[0], x, x);
  }

  // ---------- What a run leaves in each slot ----------

  /** Facts about each entry of a diff, without looking at how it is sorted. */
  lemma DiffEntryOf(saved: Entries, job: Job, e: DiffEntry)
    requires e in Diff(saved, Current(job), AlwaysKeys(job))
    ensures Classify(saved, Current(job), AlwaysKeys(job), e.key) == Some(e)
    ensures e.diffType == Removed ==> e.key in saved && e.key !in Current(job)
    ensures e.diffType != Removed ==> e.key in Current(job) && e.newHash == Current(job)[e.key]
    ensures e.diffType == AlwaysSync <==> e.diffType != Removed && job.alwaysSync
  {
    DiffIsExact(saved, Current(job), AlwaysKeys(job), Diff(saved, Current(job), AlwaysKeys(job)));
    hide Diff;
    assert Classify(saved, Current(job), AlwaysKeys(job), e.key) == Some(e);
  }

  lemma DiffIsSorted(saved: Entries, job: Job)
    ensures Sorted(Diff(saved, Current(job), AlwaysKeys(job)))
  {
    DiffIsExact(saved, Current(job), AlwaysKeys(job), Diff(saved, Current(job), AlwaysKeys(job)));
  }

  /** The entry is about slot `s`, and not one that a run without prune skips. */
  ghost predicate Touches(prune: bool, e: DiffEntry, s: Slot) {
    SlotOfKey(e.key) == Some(s) && (e.diffType == Removed ==> prune)
  }

  lemma TouchesIsCallsOn(saved: Entries, job: Job, prune: bool, e: DiffEntry, s: Slot)
    requires Printable(job) && e in Diff(saved, Current(job), AlwaysKeys(job))
    ensures Touches(prune, e, s) <==> CallsOn(job, prune, e, s)
  {
    DiffEntryOf(saved, job, e);
    hide Diff, EntriesOf, ByKey;
    if e.diffType != Removed {
      PutOfKey(job, prune, e);
    }
  }

  /** The last entry that touches the slot. */
  ghost function LastTouch(prune: bool, d: seq<DiffEntry>, s: Slot): Option<DiffEntry> {
    if d == [] then None
    else if Touches(prune, d[|d| - 1], s) then Some(d[|d| - 1])
    else LastTouch(prune, d[..|d| - 1], s)
  }

  ghost predicate NoneTouches(prune: bool, d: seq<DiffEntry>, s: Slot) {
    forall x :: x in d ==> !Touches(prune, x, s)
  }

  /** Among the entries of `d` that touch the slot, `e` is carried out last. */
  ghost predicate DecidesSlot(prune: bool, d: seq<DiffEntry>, e: DiffEntry, s: Slot) {
    e in d && Touches(prune, e, s) && forall x :: x in d && x != e && Touches(prune, x, s) ==> Less(x, e)
  }

  lemma LastIsGreatest(front: seq<DiffEntry>, last: DiffEntry)
    requires Sorted(front + [last])
    ensures Sorted(front)
    ensures forall x :: x in front + [last] <==> x in front || x == last
    ensures forall x :: x in front ==> Less(x, last)
  {
    hide Less;
    var d := front + [last];
    forall x | x in front ensures Less(x, last) {
      var i :| 0 <= i < |front| && front[i] == x;
      assert Less(d[i], d[|front|]);
    }
    forall i, j | 0 <= i < j < |front| ensures Less(front[i], front[j]) {
      assert Less(d[i], d[j]);
    }
  }

  lemma {:induction false} LastTouchIsLast(prune: bool, d: seq<DiffEntry>, s: Slot)
    requires Sorted(d)
    ensures match LastTouch(prune, d, s)
            case None => NoneTouches(prune, d, s)
            case Some(e) => DecidesSlot(prune, d, e, s)
  {
    if d == [] {
    } else {
      hide *;
      var front, last := d[..|d| - 1], d[|d| - 1];
      LastTouchStep(prune, d, s);
      LastIsGreatest(front, last);
      LastTouchIsLast(prune, front, s);
      OneEntryMore(prune, front, last, s);
    }
  }

  lemma LastTouchStep(prune: bool, d: seq<DiffEntry>, s: Slot)
    requires d != []
    ensures var front, last := d[..|d| - 1], d[|d| - 1];
            d == front + [last] && LastTouch(prune, d, s) == if Touches(prune, last, s) then Some(last) else LastTouch(prune, front, s)
  {
    hide Touches;
  }

  lemma OneEntryMore(prune: bool, front: seq<DiffEntry>, last: DiffEntry, s: Slot)
    requires Sorted(front + [last])
    ensures Touches(prune, last, s) ==> DecidesSlot(prune, front + [last], last, s)
    ensures !Touches(prune, last, s) && NoneTouches(prune, front, s) ==> NoneTouches(prune, front + [last], s)
    ensures forall e :: !Touches(prune, last, s) && DecidesSlot(prune, front, e, s) ==> DecidesSlot(prune, front + [last], e, s)
  {
    LastIsGreatest(front, last);
    hide Touches, Less, Sorted;
  }

  /** The last entry that touches a slot decides what the slot holds; untouched slots stay. */
  lemma SlotAfter(job: Job, prune: bool, saved: Entries, cluster: Cluster, s: Slot)
    requires Printable(job)
    ensures var d := Diff(saved, Current(job), AlwaysKeys(job));
            var after := LandAll(CallsOf(job, prune, d), cluster);
            match LastTouch(prune, d, s)
            case None => SameAt(after, cluster, s)
            case Some(e) => if e.diffType == Removed then s !in after else s in after && after[s].hash == e.newHash
  {
    var d := Diff(saved, Current(job), AlwaysKeys(job));
    DiffIsSorted(saved, job);
    LastTouchIsLast(prune, d, s);
    hide Diff, LastTouch, Touches, LandAll, CallsOf, Sorted, Less;
    forall x | x in d ensures Touches(prune, x, s) <==> CallsOn(job, prune, x, s) {
      TouchesIsCallsOn(saved, job, prune, x, s);
    }
    match LastTouch(prune, d, s)
    case None => Untouched(job, prune, d, cluster, s);
    case Some(e) =>
      var c := DecidingCall(saved, job, prune, e, s);
      LastCallStays(job, prune, d, cluster, e, c);
  }

  lemma DecidingCall(saved: Entries, job: Job, prune: bool, e: DiffEntry, s: Slot) returns (c: Call)
    requires Printable(job) && e in Diff(saved, Current(job), AlwaysKeys(job)) && CallsOn(job, prune, e, s)
    ensures CallOf(job, prune, e) == Ok(Some(c)) && c.slot == s
    ensures if e.diffType == Removed then c == Delete(s) else c.Put? && c.content.hash == e.newHash
  {
    DiffEntryOf(saved, job, e);
    hide Diff, EntriesOf, ByKey, SlotOfKey;
    if e.diffType != Removed {
      PutOfKey(job, prune, e);
    }
    c := CallOf(job, prune, e).value.value;
  }

  /** What a successful run that saves as it goes leaves, in one formula. */
  lemma RunLands(opts: Options, job: Job, o: Outcome, w: World)
    requires opts.sync && !opts.atomic && job.name != "" && RunJob(opts, job, o, w).0 == Succeeded
    ensures var after := RunJob(opts, job, o, w).1;
            && after.cluster == LandAll(CallsOf(job, opts.prune, JobDiff(job, w)), w.cluster)
            && Stored(after, job.name) == Target(opts.prune, Stored(w, job.name), Current(job))
  {
    RunStoresTarget(opts, job, o, w);
    RunSucceeds(opts, job, o, w);
    hide RunJob, Diff, RecordAll, Current;
  }

  // ---------- Exactly when the record is true after a run ----------

  /** What will be recorded of `k` is what its slot will hold: the last entry of the diff that
      touches the slot writes that content, or none does and the content is there already. */
  ghost predicate ComesTrue(job: Job, prune: bool, saved: Entries, cluster: Cluster, k: string)
    requires k in Target(prune, saved, Current(job))
  {
    var hash := Target(prune, saved, Current(job))[k];
    && SlotOfKey(k).Some?
    && var s := SlotOfKey(k).value;
       match LastTouch(prune, Diff(saved, Current(job), AlwaysKeys(job)), s)
       case None => s in cluster && cluster[s].hash == hash
       case Some(e) => e.diffType != Removed && e.newHash == hash
  }

  /** The setting of one successful sync that saves as it goes, with or without prune. */
  ghost predicate SyncRun(opts: Options, job: Job, o: Outcome, w: World) {
    opts.sync && !opts.atomic && job.name != "" && Printable(job) && RunJob(opts, job, o, w).0 == Succeeded
  }

  lemma KeyTrueIff(job: Job, prune: bool, saved: Entries, cluster: Cluster, k: string)
    requires Printable(job) && k in Target(prune, saved, Current(job))
    ensures TrueAt(LandAll(CallsOf(job, prune, Diff(saved, Current(job), AlwaysKeys(job))), cluster),
                   Target(prune, saved, Current(job)), k)
            <==> ComesTrue(job, prune, saved, cluster, k)
  {
    hide Diff, EntriesOf, SlotOfKey, LandAll, CallsOf, LastTouch, Target;
    if SlotOfKey(k).Some? {
      SlotAfter(job, prune, saved, cluster, SlotOfKey(k).value);
    }
  }

  /** Whatever was recorded and whatever was in the cluster: after a successful sync the record is
      true exactly when every key to be recorded comes true, which the diff shows beforehand. */
  lemma RecordTrueIff(opts: Options, job: Job, o: Outcome, w: World)
    requires SyncRun(opts, job, o, w)
    ensures var after, saved := RunJob(opts, job, o, w).1, Stored(w, job.name);
            Truthful(after.cluster, Stored(after, job.name))
            <==> forall k :: k in Target(opts.prune, saved, Current(job)) ==> ComesTrue(job, opts.prune, saved, w.cluster, k)
  {
    var saved := Stored(w, job.name);
    RunLands(opts, job, o, w);
    hide RunJob, Diff, CallsOf, LandAll, EntriesOf, SlotOfKey, Target, ComesTrue, TrueAt;
    forall k | k in Target(opts.prune, saved, Current(job)) {
      KeyTrueIff(job, opts.prune, saved, w.cluster, k);
    }
  }

  /** No two of the keys are the same resource under two API versions. */
  ghost predicate OneKeyPerSlot(keys: set<string>) {
    forall a, b :: a in keys && b in keys && SlotOfKey(a) == SlotOfKey(b) ==> a == b
  }

  /** The recorded key `r`, dropped by the build, is the same resource as `c`. */
  ghost predicate DroppedTwin(job: Job, saved: Entries, r: string, c: string) {
    r in saved && r !in Current(job) && SlotOfKey(r) == SlotOfKey(c)
  }

  /** Prune deletes the resource of the build key `c` after applying it, under a dropped key; an
      always-synced build is applied after the deletions. */
  ghost predicate Swapped(job: Job, saved: Entries, c: string) {
    !job.alwaysSync && exists r :: DroppedTwin(job, saved, r, c)
  }

  /** The diff has an entry for the key. */
  predicate Listed(job: Job, saved: Entries, k: string) {
    Classify(saved, Current(job), AlwaysKeys(job), k).Some?
  }

  lemma ListedIsInDiff(job: Job, saved: Entries, k: string)
    requires Listed(job, saved, k)
    ensures Classify(saved, Current(job), AlwaysKeys(job), k).value in Diff(saved, Current(job), AlwaysKeys(job))
  {
    DiffIsExact(saved, Current(job), AlwaysKeys(job), Diff(saved, Current(job), AlwaysKeys(job)));
    hide Diff;
  }

  /** Which entry decides the slot of a build key. */
  lemma LastTouchOfBuildKey(job: Job, prune: bool, saved: Entries, c: string)
    requires Printable(job) && c in Current(job) && OneKeyPerSlot(Current(job).Keys) && SlotOfKey(c).Some?
    ensures match LastTouch(prune, Diff(saved, Current(job), AlwaysKeys(job)), SlotOfKey(c).value)
            case None => !Listed(job, saved, c) && !(prune && Swapped(job, saved, c))
            case Some(e) =>
              if prune && Swapped(job, saved, c) then e.diffType == Removed
              else e.diffType != Removed && e.key == c && Listed(job, saved, c) && e.newHash == Current(job)[c]
  {
    var d, s := Diff(saved, Current(job), AlwaysKeys(job)), SlotOfKey(c).value;
    DiffIsSorted(saved, job);
    LastTouchIsLast(prune, d, s);
    var last := LastTouch(prune, d, s);
    if prune && Swapped(job, saved, c) {
      SwappedDecides(job, saved, c, last);
    } else if last.Some? {
      BuildKeyDecides(job, prune, saved, c, last.value);
    } else if Listed(job, saved, c) {
      ListedTouches(job, prune, saved, c);
    }
    hide *;
  }

  lemma ListedTouches(job: Job, prune: bool, saved: Entries, c: string)
    requires c in Current(job) && SlotOfKey(c).Some? && Listed(job, saved, c)
    ensures !NoneTouches(prune, Diff(saved, Current(job), AlwaysKeys(job)), SlotOfKey(c).value)
  {
    ListedIsInDiff(job, saved, c);
    hide Diff, EntriesOf, SlotOfKey;
    assert Touches(prune, Classify(saved, Current(job), AlwaysKeys(job), c).value, SlotOfKey(c).value);
  }

  lemma SwappedDecides(job: Job, saved: Entries, c: string, last: Option<DiffEntry>)
    requires Printable(job) && c in Current(job) && SlotOfKey(c).Some? && Swapped(job, saved, c)
    requires var d, s := Diff(saved, Current(job), AlwaysKeys(job)), SlotOfKey(c).value;
             if last.Some? then DecidesSlot(true, d, last.value, s) else NoneTouches(true, d, s)
    ensures last.Some? && last.value.diffType == Removed
  {
    var r :| DroppedTwin(job, saved, r, c);
    hide *;
    TwinDecides(job, saved, r, c, last);
  }

  lemma TwinDecides(job: Job, saved: Entries, r: string, c: string, last: Option<DiffEntry>)
    requires Printable(job) && c in Current(job) && SlotOfKey(c).Some? && !job.alwaysSync && DroppedTwin(job, saved, r, c)
    requires var d, s := Diff(saved, Current(job), AlwaysKeys(job)), SlotOfKey(c).value;
             if last.Some? then DecidesSlot(true, d, last.value, s) else NoneTouches(true, d, s)
    ensures last.Some? && last.value.diffType == Removed
  {
    var x := Classify(saved, Current(job), AlwaysKeys(job), r).value;
    ListedIsInDiff(job, saved, r);
    hide Diff, EntriesOf, SlotOfKey, LexLess;
    assert Touches(true, x, SlotOfKey(c).value);
    DiffEntryOf(saved, job, last.value);
  }

  lemma BuildKeyDecides(job: Job, prune: bool, saved: Entries, c: string, e: DiffEntry)
    requires Printable(job) && c in Current(job) && OneKeyPerSlot(Current(job).Keys) && SlotOfKey(c).Some?
    requires DecidesSlot(prune, Diff(saved, Current(job), AlwaysKeys(job)), e, SlotOfKey(c).value)
    requires prune ==> !Swapped(job, saved, c)
    ensures e.diffType != Removed && e.key == c && Listed(job, saved, c) && e.newHash == Current(job)[c]
  {
    DiffEntryOf(saved, job, e);
    if job.alwaysSync {
      AlwaysSyncedComesLast(job, prune, saved, c, e);
    } else {
      assert e.diffType == Removed ==> DroppedTwin(job, saved, e.key, c);
    }
    hide Diff, EntriesOf, SlotOfKey, Less;
  }

  lemma AlwaysSyncedComesLast(job: Job, prune: bool, saved: Entries, c: string, e: DiffEntry)
    requires c in Current(job) && SlotOfKey(c).Some? && job.alwaysSync
    requires DecidesSlot(prune, Diff(saved, Current(job), AlwaysKeys(job)), e, SlotOfKey(c).value)
    ensures e.diffType == AlwaysSync
  {
    ListedIsInDiff(job, saved, c);
    var x := DiffEntry(c, AlwaysSync, "", Current(job)[c]);
    assert Classify(saved, Current(job), AlwaysKeys(job), c) == Some(x);
    assert Touches(prune, x, SlotOfKey(c).value);
    hide Diff, EntriesOf, SlotOfKey, LexLess, Classify;
  }

  /** After a successful prune run the record is true exactly when prune deletes no build key under
      another name, and every build key is in the diff or was rightly recorded before. */
  lemma PruneKeepsRecordTrueIff(opts: Options, job: Job, o: Outcome, w: World)
    requires SyncRun(opts, job, o, w) && opts.prune && OneKeyPerSlot(Current(job).Keys)
    ensures var after, saved := RunJob(opts, job, o, w).1, Stored(w, job.name);
            Truthful(after.cluster, Stored(after, job.name))
            <==> forall c :: c in Current(job) ==>
                   !Swapped(job, saved, c) && (Listed(job, saved, c) || TrueAt(w.cluster, saved, c))
  {
    var saved := Stored(w, job.name);
    RecordTrueIff(opts, job, o, w);
    forall c | c in Current(job) ensures SlotOfKey(c).Some? {
      BuildKeyHasSlot(job, c);
    }
    hide RunJob, Diff, EntriesOf, SlotOfKey, LastTouch, Truthful;
    forall c | c in Current(job)
      ensures ComesTrue(job, true, saved, w.cluster, c)
              <==> !Swapped(job, saved, c) && (Listed(job, saved, c) || TrueAt(w.cluster, saved, c))
    {
      LastTouchOfBuildKey(job, true, saved, c);
    }
  }

  lemma BuildKeyHasSlot(job: Job, c: string)
    requires Printable(job) && c in Current(job)
    ensures SlotOfKey(c).Some?
  {
    KeySlotIsObjectSlot(job, ByKey(job.name, job.objects)[c]);
  }

  /** No dropped key is the same resource as a build key. */
  ghost predicate NoVersionSwap(job: Job, saved: Entries) {
    job.alwaysSync || forall r, c :: c in Current(job) ==> !DroppedTwin(job, saved, r, c)
  }

  /** So a true record stays true under prune exactly when there is no such pair. */
  lemma PruneKeepsTrueRecordIff(opts: Options, job: Job, o: Outcome, w: World)
    requires SyncRun(opts, job, o, w) && opts.prune && OneKeyPerSlot(Current(job).Keys)
    requires Truthful(w.cluster, Stored(w, job.name))
    ensures var after := RunJob(opts, job, o, w).1;
            Truthful(after.cluster, Stored(after, job.name)) <==> NoVersionSwap(job, Stored(w, job.name))
  {
    PruneKeepsRecordTrueIff(opts, job, o, w);
    hide RunJob, EntriesOf, SlotOfKey;
  }

  /** Without prune a true record stays true exactly when a build key is recorded with the same hash
      as every dropped key that is the same resource: both stay recorded, over one slot. */
  lemma AddingKeepsTrueRecordIff(opts: Options, job: Job, o: Outcome, w: World)
    requires SyncRun(opts, job, o, w) && !opts.prune && OneKeyPerSlot(Current(job).Keys)
    requires Truthful(w.cluster, Stored(w, job.name))
    ensures var after, saved := RunJob(opts, job, o, w).1, Stored(w, job.name);
            Truthful(after.cluster, Stored(after, job.name))
            <==> forall r, c :: c in Current(job) && DroppedTwin(job, saved, r, c) ==> saved[r] == Current(job)[c]
  {
    var saved := Stored(w, job.name);
    RecordTrueIff(opts, job, o, w);
    forall c | c in Current(job) ensures SlotOfKey(c).Some? {
      BuildKeyHasSlot(job, c);
    }
    hide RunJob, Diff, EntriesOf, SlotOfKey, LastTouch;
    forall c | c in Current(job) ensures ComesTrue(job, false, saved, w.cluster, c) {
      LastTouchOfBuildKey(job, false, saved, c);
      assert !Listed(job, saved, c) ==> TrueAt(w.cluster, saved, c);
    }
    forall r | r in saved && r !in Current(job)
      ensures ComesTrue(job, false, saved, w.cluster, r)
              <==> forall c :: c in Current(job) && DroppedTwin(job, saved, r, c) ==> saved[r] == Current(job)[c]
    {
      assert TrueAt(w.cluster, saved, r);
      DroppedKeyStandsIff(job, saved, w.cluster, r);
    }
  }

  lemma DroppedKeyStandsIff(job: Job, saved: Entries, cluster: Cluster, r: string)
    requires Printable(job) && OneKeyPerSlot(Current(job).Keys) && Truthful(cluster, saved)
    requires r in saved && r !in Current(job) && SlotOfKey(r).Some?
    ensures ComesTrue(job, false, saved, cluster, r)
            <==> forall c :: c in Current(job) && DroppedTwin(job, saved, r, c) ==> saved[r] == Current(job)[c]
  {
    var d, s := Diff(saved, Current(job), AlwaysKeys(job)), SlotOfKey(r).value;
    DiffIsSorted(saved, job);
    LastTouchIsLast(false, d, s);
    hide Diff, EntriesOf, SlotOfKey, LastTouch, Sorted;
    assert TrueAt(cluster, saved, r);
    match LastTouch(false, d, s) {
      case Some(e) =>
        DiffEntryOf(saved, job, e);
        assert DroppedTwin(job, saved, r, e.key);
      case None =>
        forall c | c in Current(job) && DroppedTwin(job, saved, r, c) ensures saved[r] == Current(job)[c] {
          if Listed(job, saved, c) { ListedIsInDiff(job, saved, c); }
          assert TrueAt(cluster, saved, c);
        }
    }
  }

  // ---------- A version bump loses the resource ----------

  /** A successful prune run with a dropped key that is the same resource as a build key deletes the
      resource and records it. */
  lemma SwapLosesResource(opts: Options, job: Job, o: Outcome, w: World, r: string, c: string)
    requires SyncRun(opts, job, o, w) && opts.prune && !job.alwaysSync
    requires c in Current(job) && DroppedTwin(job, Stored(w, job.name), r, c)
    ensures var after := RunJob(opts, job, o, w).1;
            c in Stored(after, job.name) && SlotOfKey(c).Some? && SlotOfKey(c).value !in after.cluster
  {
    var saved := Stored(w, job.name);
    RunLands(opts, job, o, w);
    BuildKeyHasSlot(job, c);
    var d, s := Diff(saved, Current(job), AlwaysKeys(job)), SlotOfKey(c).value;
    SlotAfter(job, true, saved, w.cluster, s);
    DiffIsSorted(saved, job);
    LastTouchIsLast(true, d, s);
    hide RunJob, Diff, EntriesOf, SlotOfKey, LastTouch, LandAll, CallsOf, Sorted, Less, DecidesSlot, Touches, DroppedTwin;
    TwinDecides(job, saved, r, c, LastTouch(true, d, s));
  }

  /** A sync without prune that moves a resource to another API version keeps both keys recorded; a
      later prune sync of the very same build then deletes the resource, which is live until then. */
  lemma LossIsDelayed(opts: Options, job: Job, o: Outcome, again: Outcome, w: World, r: string, c: string)
    requires SyncRun(opts, job, o, w) && !opts.prune && !job.alwaysSync && Truthful(w.cluster, Stored(w, job.name))
    requires c in Current(job) && DroppedTwin(job, Stored(w, job.name), r, c)
    requires SyncRun(opts.(prune := true), job, again, RunJob(opts, job, o, w).1)
    ensures var after := RunJob(opts, job, o, w).1; var later := RunJob(opts.(prune := true), job, again, after).1;
            && SlotOfKey(c).Some? && SlotOfKey(c).value in after.cluster
            && SlotOfKey(c).value !in later.cluster && c in Stored(later, job.name)
  {
    var saved, after := Stored(w, job.name), RunJob(opts, job, o, w).1;
    RunLands(opts, job, o, w);
    BuildKeyHasSlot(job, c);
    StaysLive(job, saved, w.cluster, r, c);
    hide RunJob, Diff, EntriesOf, SlotOfKey, LandAll, CallsOf;
    assert DroppedTwin(job, Stored(after, job.name), r, c);
    SwapLosesResource(opts.(prune := true), job, again, after, r, c);
  }

  lemma StaysLive(job: Job, saved: Entries, cluster: Cluster, r: string, c: string)
    requires Printable(job) && Truthful(cluster, saved) && c in Current(job) && DroppedTwin(job, saved, r, c) && SlotOfKey(c).Some?
    ensures SlotOfKey(c).value in LandAll(CallsOf(job, false, Diff(saved, Current(job), AlwaysKeys(job))), cluster)
  {
    var d, s := Diff(saved, Current(job), AlwaysKeys(job)), SlotOfKey(c).value;
    SlotAfter(job, false, saved, cluster, s);
    DiffIsSorted(saved, job);
    LastTouchIsLast(false, d, s);
    hide Diff, EntriesOf, SlotOfKey, LastTouch, LandAll, CallsOf, Sorted;
    assert TrueAt(cluster, saved, r);
  }

  /** The whole world of one manifest that has applied one object. */
  function OneObjectWorld(name: string, o: Object): World {
    World(map[SlotOf(o.id) := o.content], map[name := map[KeyOf(name, o) := o.content.hash]], map[])
  }

  lemma OneObjectFacts(name: string, o: Object)
    requires SlashFree(StateKey(name, o.id))
    ensures Current(Job(name, [o], false)) == map[KeyOf(name, o) := o.content.hash]
    ensures Stored(OneObjectWorld(name, o), name) == map[KeyOf(name, o) := o.content.hash]
    ensures Truthful(OneObjectWorld(name, o).cluster, Stored(OneObjectWorld(name, o), name))
    ensures SlotOfKey(KeyOf(name, o)) == Some(SlotOf(o.id)) && Printable(Job(name, [o], false))
  {
    KeySlotIsObjectSlot(Job(name, [o], false), o);
    hide KeyOf, SlotOfKey;
    assert EntriesOf(name, []) == map[];
  }

  /** Any object moved to another API version and synced with prune is applied under its new key
      and then deleted under its old one, yet recorded as present. */
  lemma VersionBumpLosesResource(name: string, before: Object, bumped: Object)
    requires name != "" && SlashFree(StateKey(name, before.id)) && SlashFree(StateKey(name, bumped.id))
    requires bumped.id.version != before.id.version && bumped.id == before.id.(version := bumped.id.version)
    ensures var w := OneObjectWorld(name, before);
            var r := RunJob(Options(true, true, false), Job(name, [bumped], false),
                            Outcome(true, true, {}, {}, true, true, true), w);
            && Truthful(w.cluster, Stored(w, name))
            && r.0 == Succeeded
            && Stored(r.1, name) == map[KeyOf(name, bumped) := bumped.content.hash]
            && SlotOf(bumped.id) !in r.1.cluster
  {
    var w, job := OneObjectWorld(name, before), Job(name, [bumped], false);
    var opts, o := Options(true, true, false), Outcome(true, true, {}, {}, true, true, true);
    OneObjectFacts(name, before);
    OneObjectFacts(name, bumped);
    if KeyOf(name, before) == KeyOf(name, bumped) {
      KeysAreDistinct(StateKey(name, before.id), StateKey(name, bumped.id));
    }
    hide KeyOf, EntriesOf, SlotOfKey, RunJob, OneObjectWorld, TrueAt;
    BumpLoses(opts, job, o, w, KeyOf(name, before), KeyOf(name, bumped));
  }

  lemma BumpLoses(opts: Options, job: Job, o: Outcome, w: World, rk: string, ck: string)
    requires opts == Options(true, true, false) && o == Outcome(true, true, {}, {}, true, true, true)
    requires job.name != "" && Printable(job) && !job.alwaysSync
    requires rk != ck && Stored(w, job.name).Keys == {rk} && Current(job).Keys == {ck} && SlotOfKey(rk) == SlotOfKey(ck)
    ensures var r := RunJob(opts, job, o, w);
            && r.0 == Succeeded && Stored(r.1, job.name) == Current(job)
            && SlotOfKey(ck).Some? && SlotOfKey(ck).value !in r.1.cluster
  {
    BuildKeyHasSlot(job, ck);
    hide RunJob, SlotOfKey, EntriesOf, Stored;
    BumpRuns(opts, job, o, w, rk, ck);
    assert DroppedTwin(job, Stored(w, job.name), rk, ck);
    SwapLosesResource(opts, job, o, w, rk, ck);
    RunStoresTarget(opts, job, o, w);
  }

  lemma BumpRuns(opts: Options, job: Job, o: Outcome, w: World, rk: string, ck: string)
    requires opts == Options(true, true, false) && o == Outcome(true, true, {}, {}, true, true, true)
    requires job.name != "" && Printable(job) && !job.alwaysSync
    requires rk != ck && Stored(w, job.name).Keys == {rk} && Current(job).Keys == {ck}
    requires SlotOfKey(rk).Some?
    ensures RunJob(opts, job, o, w).0 == Succeeded
  {
    var d := JobDiff(job, w);
    RunSucceeds(opts, job, o, w);
    hide RunJob, SlotOf, KeyOf, EntriesOf;
    forall e | e in d ensures CallOf(job, true, e).Ok? {
      DiffEntryOf(Stored(w, job.name), job, e);
      hide Diff;
      if e.diffType != Removed { PutOfKey(job, true, e); }
    }
  }
}
