// What applying or syncing one manifest does, read off its objects, the saved entries and which of
// its calls fail, without the steps that do it.
module ApplyMeaning {
  import opened Common
  import opened StateKeys
  import opened StateDiff
  import opened SyncModel
  import opened SyncEffects

  /** The API server sees the object as the resource `s`; its API version makes no difference. */
  predicate IsAt(id: ObjectId, s: Slot) {
    id.group == s.group && id.kind == s.kind && id.namespace == s.namespace && id.name == s.name
  }

  lemma IsAtSlot(id: ObjectId, s: Slot)
    ensures IsAt(id, s) <==> SlotOf(id) == s
  {
  }

  predicate HasKey(name: string, o: Object, k: string) {
    ToString(StateKey(name, o.id)) == k
  }

  // ---------- The entries of a build ----------

  /** Object `i` of the build is the last one with key `k`. */
  predicate LastOfKey(name: string, objects: seq<Object>, i: nat, k: string) {
    i < |objects| && HasKey(name, objects[i], k) && forall j :: i < j < |objects| ==> !HasKey(name, objects[j], k)
  }

  predicate Builds(name: string, objects: seq<Object>, k: string) {
    exists o :: o in objects && HasKey(name, o, k)
  }

  /** The entries list the keys of the build, each with the hash of its last object. */
  ghost predicate ListsBuild(name: string, objects: seq<Object>, entries: Entries) {
    && (forall k :: k in entries <==> Builds(name, objects, k))
    && forall i: nat, k :: LastOfKey(name, objects, i, k) ==> k in entries && entries[k] == objects[i].content.hash
  }

  lemma LastOfOneMore(name: string, front: seq<Object>, last: Object, i: nat, k: string)
    ensures LastOfKey(name, front + [last], i, k) <==>
            if HasKey(name, last, k) then i == |front| else LastOfKey(name, front, i, k)
  {
    hide HasKey;
    var objects := front + [last];
    assert objects[|front|] == last;
    if i < |front| {
      assert objects[i] == front[i];
      if LastOfKey(name, front, i, k) && !HasKey(name, last, k) {
        assert forall j :: i < j < |objects| ==> objects[j] == if j < |front| then front[j] else last;
      }
      if LastOfKey(name, objects, i, k) {
        assert forall j :: i < j < |front| ==> front[j] == objects[j];
      }
    }
  }

  lemma BuildsOneMore(name: string, front: seq<Object>, last: Object, k: string)
    ensures Builds(name, front + [last], k) <==> Builds(name, front, k) || HasKey(name, last, k)
  {
    hide HasKey;
    assert last in front + [last];
  }

  lemma {:induction false} EntriesListBuild(name: string, objects: seq<Object>)
    ensures ListsBuild(name, objects, EntriesOf(name, objects))
  {
    if objects != [] {
      var front, last := objects[..|objects| - 1], objects[|objects| - 1];
      var key := KeyOf(name, last);
      assert objects == front + [last];
      assert EntriesOf(name, objects) == EntriesOf(name, front)[key := last.content.hash];
      assert forall k :: HasKey(name, last, k) <==> k == key;
      hide *;
      EntriesListBuild(name, front);
      ListsOneMore(name, front, last, key, EntriesOf(name, front));
    }
  }

  lemma ListsOneMore(name: string, front: seq<Object>, last: Object, key: string, entries: Entries)
    requires ListsBuild(name, front, entries) && forall k :: HasKey(name, last, k) <==> k == key
    ensures ListsBuild(name, front + [last], entries[key := last.content.hash])
  {
    hide HasKey, LastOfKey, Builds;
    forall k ensures Builds(name, front + [last], k) <==> Builds(name, front, k) || k == key {
      BuildsOneMore(name, front, last, k);
    }
    var objects, more := front + [last], entries[key := last.content.hash];
    forall i: nat, k | LastOfKey(name, objects, i, k) ensures i < |objects| && k in more && more[k] == objects[i].content.hash {
      LastOfOneMore(name, front, last, i, k);
      if k != key { LastInRange(name, front, i, k); }
    }
    forall i: nat, k | LastOfKey(name, objects, i, k) ensures k in more && more[k] == objects[i].content.hash {
    }
  }

  lemma LastInRange(name: string, objects: seq<Object>, i: nat, k: string)
    requires LastOfKey(name, objects, i, k)
    ensures i < |objects|
  {
  }

  /** The object a sync applies for a key is the last one with the key. */
  lemma {:induction false} ByKeyIsLast(name: string, objects: seq<Object>, k: string) returns (i: nat)
    requires k in ByKey(name, objects)
    ensures LastOfKey(name, objects, i, k) && ByKey(name, objects)[k] == objects[i]
  {
    var front, last := objects[..|objects| - 1], objects[|objects| - 1];
    assert objects == front + [last];
    assert ByKey(name, objects) == ByKey(name, front)[KeyOf(name, last) := last];
    if KeyOf(name, last) == k {
      i := |front|;
    } else {
      hide ByKey, EntriesOf;
      i := ByKeyIsLast(name, front, k);
    }
    hide *;
    assert HasKey(name, last, k) <==> KeyOf(name, last) == k by { assert HasKey(name, last, k) == (KeyOf(name, last) == k); }
    LastOfOneMore(name, front, last, i, k);
  }

  // ---------- Applying without sync ----------

  /** Object `i` is the last one that is the resource `s`. */
  predicate LastAt(objects: seq<Object>, i: nat, s: Slot) {
    i < |objects| && IsAt(objects[i].id, s) && forall j :: i < j < |objects| ==> !IsAt(objects[j].id, s)
  }

  /** Every resource of the objects has the content of its last object, body included, and every other
      slot of the cluster is as it was. */
  ghost predicate AllPut(objects: seq<Object>, before: Cluster, after: Cluster) {
    && (forall i: nat, s :: LastAt(objects, i, s) ==> s in after && after[s] == objects[i].content)
    && forall s :: (forall o :: o in objects ==> !IsAt(o.id, s)) ==> SameAt(after, before, s)
  }

  /** The call on the object reports an error. */
  predicate Fails(job: Job, o: Outcome, x: Object) {
    ToString(StateKey(job.name, x.id)) in o.failing
  }

  /** ... but takes effect all the same. */
  predicate Lands(job: Job, o: Outcome, x: Object) {
    ToString(StateKey(job.name, x.id)) in o.landed
  }

  /** Object `n` is the first whose call fails, or none does. */
  ghost predicate FirstFailing(job: Job, o: Outcome, n: nat) {
    && n <= |job.objects| && (forall i :: 0 <= i < n ==> !Fails(job, o, job.objects[i]))
    && (n < |job.objects| ==> Fails(job, o, job.objects[n]))
  }

  /** The objects before the first failing call have been put, and that one if it took effect. */
  ghost predicate PutUntil(job: Job, o: Outcome, n: nat, before: Cluster, after: Cluster) {
    && FirstFailing(job, o, n)
    && AllPut(job.objects[..if n < |job.objects| && Lands(job, o, job.objects[n]) then n + 1 else n], before, after)
  }

  /** The whole of an apply without sync. */
  ghost predicate Applied(job: Job, o: Outcome, before: World, ok: bool, after: World) {
    && (ok <==> && o.buildUp && (forall x :: x in job.objects ==> !Fails(job, o, x))
                && o.testsPass && (job.name != "" ==> o.saveUp))
    && (if o.buildUp then exists n: nat :: PutUntil(job, o, n, before.cluster, after.cluster) else after.cluster == before.cluster)
    && after.pending == before.pending
    && (if ok && job.name != "" then exists build :: ListsBuild(job.name, job.objects, build) && after.store == before.store[job.name := build]
        else after.store == before.store)
  }

  lemma NothingPut(cluster: Cluster)
    ensures AllPut([], cluster, cluster)
  {
  }

  lemma OneMorePut(front: seq<Object>, x: Object, before: Cluster, mid: Cluster)
    requires AllPut(front, before, mid)
    ensures AllPut(front + [x], before, mid[SlotOf(x.id) := x.content])
  {
    var objects, after := front + [x], mid[SlotOf(x.id) := x.content];
    assert objects[|front|] == x;
    assert forall s :: IsAt(x.id, s) <==> s == SlotOf(x.id);
    hide IsAt;
    forall i: nat, s | LastAt(objects, i, s) ensures s in after && after[s] == objects[i].content {
      if i < |front| {
        assert forall j :: i < j < |front| ==> objects[j] == front[j];
        assert LastAt(front, i, s);
        assert !IsAt(objects[|front|].id, s);
      }
    }
    forall s | forall o :: o in objects ==> !IsAt(o.id, s) ensures SameAt(after, before, s) {
      assert x in objects;
      assert forall o :: o in front ==> o in objects && !IsAt(o.id, s);
      assert SameAt(mid, before, s);
    }
  }

  /** What is left of an apply once the objects before `i` have been put. */
  lemma {:induction false} PuttingLeaves(opts: Options, job: Job, o: Outcome, i: nat, start: World, w: World) returns (n: nat)
    requires i <= |job.objects| && AllPut(job.objects[..i], start.cluster, w.cluster)
    requires forall j :: 0 <= j < i ==> !Fails(job, o, job.objects[j])
    ensures var r := Finish(opts, job, o, Putting(job.objects[i..]), w);
            && PutUntil(job, o, n, start.cluster, r.1.cluster) && r.1.pending == w.pending
            && (r.0 == Succeeded <==> n == |job.objects| && o.testsPass && (job.name != "" ==> o.saveUp))
            && r.1.store == if r.0 == Succeeded && job.name != "" then w.store[job.name := Current(job)] else w.store
    decreases |job.objects| - i
  {
    var rest := job.objects[i..];
    var next := Step(opts, job, o, Putting(rest), w);
    assert Finish(opts, job, o, Putting(rest), w) == Finish(opts, job, o, next.0, next.1);
    if i == |job.objects| {
      n := i;
      PlainTestingEnds(opts, job, o, w);
    } else {
      var x := job.objects[i];
      assert rest[0] == x && rest[1..] == job.objects[i + 1..];
      assert job.objects[..i + 1] == job.objects[..i] + [x];
      assert next == PutStep(job, o, rest, w);
      PutStepIs(job, o, x, rest, w);
      hide *;
      OneMorePut(job.objects[..i], x, start.cluster, w.cluster);
      if Fails(job, o, x) {
        n := i;
        FailedIsFinal(opts, job, o, next.1);
        assert FirstFailing(job, o, n) && PutUntil(job, o, n, start.cluster, next.1.cluster) by {
          hide *;
          StopsHere(job, o, n, start.cluster, next.1.cluster);
        }
      } else {
        n := PuttingLeaves(opts, job, o, i + 1, start, next.1);
      }
    }
  }

  lemma StopsHere(job: Job, o: Outcome, n: nat, before: Cluster, after: Cluster)
    requires n < |job.objects| && Fails(job, o, job.objects[n])
    requires forall j :: 0 <= j < n ==> !Fails(job, o, job.objects[j])
    requires AllPut(job.objects[..if Lands(job, o, job.objects[n]) then n + 1 else n], before, after)
    ensures PutUntil(job, o, n, before, after)
  {
    hide Fails, Lands, AllPut;
  }

  lemma PutStepIs(job: Job, o: Outcome, x: Object, rest: seq<Object>, w: World)
    requires rest != [] && rest[0] == x
    ensures PutStep(job, o, rest, w) ==
            (if Fails(job, o, x) then Failed else Putting(rest[1..]),
             if Fails(job, o, x) && !Lands(job, o, x) then w else w.(cluster := w.cluster[SlotOf(x.id) := x.content]))
  {
  }

  lemma FailsIs(job: Job, o: Outcome, x: Object)
    ensures Fails(job, o, x) <==> KeyOf(job.name, x) in o.failing
    ensures Lands(job, o, x) <==> KeyOf(job.name, x) in o.landed
  {
  }

  lemma FailedIsFinal(opts: Options, job: Job, o: Outcome, w: World)
    ensures Finish(opts, job, o, Failed, w) == (Failed, w)
  {
  }

  lemma PlainTestingEnds(opts: Options, job: Job, o: Outcome, w: World)
    ensures var r := Finish(opts, job, o, PlainTesting, w);
            && (r.0 == Succeeded <==> o.testsPass && (job.name != "" ==> o.saveUp))
            && r.1 == w.(store := if r.0 == Succeeded && job.name != "" then w.store[job.name := Current(job)] else w.store)
  {
    hide EntriesOf;
    var n1 := Step(opts, job, o, PlainTesting, w);
    assert Finish(opts, job, o, PlainTesting, w) == Finish(opts, job, o, n1.0, n1.1);
    if n1.0 == PlainSaving {
      var n2 := Step(opts, job, o, PlainSaving, w);
      assert Finish(opts, job, o, PlainSaving, w) == Finish(opts, job, o, n2.0, n2.1);
    }
  }

  /** Applying a manifest without sync puts its objects and records its build. */
  lemma ApplyPutsTheBuild(opts: Options, job: Job, o: Outcome, w: World)
    requires !opts.sync
    ensures var r := RunJob(opts, job, o, w); Applied(job, o, w, r.0 == Succeeded, r.1)
  {
    var p := Begin(opts, job, o, w);
    assert RunJob(opts, job, o, w) == Finish(opts, job, o, p, w);
    EntriesListBuild(job.name, job.objects);
    if o.buildUp {
      assert job.objects[..0] == [] && job.objects[0..] == job.objects;
      NothingPut(w.cluster);
      var n := PuttingLeaves(opts, job, o, 0, w, w);
      hide Finish, Begin, AllPut, ListsBuild, EntriesOf;
      assert n == |job.objects| <==> forall x :: x in job.objects ==> !Fails(job, o, x);
    }
  }
}
