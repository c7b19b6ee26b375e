// The dependsOn check of `tazuna check`: all broken references at once, then Kahn's algorithm in
// place, where a node freed during a sweep can already be consumed by the same sweep.
module DependsOnValidator {
  import opened Common
  import opened Manifests
  import opened DependencyGraph
  import opened DependsOnSpec
  import DependencyOrder

  datatype RefError =
    | DependsOnItself(name: string)
    | ReferencesUnknown(name: string, dep: string)

  datatype Failure =
    | BrokenReferences(errs: seq<RefError>)
    | CircularGraph

  /** The broken references of one manifest, in order. */
  function BrokenRefsOf(m: Manifest, deps: seq<string>, idx: map<string, nat>): seq<RefError> {
    if deps == [] then []
    else
      var rest := BrokenRefsOf(m, deps[..|deps| - 1], idx);
      var dep := deps[|deps| - 1];
      if dep == m.name then rest + [DependsOnItself(m.name)]
      else if dep !in idx then rest + [ReferencesUnknown(m.name, dep)]
      else rest
  }

  function BrokenRefs(ms: seq<Manifest>, idx: map<string, nat>): seq<RefError> {
    if ms == [] then []
    else
      var m := ms[|ms| - 1];
      BrokenRefs(ms[..|ms| - 1], idx) + BrokenRefsOf(m, m.dependsOn, idx)
  }

  lemma {:induction false} NoBrokenRefsOf(m: Manifest, deps: seq<string>, idx: map<string, nat>)
    ensures BrokenRefsOf(m, deps, idx) == [] <==> forall q :: 0 <= q < |deps| ==> deps[q] != m.name && deps[q] in idx
  {
    if deps != [] {
      NoBrokenRefsOf(m, deps[..|deps| - 1], idx);
    }
  }

  lemma {:induction false} NoBrokenRefs(ms: seq<Manifest>, idx: map<string, nat>)
    ensures BrokenRefs(ms, idx) == [] <==>
            forall k, q :: 0 <= k < |ms| && 0 <= q < |ms[k].dependsOn| ==>
              ms[k].dependsOn[q] != ms[k].name && ms[k].dependsOn[q] in idx
  {
    if ms != [] {
      NoBrokenRefs(ms[..|ms| - 1], idx);
      NoBrokenRefsOf(ms[|ms| - 1], ms[|ms| - 1].dependsOn, idx);
    }
  }

  // ---------- The broken references in terms of names ----------

  /** What is reported of entry `q` of manifest `i`. */
  predicate ReportOf(ms: seq<Manifest>, i: nat, q: nat, e: RefError) {
    && i < |ms| && q < |ms[i].dependsOn| && !GoodName(ms, i, q)
    && e == if ms[i].dependsOn[q] == ms[i].name then DependsOnItself(ms[i].name) else ReferencesUnknown(ms[i].name, ms[i].dependsOn[q])
  }

  predicate Earlier(a: (nat, nat), b: (nat, nat)) {
    a.0 < b.0 || (a.0 == b.0 && a.1 < b.1)
  }

  /** `errs` are the reports of the entries at `places`, in reading order. */
  ghost predicate ReportsAt(ms: seq<Manifest>, errs: seq<RefError>, places: seq<(nat, nat)>) {
    && |places| == |errs|
    && (forall k :: 0 <= k < |errs| ==> ReportOf(ms, places[k].0, places[k].1, errs[k]))
    && (forall k, l :: 0 <= k < l < |places| ==> Earlier(places[k], places[l]))
  }

  ghost predicate UpTo(ms: seq<Manifest>, places: seq<(nat, nat)>, i: nat, p: nat) {
    && (forall x :: x in places ==> Earlier(x, (i, p)))
    && (forall k: nat, q: nat {:trigger (k, q) in places} :: k < |ms| && q < |ms[k].dependsOn| && Earlier((k, q), (i, p)) && !GoodName(ms, k, q) ==> (k, q) in places)
  }

  /** All bad names are reported, each once and in reading order, and nothing else is. */
  ghost predicate ReportsAll(ms: seq<Manifest>, errs: seq<RefError>) {
    exists places :: ReportsAt(ms, errs, places) && UpTo(ms, places, |ms|, 0)
  }

  lemma BadNameIff(ms: seq<Manifest>, i: nat, q: nat)
    requires i < |ms| && q < |ms[i].dependsOn|
    ensures GoodName(ms, i, q) <==> ms[i].dependsOn[q] != ms[i].name && ms[i].dependsOn[q] in IndexByName(ms)
  {
    LastWins(ms, ms[i].dependsOn[q]);
    hide IndexByName;
  }

  /** The next entry in reading order, good or bad. */
  lemma OnePlaceMore(ms: seq<Manifest>, errs: seq<RefError>, places: seq<(nat, nat)>, i: nat, p: nat) returns (more: seq<(nat, nat)>)
    requires ReportsAt(ms, errs, places) && UpTo(ms, places, i, p) && i < |ms| && p < |ms[i].dependsOn|
    ensures UpTo(ms, more, i, p + 1)
    ensures var dep := ms[i].dependsOn[p];
            ReportsAt(ms, if dep == ms[i].name then errs + [DependsOnItself(ms[i].name)]
                          else if dep !in IndexByName(ms) then errs + [ReferencesUnknown(ms[i].name, dep)]
                          else errs, more)
  {
    BadNameIff(ms, i, p);
    more := if GoodName(ms, i, p) then places else places + [(i, p)];
    var dep := ms[i].dependsOn[p];
    if !GoodName(ms, i, p) {
      OneReportMore(ms, errs, places, i, p, if dep == ms[i].name then DependsOnItself(dep) else ReferencesUnknown(ms[i].name, dep));
    }
    OneEntryFurther(ms, places, i, p);
    hide *;
  }

  lemma OneReportMore(ms: seq<Manifest>, errs: seq<RefError>, places: seq<(nat, nat)>, i: nat, p: nat, e: RefError)
    requires ReportsAt(ms, errs, places) && UpTo(ms, places, i, p) && ReportOf(ms, i, p, e)
    ensures ReportsAt(ms, errs + [e], places + [(i, p)])
  {
    hide GoodName, ReportOf;
    assert forall k :: 0 <= k < |places| ==> places[k] in places;
  }

  lemma OneEntryFurther(ms: seq<Manifest>, places: seq<(nat, nat)>, i: nat, p: nat)
    requires UpTo(ms, places, i, p) && i < |ms| && p < |ms[i].dependsOn|
    ensures UpTo(ms, if GoodName(ms, i, p) then places else places + [(i, p)], i, p + 1)
  {
    hide GoodName;
    assert (i, p) in places + [(i, p)];
    assert forall x :: x in places ==> x in places + [(i, p)];
  }

  lemma {:induction false} RefsOfReported(ms: seq<Manifest>, errs: seq<RefError>, places: seq<(nat, nat)>, i: nat, p: nat)
      returns (more: seq<(nat, nat)>)
    requires ReportsAt(ms, errs, places) && UpTo(ms, places, i, 0) && i < |ms| && p <= |ms[i].dependsOn|
    ensures ReportsAt(ms, errs + BrokenRefsOf(ms[i], ms[i].dependsOn[..p], IndexByName(ms)), more) && UpTo(ms, more, i, p)
    decreases p
  {
    hide *;
    if p == 0 {
      NoRefs(ms[i], ms[i].dependsOn[..p], IndexByName(ms), errs);
      more := places;
    } else {
      var before := RefsOfReported(ms, errs, places, i, p - 1);
      more := OnePlaceMore(ms, errs + BrokenRefsOf(ms[i], ms[i].dependsOn[..p - 1], IndexByName(ms)), before, i, p - 1);
      OneRefMore(ms[i], ms[i].dependsOn, p, IndexByName(ms), errs);
    }
  }

  lemma NoRefs(m: Manifest, deps: seq<string>, idx: map<string, nat>, errs: seq<RefError>)
    requires deps == []
    ensures errs + BrokenRefsOf(m, deps, idx) == errs
  {
  }

  lemma OneRefMore(m: Manifest, deps: seq<string>, p: nat, idx: map<string, nat>, errs: seq<RefError>)
    requires 0 < p <= |deps|
    ensures var dep, before := deps[p - 1], errs + BrokenRefsOf(m, deps[..p - 1], idx);
            errs + BrokenRefsOf(m, deps[..p], idx) ==
            if dep == m.name then before + [DependsOnItself(m.name)]
            else if dep !in idx then before + [ReferencesUnknown(m.name, dep)]
            else before
  {
    assert deps[..p][..p - 1] == deps[..p - 1];
  }

  lemma NextManifest(ms: seq<Manifest>, places: seq<(nat, nat)>, i: nat)
    requires i < |ms| && UpTo(ms, places, i, |ms[i].dependsOn|)
    ensures UpTo(ms, places, i + 1, 0)
  {
    hide GoodName;
  }

  lemma {:induction false} RefsReported(ms: seq<Manifest>, i: nat) returns (places: seq<(nat, nat)>)
    requires i <= |ms|
    ensures ReportsAt(ms, BrokenRefs(ms[..i], IndexByName(ms)), places) && UpTo(ms, places, i, 0)
  {
    if i == 0 {
      places := [];
    } else {
      var before := RefsReported(ms, i - 1);
      var m := ms[i - 1];
      assert ms[..i][..i - 1] == ms[..i - 1];
      places := RefsOfReported(ms, BrokenRefs(ms[..i - 1], IndexByName(ms)), before, i - 1, |m.dependsOn|);
      assert m.dependsOn[..|m.dependsOn|] == m.dependsOn;
      NextManifest(ms, places, i - 1);
      hide ReportsAt, UpTo, IndexByName, BrokenRefsOf;
    }
  }

  lemma AllReported(ms: seq<Manifest>)
    ensures ReportsAll(ms, BrokenRefs(ms, IndexByName(ms)))
  {
    var places := RefsReported(ms, |ms|);
    assert ms[..|ms|] == ms;
    hide ReportsAt, UpTo;
  }

  method CheckReferences(ms: seq<Manifest>, idxByName: map<string, nat>) returns (errs: seq<RefError>)
    requires idxByName == IndexByName(ms)
    ensures errs == BrokenRefs(ms, idxByName)
    ensures errs == [] <==> RefsOk(ms)
    ensures ReportsAll(ms, errs)
  {
    AllReported(ms);
    NoBrokenRefs(ms, idxByName);
    assert BrokenRefs(ms, idxByName) == [] <==> RefsOk(ms);
    hide ReportsAll, IndexByName;
    errs := [];
    for i := 0 to |ms|
      invariant errs == BrokenRefs(ms[..i], idxByName)
    {
      var m := ms[i];
      for p := 0 to |m.dependsOn|
        invariant errs == BrokenRefs(ms[..i], idxByName) + BrokenRefsOf(m, m.dependsOn[..p], idxByName)
      {
        var dep := m.dependsOn[p];
        assert m.dependsOn[..p + 1][..p] == m.dependsOn[..p];
        if dep == m.name {
          errs := errs + [DependsOnItself(m.name)];
        } else if dep !in idxByName {
          errs := errs + [ReferencesUnknown(m.name, dep)];
        }
      }
      assert m.dependsOn[..|m.dependsOn|] == m.dependsOn;
      assert ms[..i + 1][..i] == ms[..i];
    }
    assert ms[..|ms|] == ms;
  }

  /** `rank` numbers the consumed nodes in the order they were consumed. */
  ghost predicate Consumed(g: Graph, rank: map<nat, nat>, inDegree: seq<int>) {
    && (forall k :: k in rank ==> k < |g| && rank[k] < |rank|)
    && Descends(g, rank)
    && Counted(g, rank.Keys, rank.Keys, inDegree)
  }

  /** A node with in-degree 0 depends on consumed nodes only, so it can be numbered next. */
  lemma ConsumeNext(g: Graph, rank: map<nat, nat>, inDegree: seq<int>, i: nat)
    requires Consumed(g, rank, inDegree) && i < |g| && inDegree[i] == 0
    ensures i !in rank && Descends(g, rank[i := |rank|])
  {
    PendingZero(g[i], rank.Keys);
    assert forall d :: d in g[i] ==> d in rank;
    hide Counted, Pending;
  }

  lemma MarkNext(g: Graph, done: set<nat>, inDegree: seq<int>, i: nat)
    requires Counted(g, done, done, inDegree) && i < |g|
    ensures Counted(g, done + {i}, done, inDegree[i := -1])
  {
  }

  /** A full sweep without progress means every node left waits for another one. */
  lemma NoProgressHasCycle(g: Graph, rank: map<nat, nat>, inDegree: seq<int>)
    requires Consumed(g, rank, inDegree) && |rank| < |g|
    requires forall k :: 0 <= k < |g| ==> inDegree[k] != 0
    ensures exists p :: IsCycle(g, p)
  {
    forall k: nat | k < |g| && k !in rank.Keys ensures exists d :: d in g[k] && d !in rank.Keys {
      PendingZero(g[k], rank.Keys);
    }
    DependencyOrder.NoneFreeHasCycle(g, rank);
  }

  lemma NumberLast(rank: map<nat, nat>, n: nat, i: nat)
    requires i !in rank && i < n && forall k :: k in rank ==> k < n && rank[k] < |rank|
    ensures var next := rank[i := |rank|];
            next.Keys == rank.Keys + {i} && forall k :: k in next ==> k < n && next[k] < |next|
  {
  }

  method ConsumeNode(ghost g: Graph, ghost rank: map<nat, nat>, inDegree: array<int>, dependents: array<seq<nat>>, i: nat)
    requires Consumed(g, rank, inDegree[..]) && Reversed(g, dependents[..])
    requires i < |g| && inDegree[i] == 0
    modifies inDegree
    ensures i !in rank && Consumed(g, rank[i := |rank|], inDegree[..])
  {
    ghost var before := inDegree[..];
    assert |before| == |g|;
    hide Descends, Counted, Reversed;
    ConsumeNext(g, rank, before, i);
    NumberLast(rank, |g|, i);
    MarkNext(g, rank.Keys, before, i);
    inDegree[i] := -1;
    assert inDegree[..] == before[i := -1];
    ReleaseNode(g, rank.Keys + {i}, rank.Keys, inDegree, dependents, i);
  }

  method Sweep(ghost g: Graph, ghost rank: map<nat, nat>, inDegree: array<int>, dependents: array<seq<nat>>)
      returns (consumed: nat, ghost next: map<nat, nat>)
    requires inDegree.Length == |g|
    requires Consumed(g, rank, inDegree[..]) && Reversed(g, dependents[..])
    modifies inDegree
    ensures Consumed(g, next, inDegree[..]) && |next| == |rank| + consumed
    ensures consumed == 0 ==> forall k :: 0 <= k < |g| ==> inDegree[k] != 0
  {
    hide Consumed, Reversed;
    consumed, next := 0, rank;
    for i := 0 to inDegree.Length
      invariant Consumed(g, next, inDegree[..]) && |next| == |rank| + consumed
      invariant consumed == 0 ==> forall k :: 0 <= k < i ==> inDegree[k] != 0
    {
      if inDegree[i] == 0 {
        ConsumeNode(g, next, inDegree, dependents, i);
        next := next[i := |next|];
        consumed := consumed + 1;
      }
    }
  }

  /** Sweeps until every node is consumed or a sweep makes no progress. */
  method SweepToEnd(ghost g: Graph, inDegree: array<int>, dependents: array<seq<nat>>) returns (processed: nat)
    requires Linked(g, inDegree[..], dependents[..])
    modifies inDegree
    ensures processed == |g| ==> Acyclic(g)
    ensures processed != |g| ==> exists p :: IsCycle(g, p)
  {
    var n := inDegree.Length;
    ghost var rank: map<nat, nat> := map[];
    assert rank.Keys == {};
    assert Consumed(g, rank, inDegree[..]) by {
      forall k | 0 <= k < |g| ensures Pending(g[k], {}) == |g[k]| { PendingNone(g[k]); }
    }
    processed := 0;
    while processed < n
      invariant Consumed(g, rank, inDegree[..])
      invariant processed == |rank|
      decreases n - processed
    {
      hide Descends, Acyclic, Pending, Reversed, IsCycle;
      var consumed;
      consumed, rank := Sweep(g, rank, inDegree, dependents);
      DependencyOrder.AllKeys(g, rank);
      if consumed == 0 {
        NoProgressHasCycle(g, rank, inDegree[..]);
        return;
      }
      processed := processed + consumed;
    }
    DependencyOrder.AllKeys(g, rank);
    RankedIsAcyclic(g, rank);
  }

  method ValidateDependsOn(ms: seq<Manifest>) returns (failure: Option<Failure>)
    ensures failure.None? <==> Resolvable(ms)
    ensures !RefsOk(ms) ==> failure == Some(BrokenReferences(BrokenRefs(ms, IndexByName(ms))))
    ensures RefsOk(ms) && failure.Some? ==> failure == Some(CircularGraph) && exists p :: IsCycle(IndexGraph(ms), p)
    ensures failure.None? <==> GoodNames(ms) && forall p :: !NameCycle(ms, p)
    ensures !GoodNames(ms) ==> failure.Some? && failure.value.BrokenReferences? && ReportsAll(ms, failure.value.errs)
    ensures GoodNames(ms) && failure.Some? ==> failure == Some(CircularGraph) && exists p :: NameCycle(ms, p)
  {
    ResolvableByName(ms);
    RefsOkIsGoodNames(ms);
    AllReported(ms);
    forall p ensures IsCycle(IndexGraph(ms), p) <==> NameCycle(ms, p) {
      CyclesAreNameCycles(ms, p);
    }
    hide RefsOk, GoodNames, NameCycle, IsCycle, ReportsAll, Resolvable;
    assert Resolvable(ms) <==> GoodNames(ms) && forall p :: !NameCycle(ms, p);
    if |ms| == 0 {
      RankedIsAcyclic(IndexGraph(ms), map[]);
      return None;
    }
    var idxByName := BuildIndex(ms);
    var errs := CheckReferences(ms, idxByName);
    if |errs| > 0 {
      return Some(BrokenReferences(errs));
    }
    var inDegree, dependents, _ := DependencyOrder.LinkDependencies(ms, idxByName);
    var processed := SweepToEnd(IndexGraph(ms), inDegree, dependents);
    if processed != |ms| {
      return Some(CircularGraph);
    }
    return None;
  }

  /** What `tazuna check` accepts is exactly what `tazuna apply` can order. */
  method CheckThenOrder(ms: seq<Manifest>)
      returns (check: Option<Failure>, order: Result<seq<seq<nat>>, OrderError>)
    ensures check.None? <==> order.Ok?
    ensures check == Some(CircularGraph) <==> order == Err(CircularDependency)
  {
    check := ValidateDependsOn(ms);
    order := DependencyOrder.ResolveDependencyOrder(ms);
  }
}
