// How dependsOn names become edges between manifest positions.
module DependsOnSpec {
  import opened Manifests
  import opened DependencyGraph

  datatype OrderError =
    | SelfDependency(name: string)
    | UnknownDependency(dep: string)
    | CircularDependency

  /** The name index: unnamed manifests are left out and a later duplicate replaces an earlier one. */
  function IndexByName(ms: seq<Manifest>): (idx: map<string, nat>)
    ensures forall n :: n in idx ==> idx[n] < |ms|
  {
    if ms == [] then map[]
    else
      var rest := IndexByName(ms[..|ms| - 1]);
      var name := ms[|ms| - 1].name;
      if name != "" then rest[name := |ms| - 1] else rest
  }

  /** The index answers with the last manifest of that name, and knows every non-empty name. */
  lemma {:induction false} LastWins(ms: seq<Manifest>, name: string)
    ensures name in IndexByName(ms) <==> name != "" && exists i :: 0 <= i < |ms| && ms[i].name == name
    ensures name in IndexByName(ms) ==>
              var i := IndexByName(ms)[name];
              ms[i].name == name && forall k :: i < k < |ms| ==> ms[k].name != name
  {
    if ms != [] {
      var front := ms[..|ms| - 1];
      LastWins(front, name);
      assert forall i :: 0 <= i < |front| ==> front[i] == ms[i];
      assert ms[|ms| - 1].name == name || forall i :: 0 <= i < |ms| && ms[i].name == name ==> front[i].name == name;
    }
  }

  /** The positions that the resolvable names of `deps` stand for, in order. */
  function Targets(deps: seq<string>, idx: map<string, nat>): (t: seq<nat>)
    ensures forall p :: 0 <= p < |t| ==> t[p] in idx.Values
  {
    if deps == [] then []
    else
      var rest := Targets(deps[..|deps| - 1], idx);
      var dep := deps[|deps| - 1];
      if dep in idx then rest + [idx[dep]] else rest
  }

  function IndexGraph(ms: seq<Manifest>): (g: Graph)
    ensures |g| == |ms|
  {
    var idx := IndexByName(ms);
    var rows := seq(|ms|, i requires 0 <= i < |ms| => Targets(ms[i].dependsOn, idx));
    assert forall i, p :: 0 <= i < |rows| && 0 <= p < |rows[i]| ==> rows[i][p] < |rows|;
    rows
  }

  predicate RefOk(ms: seq<Manifest>, m: Manifest, dep: string) {
    dep != m.name && dep in IndexByName(ms)
  }

  predicate RefsOkUpTo(ms: seq<Manifest>, i: nat, p: nat)
    requires i <= |ms|
  {
    && (forall k, q :: 0 <= k < i && 0 <= q < |ms[k].dependsOn| ==> RefOk(ms, ms[k], ms[k].dependsOn[q]))
    && (i < |ms| ==> forall q :: 0 <= q < |ms[i].dependsOn| && q < p ==> RefOk(ms, ms[i], ms[i].dependsOn[q]))
  }

  /** Every dependsOn entry names another manifest that exists. */
  predicate RefsOk(ms: seq<Manifest>) {
    RefsOkUpTo(ms, |ms|, 0)
  }

  /** Entry `p` of manifest `i` is the first broken reference in reading order, and `e` reports it. */
  predicate FirstBadRef(ms: seq<Manifest>, i: nat, p: nat, e: OrderError) {
    && i < |ms| && p < |ms[i].dependsOn|
    && RefsOkUpTo(ms, i, p)
    && var dep := ms[i].dependsOn[p];
       if dep == ms[i].name then e == SelfDependency(ms[i].name)
       else dep !in IndexByName(ms) && e == UnknownDependency(dep)
  }

  /** The condition both dependency checks decide. */
  ghost predicate Resolvable(ms: seq<Manifest>) {
    RefsOk(ms) && Acyclic(IndexGraph(ms))
  }

  // ---------- The same in terms of names ----------

  /** Manifest `d` is what the name stands for: it is not empty, and no later manifest has it. */
  predicate StandsFor(ms: seq<Manifest>, name: string, d: nat) {
    name != "" && d < |ms| && ms[d].name == name && forall k :: d < k < |ms| ==> ms[k].name != name
  }

  /** Entry `q` of manifest `i` names another manifest that exists. */
  predicate GoodName(ms: seq<Manifest>, i: nat, q: nat)
    requires i < |ms| && q < |ms[i].dependsOn|
  {
    var dep := ms[i].dependsOn[q];
    dep != ms[i].name && dep != "" && exists d :: 0 <= d < |ms| && ms[d].name == dep
  }

  predicate GoodNames(ms: seq<Manifest>) {
    forall i: nat, q: nat :: i < |ms| && q < |ms[i].dependsOn| ==> GoodName(ms, i, q)
  }

  /** Some dependsOn entry of manifest `i` names manifest `d`. */
  predicate Needs(ms: seq<Manifest>, i: nat, d: nat) {
    i < |ms| && exists q :: 0 <= q < |ms[i].dependsOn| && StandsFor(ms, ms[i].dependsOn[q], d)
  }

  /** Manifests that need each other in a ring. */
  predicate NameCycle(ms: seq<Manifest>, p: seq<nat>) {
    |p| >= 2 && p[0] == p[|p| - 1] && forall k :: 0 <= k < |p| - 1 ==> Needs(ms, p[k], p[k + 1])
  }

  /** Every dependency sits in an earlier layer than the manifest that needs it. */
  predicate NeedsAreEarlier(ms: seq<Manifest>, layers: seq<seq<nat>>) {
    forall l: nat, m: nat, i: nat, d: nat ::
      l < |layers| && m < |layers| && i in layers[l] && d in layers[m] && Needs(ms, i, d) ==> m < l
  }

  lemma IndexedIff(ms: seq<Manifest>, name: string, d: nat)
    ensures StandsFor(ms, name, d) <==> name in IndexByName(ms) && IndexByName(ms)[name] == d
  {
    LastWins(ms, name);
    hide IndexByName;
  }

  ghost function EntriesFor(ms: seq<Manifest>, deps: seq<string>, d: nat): set<nat> {
    set q: nat | q < |deps| && StandsFor(ms, deps[q], d)
  }

  lemma {:induction false} TargetsCount(ms: seq<Manifest>, deps: seq<string>, d: nat)
    ensures multiset(Targets(deps, IndexByName(ms)))[d] == |EntriesFor(ms, deps, d)|
  {
    if deps == [] {
      assert EntriesFor(ms, deps, d) == {};
    } else {
      hide *;
      var front, last := deps[..|deps| - 1], deps[|deps| - 1];
      TargetsCount(ms, front, d);
      TargetsOneMore(deps, IndexByName(ms), d);
      IndexedIff(ms, last, d);
      EntriesOneMore(ms, front, last, d);
      assert deps == front + [last];
    }
  }

  lemma TargetsOneMore(deps: seq<string>, idx: map<string, nat>, d: nat)
    requires deps != []
    ensures var front, last := deps[..|deps| - 1], deps[|deps| - 1];
            multiset(Targets(deps, idx))[d] == multiset(Targets(front, idx))[d] + if last in idx && idx[last] == d then 1 else 0
  {
  }

  lemma EntriesOneMore(ms: seq<Manifest>, front: seq<string>, last: string, d: nat)
    ensures |EntriesFor(ms, front + [last], d)| == |EntriesFor(ms, front, d)| + if StandsFor(ms, last, d) then 1 else 0
  {
    hide StandsFor;
    assert EntriesFor(ms, front + [last], d) == EntriesFor(ms, front, d) + if StandsFor(ms, last, d) then {|front|} else {};
    assert |front| !in EntriesFor(ms, front, d);
  }

  /** The row of a manifest has a position as often as entries of its dependsOn name it, every entry
      counted: nothing else is an edge, and no entry is left out. */
  lemma EdgesAreNames(ms: seq<Manifest>, i: nat, d: nat)
    requires i < |ms|
    ensures multiset(IndexGraph(ms)[i])[d] == |set q: nat | q < |ms[i].dependsOn| && StandsFor(ms, ms[i].dependsOn[q], d)|
    ensures d in IndexGraph(ms)[i] <==> Needs(ms, i, d)
  {
    var deps := ms[i].dependsOn;
    TargetsCount(ms, deps, d);
    hide StandsFor, Targets, IndexByName;
    var named := EntriesFor(ms, deps, d);
    assert named == set q: nat | q < |deps| && StandsFor(ms, deps[q], d);
    assert d in IndexGraph(ms)[i] <==> multiset(IndexGraph(ms)[i])[d] > 0;
    if Needs(ms, i, d) {
      var q :| 0 <= q < |deps| && StandsFor(ms, deps[q], d);
      assert q in named;
    }
    if named != {} {
      var q :| q in named;
    }
  }

  lemma CyclesAreNameCycles(ms: seq<Manifest>, p: seq<nat>)
    ensures IsCycle(IndexGraph(ms), p) <==> NameCycle(ms, p)
  {
    var g := IndexGraph(ms);
    forall i: nat, d: nat | i < |ms| ensures d in g[i] <==> Needs(ms, i, d) {
      EdgesAreNames(ms, i, d);
    }
    hide IndexGraph, StandsFor;
    if NameCycle(ms, p) {
      forall k | 0 <= k < |p| ensures p[k] < |g| {
        if k < |p| - 1 { assert Needs(ms, p[k], p[k + 1]); } else { assert Needs(ms, p[0], p[1]); }
      }
    }
  }

  lemma RefsOkIsGoodNames(ms: seq<Manifest>)
    ensures RefsOk(ms) <==> GoodNames(ms)
  {
    forall i: nat, q: nat | i < |ms| && q < |ms[i].dependsOn|
      ensures RefOk(ms, ms[i], ms[i].dependsOn[q]) <==> GoodName(ms, i, q)
    {
      LastWins(ms, ms[i].dependsOn[q]);
      hide IndexByName;
    }
    hide RefOk, GoodName;
  }

  /** What both dependency checks decide, in terms of the manifests alone. */
  lemma ResolvableByName(ms: seq<Manifest>)
    ensures Resolvable(ms) <==> GoodNames(ms) && forall p :: !NameCycle(ms, p)
  {
    RefsOkIsGoodNames(ms);
    forall p ensures IsCycle(IndexGraph(ms), p) <==> NameCycle(ms, p) {
      CyclesAreNameCycles(ms, p);
    }
    hide RefsOk, GoodNames, IsCycle, NameCycle;
  }

  /** `e` reports entry `q` of manifest `i`, and that is the first bad name in reading order. */
  predicate FirstBadName(ms: seq<Manifest>, i: nat, q: nat, e: OrderError) {
    && i < |ms| && q < |ms[i].dependsOn| && !GoodName(ms, i, q)
    && e == (if ms[i].dependsOn[q] == ms[i].name then SelfDependency(ms[i].name) else UnknownDependency(ms[i].dependsOn[q]))
    && forall k: nat, p: nat :: k < |ms| && p < |ms[k].dependsOn| && (k < i || (k == i && p < q)) ==> GoodName(ms, k, p)
  }

  lemma BadRefIsBadName(ms: seq<Manifest>, i: nat, p: nat, e: OrderError)
    requires FirstBadRef(ms, i, p, e)
    ensures FirstBadName(ms, i, p, e)
  {
    forall k: nat, q: nat | k < |ms| && q < |ms[k].dependsOn|
      ensures RefOk(ms, ms[k], ms[k].dependsOn[q]) <==> GoodName(ms, k, q)
    {
      LastWins(ms, ms[k].dependsOn[q]);
      hide IndexByName;
    }
    hide IndexByName;
  }

  // ---------- In-degrees and reverse edges ----------

  /** `dependents` is `g` with its edges turned round, repetitions counted. */
  ghost predicate Reversed(g: seq<seq<nat>>, dependents: seq<seq<nat>>) {
    && |g| == |dependents|
    && (forall j, p :: 0 <= j < |g| && 0 <= p < |dependents[j]| ==> dependents[j][p] < |g|)
    && (forall i, j :: 0 <= i < |g| && 0 <= j < |g| ==> multiset(dependents[j])[i] == multiset(g[i])[j])
  }

  ghost predicate Linked(g: seq<seq<nat>>, inDegree: seq<int>, dependents: seq<seq<nat>>) {
    && Reversed(g, dependents)
    && |g| == |inDegree|
    && (forall i :: 0 <= i < |g| ==> inDegree[i] == |g[i]|)
  }

  lemma AddLink(g: seq<seq<nat>>, inDegree: seq<int>, dependents: seq<seq<nat>>, i: nat, d: nat)
    requires Linked(g, inDegree, dependents) && i < |g| && d < |g|
    ensures Linked(g[i := g[i] + [d]], inDegree[i := inDegree[i] + 1], dependents[d := dependents[d] + [i]])
  {
  }

  /** Nodes in `marked` are taken out; the others count their entries outside `released`. */
  ghost predicate Counted(g: Graph, marked: set<nat>, released: set<nat>, inDegree: seq<int>) {
    && |inDegree| == |g|
    && forall k :: 0 <= k < |g| ==> inDegree[k] == if k in marked then -1 else Pending(g[k], released)
  }

  /** The guarded decrement, applied `n` times. */
  function Lowered(x: int, n: nat): int {
    if x <= 0 then x else if x > n then x - n else 0
  }

  lemma Release(g: Graph, marked: set<nat>, released: set<nat>, before: seq<int>, after: seq<int>, dependents: seq<seq<nat>>, j: nat)
    requires Counted(g, marked, released, before) && |after| == |g|
    requires j < |g| && j in marked && j !in released && Reversed(g, dependents)
    requires forall k :: 0 <= k < |g| ==> after[k] == Lowered(before[k], multiset(dependents[j])[k])
    ensures Counted(g, marked, released + {j}, after)
  {
    forall k | 0 <= k < |g| ensures after[k] == if k in marked then -1 else Pending(g[k], released + {j}) {
      PendingAfter(g[k], released, j);
    }
  }

  /** The inner loop of both sweeps: every remaining dependent has one dependency less. */
  method ReleaseDependents(inDegree: array<int>, dependents: seq<nat>)
    requires forall p :: 0 <= p < |dependents| ==> dependents[p] < inDegree.Length
    modifies inDegree
    ensures forall k :: 0 <= k < inDegree.Length ==> inDegree[k] == Lowered(old(inDegree[k]), multiset(dependents)[k])
  {
    for p := 0 to |dependents|
      invariant forall k :: 0 <= k < inDegree.Length ==> inDegree[k] == Lowered(old(inDegree[k]), multiset(dependents[..p])[k])
    {
      var dep := dependents[p];
      assert dependents[..p + 1] == dependents[..p] + [dep];
      if inDegree[dep] > 0 {
        inDegree[dep] := inDegree[dep] - 1;
      }
    }
    assert dependents[..|dependents|] == dependents;
  }

  method BuildIndex(ms: seq<Manifest>) returns (idxByName: map<string, nat>)
    ensures idxByName == IndexByName(ms)
  {
    idxByName := map[];
    for i := 0 to |ms|
      invariant idxByName == IndexByName(ms[..i])
    {
      assert ms[..i + 1][..i] == ms[..i];
      if ms[i].name != "" {
        idxByName := idxByName[ms[i].name := i];
      }
    }
    assert ms[..|ms|] == ms;
  }

  /** One node's dependents are released: its entries no longer count. */
  method ReleaseNode(ghost g: Graph, ghost marked: set<nat>, ghost released: set<nat>, inDegree: array<int>, dependents: array<seq<nat>>, i: nat)
    requires Counted(g, marked, released, inDegree[..]) && Reversed(g, dependents[..])
    requires i < |g| && i in marked && i !in released
    modifies inDegree
    ensures Counted(g, marked, released + {i}, inDegree[..])
  {
    hide Pending, Lowered;
    ghost var before := inDegree[..];
    ReleaseDependents(inDegree, dependents[i]);
    hide Counted, Reversed;
    Release(g, marked, released, before, inDegree[..], dependents[..], i);
  }
}
