// Splitting the manifests into layers that can be applied in parallel: Kahn's algorithm, one
// whole layer per round.
module DependencyOrder {
  import opened Common
  import opened Manifests
  import opened DependencyGraph
  import opened DependsOnSpec

  predicate HasAnyDependsOn(ms: seq<Manifest>) {
    exists i :: 0 <= i < |ms| && |ms[i].dependsOn| > 0
  }

  // ---------- What a round of the algorithm keeps ----------

  /** `level` numbers the nodes already placed; `layers` lists them. */
  ghost predicate Layered(g: Graph, layers: seq<seq<nat>>, level: map<nat, nat>) {
    && (forall k :: k in level ==> k < |g| && level[k] < |layers|)
    && (forall l :: 0 <= l < |layers| ==> layers[l] != [] && StrictlyIncreasing(layers[l]))
    && (forall l, k: nat :: 0 <= l < |layers| ==> (k in layers[l] <==> k in level && level[k] == l))
    && Descends(g, level)
    && Tight(g, level)
  }

  ghost predicate WaitsForLast(g: Graph, layers: seq<seq<nat>>, level: map<nat, nat>, i: nat)
    requires i < |g|
  {
    exists d :: d in g[i] && (d !in level || level[d] == |layers| - 1)
  }

  /** A node left over after a round was kept back by a node of the last layer or a later one. */
  ghost predicate HeldBack(g: Graph, layers: seq<seq<nat>>, level: map<nat, nat>) {
    |layers| > 0 ==>
      forall i: nat {:trigger WaitsForLast(g, layers, level, i)} ::
        i < |g| && i !in level ==> WaitsForLast(g, layers, level, i)
  }

  /** `current` lists, in declaration order, the nodes whose dependencies are all placed. */
  ghost predicate FreeNodes(g: Graph, level: map<nat, nat>, current: seq<nat>) {
    && StrictlyIncreasing(current)
    && forall k: nat :: k in current <==>
         k < |g| && k !in level && forall d :: d in g[k] ==> d in level
  }

  ghost function Place(level: map<nat, nat>, current: seq<nat>, l: nat): map<nat, nat> {
    map k | k in level.Keys + (set x | x in current) :: if k in level then level[k] else l
  }

  lemma PlacedTight(g: Graph, layers: seq<seq<nat>>, level: map<nat, nat>, current: seq<nat>)
    requires Layered(g, layers, level) && HeldBack(g, layers, level)
    requires FreeNodes(g, level, current)
    ensures Tight(g, Place(level, current, |layers|))
  {
    var next := Place(level, current, |layers|);
    forall i | i in next && i < |g| && next[i] > 0
      ensures exists d :: d in g[i] && d in next && next[d] == next[i] - 1
    {
      if i in level {
        var d :| d in g[i] && d in level && level[d] == level[i] - 1;
        assert next[d] == next[i] - 1;
      } else {
        assert WaitsForLast(g, layers, level, i);
        var d :| d in g[i] && (d !in level || level[d] == |layers| - 1);
        assert next[d] == next[i] - 1;
      }
    }
  }

  lemma PlacedDescends(g: Graph, level: map<nat, nat>, current: seq<nat>, l: nat)
    requires Descends(g, level) && FreeNodes(g, level, current)
    requires forall k :: k in level ==> level[k] < l
    ensures Descends(g, Place(level, current, l))
  {
  }

  lemma PlacedLists(g: Graph, layers: seq<seq<nat>>, level: map<nat, nat>, current: seq<nat>, l: nat, k: nat)
    requires Layered(g, layers, level) && FreeNodes(g, level, current)
    requires l <= |layers|
    ensures var next := Place(level, current, |layers|);
            k in (layers + [current])[l] <==> k in next && next[k] == l
  {
  }

  lemma PlacedShape(g: Graph, layers: seq<seq<nat>>, level: map<nat, nat>, current: seq<nat>)
    requires Layered(g, layers, level) && FreeNodes(g, level, current) && current != []
    ensures var after := layers + [current];
            forall l :: 0 <= l < |after| ==> after[l] != [] && StrictlyIncreasing(after[l])
    ensures var next := Place(level, current, |layers|);
            forall k :: k in next ==> k < |g| && next[k] < |layers| + 1
  {
  }

  lemma PlacedLayer(g: Graph, layers: seq<seq<nat>>, level: map<nat, nat>, current: seq<nat>)
    requires Layered(g, layers, level) && HeldBack(g, layers, level)
    requires FreeNodes(g, level, current) && current != []
    ensures Layered(g, layers + [current], Place(level, current, |layers|))
  {
    PlacedShape(g, layers, level, current);
    PlacedTight(g, layers, level, current);
    PlacedDescends(g, level, current, |layers|);
    forall l, k: nat | 0 <= l < |layers| + 1
      ensures k in (layers + [current])[l] <==>
              k in Place(level, current, |layers|) && Place(level, current, |layers|)[k] == l
    {
      PlacedLists(g, layers, level, current, l, k);
    }
  }

  lemma PlacedHoldsBack(g: Graph, layers: seq<seq<nat>>, level: map<nat, nat>, current: seq<nat>)
    requires FreeNodes(g, level, current)
    ensures HeldBack(g, layers + [current], Place(level, current, |layers|))
  {
    var next := Place(level, current, |layers|);
    forall i: nat | i < |g| && i !in next ensures WaitsForLast(g, layers + [current], next, i) {
      var d :| d in g[i] && d !in level;
      assert d !in next || next[d] == |layers|;
    }
  }

  /** Zero in-degree is exactly freeness. */
  lemma ZeroIsFree(g: Graph, level: map<nat, nat>, inDegree: seq<int>, current: seq<nat>)
    requires Counted(g, level.Keys, level.Keys, inDegree)
    requires StrictlyIncreasing(current)
    requires forall k: nat :: k in current <==> k < |g| && inDegree[k] == 0
    ensures FreeNodes(g, level, current)
  {
    forall k: nat | k < |g| ensures Pending(g[k], level.Keys) == 0 <==> forall d :: d in g[k] ==> d in level {
      PendingZero(g[k], level.Keys);
    }
  }

  /** When no node is free and some node is left, the graph has a cycle. */
  lemma NoneFreeHasCycle(g: Graph, level: map<nat, nat>)
    requires FreeNodes(g, level, []) && |level| < |g|
    ensures exists p :: IsCycle(g, p)
  {
    var i: nat :| i < |g| && i !in level by {
      if forall k: nat :: k < |g| ==> k in level {
        SubsetSize(Below(|g|), level.Keys);
      }
    }
    forall k: nat | k < |g| && k !in level.Keys ensures WaitsOutside(g, level.Keys, k) {
      assert k !in [];
    }
    StuckHasCycle(g, level.Keys, i);
  }

  /** When every node is placed the layers are exact and the graph has no cycle. */
  lemma AllPlaced(g: Graph, layers: seq<seq<nat>>, level: map<nat, nat>)
    requires Layered(g, layers, level) && forall k: nat :: k < |g| ==> k in level
    ensures ExactLayers(g, layers) && Acyclic(g)
  {
    RankedIsAcyclic(g, level);
    forall i: nat | i < |g| ensures Placed(layers, i) {
      assert i in layers[level[i]];
    }
    forall l, i: nat | 0 <= l < |layers| ensures i in layers[l] <==> i < |g| && DepthIs(g, i, l) {
      assert i in layers[l] <==> i in level && level[i] == l;
      if i < |g| { LevelIsDepth(g, level, i, l); }
    }
  }

  lemma PlaceKeys(g: Graph, level: map<nat, nat>, current: seq<nat>, l: nat)
    requires FreeNodes(g, level, current)
    ensures Place(level, current, l).Keys == level.Keys + set x | x in current
    ensures |Place(level, current, l)| == |level| + |current|
  {
    var added := set x | x in current;
    DistinctSize(current);
    assert level.Keys !! added;
    var next := Place(level, current, l);
    assert next.Keys == level.Keys + added;
    hide *;
    assert |next.Keys| == |level.Keys| + |added|;
    assert |next| == |next.Keys| && |level| == |level.Keys|;
  }

  lemma AllKeys(g: Graph, level: map<nat, nat>)
    requires forall k :: k in level ==> k < |g|
    ensures |level| <= |g|
    ensures |level| == |g| ==> forall k: nat :: k < |g| ==> k in level
  {
    SubsetSize(level.Keys, Below(|g|));
    if |level| == |g| {
      forall k: nat | k < |g| ensures k in level {
        if k !in level.Keys {
          SubsetSize(level.Keys, Below(|g|) - {k});
        }
      }
    }
  }

  // ---------- The algorithm ----------

  method CollectFree(inDegree: array<int>) returns (current: seq<nat>)
    ensures StrictlyIncreasing(current)
    ensures forall k: nat :: k in current <==> k < inDegree.Length && inDegree[k] == 0
  {
    current := [];
    for i := 0 to inDegree.Length
      invariant StrictlyIncreasing(current) && forall a :: 0 <= a < |current| ==> current[a] < i
      invariant forall k: nat :: k in current <==> k < i && inDegree[k] == 0
    {
      if inDegree[i] == 0 {
        current := current + [i];
      }
    }
  }

  /** Placed nodes are never looked at again. */
  method MarkPlaced(inDegree: array<int>, current: seq<nat>)
    requires forall k :: k in current ==> k < inDegree.Length
    modifies inDegree
    ensures forall k :: 0 <= k < inDegree.Length ==> inDegree[k] == if k in current then -1 else old(inDegree[k])
  {
    for a := 0 to |current|
      invariant forall k :: 0 <= k < inDegree.Length ==> inDegree[k] == if k in current[..a] then -1 else old(inDegree[k])
    {
      assert current[..a + 1] == current[..a] + [current[a]];
      assert current[a] in current;
      inDegree[current[a]] := -1;
    }
    assert current[..|current|] == current;
  }

  lemma MarkedCounted(g: Graph, done: set<nat>, before: seq<int>, after: seq<int>, current: seq<nat>)
    requires Counted(g, done, done, before) && |after| == |g|
    requires forall k :: 0 <= k < |g| ==> after[k] == if k in current then -1 else before[k]
    ensures var marked := done + set x | x in current;
            Counted(g, marked, done, after)
  {
    hide Pending;
  }

  /** Takes the nodes of one layer out of the graph. */
  method RetireLayer(ghost g: Graph, ghost done: set<nat>, inDegree: array<int>, dependents: array<seq<nat>>, current: seq<nat>)
    requires inDegree.Length == |g|
    requires Reversed(g, dependents[..])
    requires Counted(g, done, done, inDegree[..])
    requires StrictlyIncreasing(current) && forall k :: k in current ==> k < |g| && k !in done
    modifies inDegree
    ensures var after := done + set x | x in current;
            Counted(g, after, after, inDegree[..])
  {
    hide Counted, Reversed, Pending;
    ghost var marked := done + set x | x in current;
    MarkPlaced(inDegree, current);
    MarkedCounted(g, done, old(inDegree[..]), inDegree[..], current);
    ghost var released := done;
    for a := 0 to |current|
      invariant forall x :: x in released <==> x in done || x in current[..a]
      invariant Counted(g, marked, released, inDegree[..])
    {
      assert current[a] in current && current[a] !in current[..a];
      ReleaseNode(g, marked, released, inDegree, dependents, current[a]);
      released := released + {current[a]};
      assert current[..a + 1] == current[..a] + [current[a]];
    }
    assert current[..|current|] == current;
    assert released == marked;
  }

  method LinkOne(ghost rows: seq<seq<nat>>, inDegree: array<int>, dependents: array<seq<nat>>, i: nat, depIdx: nat)
    requires Linked(rows, inDegree[..], dependents[..]) && i < |rows| && depIdx < |rows|
    modifies inDegree, dependents
    ensures Linked(rows[i := rows[i] + [depIdx]], inDegree[..], dependents[..])
  {
    AddLink(rows, inDegree[..], dependents[..], i, depIdx);
    dependents[depIdx] := dependents[depIdx] + [i];
    inDegree[i] := inDegree[i] + 1;
    assert dependents[..] == old(dependents[..])[depIdx := old(dependents[..])[depIdx] + [i]];
    assert inDegree[..] == old(inDegree[..])[i := old(inDegree[..])[i] + 1];
  }

  /** The first `i` rows of `g`; the others are still empty. */
  ghost function RowsUpTo(g: seq<seq<nat>>, i: nat): (rows: seq<seq<nat>>)
    ensures |rows| == |g|
  {
    seq(|g|, k requires 0 <= k < |g| => if k < i then g[k] else [])
  }

  lemma AllRows(g: seq<seq<nat>>)
    ensures RowsUpTo(g, |g|) == g
  {
  }

  lemma TargetsOneMore(deps: seq<string>, idx: map<string, nat>, p: nat)
    requires p < |deps| && deps[p] in idx
    ensures Targets(deps[..p + 1], idx) == Targets(deps[..p], idx) + [idx[deps[p]]]
  {
    assert deps[..p + 1][..p] == deps[..p];
  }

  lemma OneRefMore(ms: seq<Manifest>, i: nat, p: nat)
    requires i < |ms| && p < |ms[i].dependsOn| && RefsOkUpTo(ms, i, p)
    requires ms[i].dependsOn[p] != ms[i].name && ms[i].dependsOn[p] in IndexByName(ms)
    ensures RefsOkUpTo(ms, i, p + 1)
  {
    hide IndexByName;
  }

  method LinkManifest(ms: seq<Manifest>, idxByName: map<string, nat>, i: nat,
                      inDegree: array<int>, dependents: array<seq<nat>>) returns (failure: Option<OrderError>)
    requires idxByName == IndexByName(ms) && i < |ms| && RefsOkUpTo(ms, i, 0)
    requires Linked(RowsUpTo(IndexGraph(ms), i), inDegree[..], dependents[..])
    modifies inDegree, dependents
    ensures failure.None? ==> RefsOkUpTo(ms, i + 1, 0)
    ensures failure.None? ==> Linked(RowsUpTo(IndexGraph(ms), i + 1), inDegree[..], dependents[..])
    ensures failure.Some? ==> exists p :: FirstBadRef(ms, i, p, failure.value)
  {
    ghost var g := IndexGraph(ms);
    ghost var rows := RowsUpTo(g, i);
    var deps := ms[i].dependsOn;
    assert rows[i := []] == rows;
    for p := 0 to |deps|
      invariant RefsOkUpTo(ms, i, p)
      invariant Linked(rows[i := Targets(deps[..p], idxByName)], inDegree[..], dependents[..])
    {
      var dep := deps[p];
      if dep == ms[i].name {
        failure := Some(SelfDependency(ms[i].name));
        assert FirstBadRef(ms, i, p, failure.value);
        return;
      }
      if dep !in idxByName {
        failure := Some(UnknownDependency(dep));
        assert FirstBadRef(ms, i, p, failure.value);
        return;
      }
      var depIdx := idxByName[dep];
      ghost var part := Targets(deps[..p], idxByName);
      TargetsOneMore(deps, idxByName, p);
      hide Linked, Targets, RefsOkUpTo;
      LinkOne(rows[i := part], inDegree, dependents, i, depIdx);
      assert rows[i := part][i := part + [depIdx]] == rows[i := part + [depIdx]];
      OneRefMore(ms, i, p);
    }
    assert deps[..|deps|] == deps;
    assert rows[i := g[i]] == RowsUpTo(g, i + 1);
    return None;
  }

  method NoLinks(ghost g: seq<seq<nat>>, n: nat) returns (inDegree: array<int>, dependents: array<seq<nat>>)
    requires |g| == n
    ensures fresh(inDegree) && fresh(dependents) && inDegree.Length == dependents.Length == n
    ensures Linked(RowsUpTo(g, 0), inDegree[..], dependents[..])
  {
    inDegree := new int[n](_ => 0);
    dependents := new seq<nat>[n](_ => []);
  }

  method LinkDependencies(ms: seq<Manifest>, idxByName: map<string, nat>)
      returns (inDegree: array<int>, dependents: array<seq<nat>>, failure: Option<OrderError>)
    requires idxByName == IndexByName(ms)
    ensures fresh(inDegree) && fresh(dependents)
    ensures failure.None? ==> RefsOkUpTo(ms, |ms|, 0) && Linked(IndexGraph(ms), inDegree[..], dependents[..])
    ensures failure.Some? ==> exists i, p :: FirstBadRef(ms, i, p, failure.value)
  {
    ghost var g := IndexGraph(ms);
    inDegree, dependents := NoLinks(g, |ms|);
    assert RefsOkUpTo(ms, 0, 0);
    hide *;
    for i := 0 to |ms|
      invariant RefsOkUpTo(ms, i, 0)
      invariant Linked(RowsUpTo(g, i), inDegree[..], dependents[..])
    {
      failure := LinkManifest(ms, idxByName, i, inDegree, dependents);
      if failure.Some? {
        return;
      }
    }
    AllRows(g);
    failure := None;
  }

  /** Everything a round starts from. */
  ghost predicate RoundStart(g: Graph, layers: seq<seq<nat>>, level: map<nat, nat>, inDegree: seq<int>) {
    && Layered(g, layers, level) && HeldBack(g, layers, level)
    && Counted(g, level.Keys, level.Keys, inDegree)
  }

  lemma FirstRound(g: Graph, inDegree: seq<int>)
    requires |inDegree| == |g| && forall i :: 0 <= i < |g| ==> inDegree[i] == |g[i]|
    ensures RoundStart(g, [], map[], inDegree)
  {
    var none: map<nat, nat> := map[];
    assert none.Keys == {};
    forall k | 0 <= k < |g| ensures Pending(g[k], {}) == |g[k]| { PendingNone(g[k]); }
  }

  lemma NextRound(g: Graph, layers: seq<seq<nat>>, level: map<nat, nat>, inDegree: seq<int>, current: seq<nat>)
    requires Layered(g, layers, level) && HeldBack(g, layers, level)
    requires FreeNodes(g, level, current) && current != []
    requires var after := level.Keys + set x | x in current; Counted(g, after, after, inDegree)
    ensures var next := Place(level, current, |layers|);
            RoundStart(g, layers + [current], next, inDegree) && |next| == |level| + |current|
  {
    PlacedLayer(g, layers, level, current);
    PlacedHoldsBack(g, layers, level, current);
    PlaceKeys(g, level, current, |layers|);
  }

  /** One round: the free nodes, taken out of the graph. None are left when there is a cycle. */
  method PlaceLayer(ghost g: Graph, ghost layers: seq<seq<nat>>, ghost level: map<nat, nat>,
                    inDegree: array<int>, dependents: array<seq<nat>>) returns (current: seq<nat>, ghost next: map<nat, nat>)
    requires inDegree.Length == |g| && |level| < |g|
    requires RoundStart(g, layers, level, inDegree[..]) && Reversed(g, dependents[..])
    modifies inDegree
    ensures current == [] ==> exists p :: IsCycle(g, p)
    ensures current != [] ==> RoundStart(g, layers + [current], next, inDegree[..])
    ensures current != [] ==> |next| == |level| + |current| <= |g|
  {
    hide Layered, HeldBack, Reversed, Place, IsCycle, Counted, Pending;
    next := level;
    current := CollectFree(inDegree);
    ZeroIsFree(g, level, inDegree[..], current);
    if |current| == 0 {
      NoneFreeHasCycle(g, level);
      return;
    }
    RetireLayer(g, level.Keys, inDegree, dependents, current);
    NextRound(g, layers, level, inDegree[..], current);
    next := Place(level, current, |layers|);
    LayeredBound(g, layers + [current], next);
  }

  lemma LayeredBound(g: Graph, layers: seq<seq<nat>>, level: map<nat, nat>)
    requires Layered(g, layers, level)
    ensures |level| <= |g|
  {
    AllKeys(g, level);
  }

  /** Repeats whole rounds until every node is placed or no node is free. */
  method LayerByLayer(ghost g: Graph, inDegree: array<int>, dependents: array<seq<nat>>)
      returns (layers: seq<seq<nat>>, processed: nat)
    requires Linked(g, inDegree[..], dependents[..])
    modifies inDegree
    ensures processed == |g| ==> ExactLayers(g, layers) && Acyclic(g)
    ensures processed != |g| ==> exists p :: IsCycle(g, p)
  {
    var n := inDegree.Length;
    ghost var level: map<nat, nat> := map[];
    layers, processed := [], 0;
    FirstRound(g, inDegree[..]);
    while processed < n
      invariant RoundStart(g, layers, level, inDegree[..])
      invariant processed == |level|
      decreases n - processed
    {
      hide Layered, HeldBack, Acyclic, Reversed, Place, FreeNodes, IsCycle, StrictlyIncreasing, RoundStart;
      var current;
      ghost var next;
      current, next := PlaceLayer(g, layers, level, inDegree, dependents);
      if |current| == 0 {
        return;
      }
      level := next;
      layers := layers + [current];
      processed := processed + |current|;
    }
    AllKeys(g, level);
    AllPlaced(g, layers, level);
  }

  lemma NoDependsOnResolves(ms: seq<Manifest>)
    requires !HasAnyDependsOn(ms)
    ensures Resolvable(ms)
  {
    RankedIsAcyclic(IndexGraph(ms), map i | i in Below(|ms|) :: 0);
  }

  lemma ExactLayersAreEarlier(ms: seq<Manifest>, layers: seq<seq<nat>>)
    requires ExactLayers(IndexGraph(ms), layers)
    ensures NeedsAreEarlier(ms, layers)
  {
    var g := IndexGraph(ms);
    hide IndexGraph, Needs;
    forall l: nat, m: nat, i: nat, d: nat | l < |layers| && m < |layers| && i in layers[l] && d in layers[m] && Needs(ms, i, d)
      ensures m < l
    {
      assert i < |g| && DepthIs(g, i, l) && DepthIs(g, d, m);
      EdgesAreNames(ms, i, d);
      var k := DependencyIsEarlier(g, layers, l, i, d);
      assert DepthIs(g, d, k);
      DepthIsUnique(g, d, k, m);
    }
  }

  lemma DepthIsUnique(g: Graph, i: nat, k: nat, m: nat)
    requires DepthIs(g, i, k) && DepthIs(g, i, m)
    ensures k == m
  {
  }

  /** The result in terms of the names of the manifests: it is an order exactly when every name is good
      and no manifests need each other in a ring; then all dependencies are in earlier layers. */
  ghost predicate OrdersByName(ms: seq<Manifest>, r: Result<seq<seq<nat>>, OrderError>) {
    && (r.Ok? <==> GoodNames(ms) && forall p :: !NameCycle(ms, p))
    && (r.Ok? ==> NeedsAreEarlier(ms, r.value))
    && (r.Ok? ==> forall i: nat :: i < |ms| ==> Placed(r.value, i))
    && (r.Err? && !GoodNames(ms) ==> exists i, q :: FirstBadName(ms, i, q, r.error))
    && (r.Err? && GoodNames(ms) ==> r.error == CircularDependency && exists p :: NameCycle(ms, p))
  }

  lemma OrderByName(ms: seq<Manifest>, r: Result<seq<seq<nat>>, OrderError>)
    requires r.Ok? <==> Resolvable(ms)
    requires r.Ok? ==> if HasAnyDependsOn(ms) then ExactLayers(IndexGraph(ms), r.value) else r.value == seq(|ms|, i => [i])
    requires r.Err? && !RefsOk(ms) ==> exists i, p :: FirstBadRef(ms, i, p, r.error)
    requires r.Err? && RefsOk(ms) ==> r.error == CircularDependency && exists p :: IsCycle(IndexGraph(ms), p)
    ensures OrdersByName(ms, r)
  {
    ResolvableByName(ms);
    RefsOkIsGoodNames(ms);
    if r.Ok? {
      LayersByName(ms, r.value);
      hide *;
    } else if !RefsOk(ms) {
      var i, p :| FirstBadRef(ms, i, p, r.error);
      BadRefIsBadName(ms, i, p, r.error);
      hide Resolvable, RefsOk, GoodNames, FirstBadName, NameCycle;
    } else {
      var p :| IsCycle(IndexGraph(ms), p);
      CyclesAreNameCycles(ms, p);
      hide Resolvable, RefsOk, GoodNames, FirstBadName, NameCycle, IsCycle;
    }
    hide Resolvable, RefsOk, GoodNames, FirstBadName, NameCycle, NeedsAreEarlier, Placed;
  }

  lemma LayersByName(ms: seq<Manifest>, layers: seq<seq<nat>>)
    requires if HasAnyDependsOn(ms) then ExactLayers(IndexGraph(ms), layers) else layers == seq(|ms|, i => [i])
    ensures NeedsAreEarlier(ms, layers) && forall i: nat :: i < |ms| ==> Placed(layers, i)
  {
    if HasAnyDependsOn(ms) {
      ExactLayersAreEarlier(ms, layers);
    } else {
      forall i: nat | i < |ms| ensures Placed(layers, i) {
        assert i in layers[i];
      }
    }
  }

  method ResolveDependencyOrder(ms: seq<Manifest>) returns (r: Result<seq<seq<nat>>, OrderError>)
    ensures r.Ok? <==> Resolvable(ms)
    ensures !HasAnyDependsOn(ms) ==> r == Ok(seq(|ms|, i => [i]))
    ensures HasAnyDependsOn(ms) && r.Ok? ==> ExactLayers(IndexGraph(ms), r.value)
    ensures r.Err? && !RefsOk(ms) ==> exists i, p :: FirstBadRef(ms, i, p, r.error)
    ensures r.Err? && RefsOk(ms) ==> r.error == CircularDependency && exists p :: IsCycle(IndexGraph(ms), p)
    ensures (forall i :: 0 <= i < |ms| ==> ms[i].dependsOn == []) ==> r == Ok(seq(|ms|, i => [i]))
    ensures OrdersByName(ms, r)
  {
    hide OrdersByName, IsCycle;
    if !HasAnyDependsOn(ms) {
      NoDependsOnResolves(ms);
    }
    if |ms| == 0 {
      assert seq(|ms|, i => [i]) == [];
      r := Ok([]);
      OrderByName(ms, r);
      return;
    }
    if !HasAnyDependsOn(ms) {
      r := Ok(seq(|ms|, i => [i]));
      OrderByName(ms, r);
      return;
    }
    var idxByName := BuildIndex(ms);
    var inDegree, dependents, failure := LinkDependencies(ms, idxByName);
    if failure.Some? {
      r := Err(failure.value);
      OrderByName(ms, r);
      return;
    }
    var layers, processed := LayerByLayer(IndexGraph(ms), inDegree, dependents);
    if processed != |ms| {
      r := Err(CircularDependency);
      OrderByName(ms, r);
      return;
    }
    r := Ok(layers);
    OrderByName(ms, r);
  }
}
