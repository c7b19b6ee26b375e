// The graph that dependsOn induces on manifest positions: chains, cycles and depth,
// independent of any algorithm.
module DependencyGraph {
  import opened Common

  /** `g[i]` lists the positions that node `i` depends on, repetitions included. */
  type Graph = g: seq<seq<nat>> | forall i, p :: 0 <= i < |g| && 0 <= p < |g[i]| ==> g[i][p] < |g|

  /** A walk along dependencies: every element depends on the next one. */
  ghost predicate IsChain(g: Graph, p: seq<nat>) {
    && |p| > 0
    && (forall k :: 0 <= k < |p| ==> p[k] < |g|)
    && (forall k :: 0 <= k < |p| - 1 ==> p[k + 1] in g[p[k]])
  }

  ghost predicate IsCycle(g: Graph, p: seq<nat>) {
    IsChain(g, p) && |p| >= 2 && p[0] == p[|p| - 1]
  }

  ghost predicate Acyclic(g: Graph) {
    forall p :: !IsCycle(g, p)
  }

  /** `n` is the number of dependency steps of the longest chain that starts at `i`. */
  ghost predicate DepthIs(g: Graph, i: nat, n: nat) {
    && (exists p :: IsChain(g, p) && p[0] == i && |p| == n + 1)
    && (forall p :: IsChain(g, p) && p[0] == i ==> |p| <= n + 1)
  }

  predicate StrictlyIncreasing(s: seq<nat>) {
    forall a, b :: 0 <= a < b < |s| ==> s[a] < s[b]
  }

  /** Layer `l` holds exactly the nodes of depth `l`, in declaration order, and no node is missing. */
  ghost predicate ExactLayers(g: Graph, layers: seq<seq<nat>>) {
    && (forall l :: 0 <= l < |layers| ==> layers[l] != [] && StrictlyIncreasing(layers[l]))
    && (forall l, i: nat :: 0 <= l < |layers| ==> (i in layers[l] <==> i < |g| && DepthIs(g, i, l)))
    && (forall i: nat :: i < |g| ==> Placed(layers, i))
  }

  ghost predicate Placed(layers: seq<seq<nat>>, i: nat) {
    exists l :: 0 <= l < |layers| && i in layers[l]
  }

  lemma ExtendChain(g: Graph, i: nat, p: seq<nat>)
    requires IsChain(g, p) && i < |g| && p[0] in g[i]
    ensures IsChain(g, [i] + p)
  {
    var q := [i] + p;
    forall k | 0 <= k < |q| - 1 ensures q[k + 1] in g[q[k]] {
      if k > 0 { assert p[k] in g[p[k - 1]]; }
    }
  }

  lemma SliceChain(g: Graph, p: seq<nat>, a: nat, b: nat)
    requires IsChain(g, p) && a < b <= |p|
    ensures IsChain(g, p[a..b])
  {
    var q := p[a..b];
    forall k | 0 <= k < |q| - 1 ensures q[k + 1] in g[q[k]] {
      assert p[a + k + 1] in g[p[a + k]];
    }
  }

  // ---------- Numbering the nodes so that every dependency gets a smaller number ----------

  ghost predicate Descends(g: Graph, rank: map<nat, nat>) {
    forall i, d :: i in rank && i < |g| && d in g[i] ==> d in rank && rank[d] < rank[i]
  }

  lemma {:induction false} ChainDescends(g: Graph, rank: map<nat, nat>, p: seq<nat>)
    requires Descends(g, rank) && IsChain(g, p) && p[0] in rank
    ensures p[|p| - 1] in rank && rank[p[|p| - 1]] + |p| - 1 <= rank[p[0]]
    decreases |p|
  {
    if |p| > 1 {
      assert p[1] in g[p[0]];
      ChainDescends(g, rank, p[1..]);
    }
  }

  /** A numbering of all nodes rules out cycles. */
  lemma RankedIsAcyclic(g: Graph, rank: map<nat, nat>)
    requires Descends(g, rank) && forall i: nat :: i < |g| ==> i in rank
    ensures Acyclic(g)
  {
    forall p | IsCycle(g, p) ensures false {
      ChainDescends(g, rank, p);
    }
  }

  /** Any numbering places a node no earlier than its depth: no schedule can be shorter. */
  lemma NoEarlierPlacement(g: Graph, rank: map<nat, nat>, i: nat, n: nat)
    requires Descends(g, rank) && i in rank && DepthIs(g, i, n)
    ensures n <= rank[i]
  {
    var p :| IsChain(g, p) && p[0] == i && |p| == n + 1;
    ChainDescends(g, rank, p);
  }

  // ---------- A set of nodes none of which can be freed contains a cycle ----------

  ghost predicate WaitsOutside(g: Graph, done: set<nat>, i: nat)
    requires i < |g|
  {
    exists d :: d in g[i] && d !in done
  }

  ghost predicate Stuck(g: Graph, done: set<nat>) {
    forall i: nat {:trigger WaitsOutside(g, done, i)} :: i < |g| && i !in done ==> WaitsOutside(g, done, i)
  }

  lemma {:induction false} WalkOutside(g: Graph, done: set<nat>, i: nat, n: nat) returns (p: seq<nat>)
    requires Stuck(g, done) && i < |g| && i !in done
    ensures IsChain(g, p) && |p| == n + 1 && p[0] == i
    decreases n
  {
    if n == 0 {
      p := [i];
    } else {
      assert WaitsOutside(g, done, i);
      var d :| d in g[i] && d !in done;
      var rest := WalkOutside(g, done, d, n - 1);
      ExtendChain(g, i, rest);
      p := [i] + rest;
    }
  }

  lemma StuckHasCycle(g: Graph, done: set<nat>, i: nat)
    requires Stuck(g, done) && i < |g| && i !in done
    ensures exists p :: IsCycle(g, p)
  {
    var p := WalkOutside(g, done, i, |g|);
    Pigeonhole(p, |g|);
    var a, b :| 0 <= a < b < |p| && p[a] == p[b];
    SliceChain(g, p, a, b + 1);
    assert IsCycle(g, p[a..b + 1]);
  }

  // ---------- Level numbers are depths ----------

  /** Every node on a level above 0 depends on some node of the level just below. */
  ghost predicate Tight(g: Graph, level: map<nat, nat>) {
    forall i :: i in level && i < |g| && level[i] > 0 ==>
      exists d :: d in g[i] && d in level && level[d] == level[i] - 1
  }

  lemma {:induction false} ChainOfLevel(g: Graph, level: map<nat, nat>, i: nat) returns (p: seq<nat>)
    requires Descends(g, level) && Tight(g, level) && i in level && i < |g|
    ensures IsChain(g, p) && p[0] == i && |p| == level[i] + 1
    decreases level[i]
  {
    if level[i] == 0 {
      p := [i];
    } else {
      var d :| d in g[i] && d in level && level[d] == level[i] - 1;
      var rest := ChainOfLevel(g, level, d);
      ExtendChain(g, i, rest);
      p := [i] + rest;
    }
  }

  lemma LevelIsDepth(g: Graph, level: map<nat, nat>, i: nat, n: nat)
    requires Descends(g, level) && Tight(g, level) && i in level && i < |g|
    ensures DepthIs(g, i, n) <==> n == level[i]
  {
    var p := ChainOfLevel(g, level, i);
    forall q | IsChain(g, q) && q[0] == i ensures |q| <= level[i] + 1 {
      ChainDescends(g, level, q);
    }
    if n == level[i] {
      assert DepthIs(g, i, n);
    }
  }

  // ---------- The layers are determined ----------

  lemma DepthIsUnique(g: Graph, i: nat, m: nat, n: nat)
    requires DepthIs(g, i, m) && DepthIs(g, i, n)
    ensures m == n
  {
  }

  lemma {:induction false} IncreasingIsUnique(s: seq<nat>, t: seq<nat>)
    requires StrictlyIncreasing(s) && StrictlyIncreasing(t)
    requires forall i :: i in s <==> i in t
    ensures s == t
  {
    assert s != [] ==> s[0] in s;
    assert t != [] ==> t[0] in t;
    if s != [] {
      SameFirst(s, t);
      assert s == [s[0]] + s[1..] && t == [t[0]] + t[1..];
      FirstNotInRest(s);
      FirstNotInRest(t);
      IncreasingIsUnique(s[1..], t[1..]);
    }
  }

  lemma SameFirst(s: seq<nat>, t: seq<nat>)
    requires StrictlyIncreasing(s) && StrictlyIncreasing(t) && s != [] && t != []
    requires forall i :: i in s <==> i in t
    ensures s[0] == t[0]
  {
    assert s[0] in t && t[0] in s;
  }

  lemma FirstNotInRest(s: seq<nat>)
    requires StrictlyIncreasing(s) && s != []
    ensures forall i :: i in s[1..] <==> i in s && i != s[0]
  {
    assert s == [s[0]] + s[1..];
  }

  /** A graph has at most one exact layering. */
  lemma LayersAreUnique(g: Graph, a: seq<seq<nat>>, b: seq<seq<nat>>)
    requires ExactLayers(g, a) && ExactLayers(g, b)
    ensures a == b
  {
    NoMoreLayers(g, a, b);
    NoMoreLayers(g, b, a);
    forall l | 0 <= l < |a| ensures a[l] == b[l] {
      SameLayer(g, a, b, l);
    }
  }

  lemma SameLayer(g: Graph, a: seq<seq<nat>>, b: seq<seq<nat>>, l: nat)
    requires ExactLayers(g, a) && ExactLayers(g, b) && l < |a| && l < |b|
    ensures a[l] == b[l]
  {
    forall i: nat ensures i in a[l] <==> i in b[l] {
      assert i in a[l] <==> i < |g| && DepthIs(g, i, l);
      assert i in b[l] <==> i < |g| && DepthIs(g, i, l);
    }
    hide DepthIs, Placed;
    IncreasingIsUnique(a[l], b[l]);
  }

  lemma NoMoreLayers(g: Graph, a: seq<seq<nat>>, b: seq<seq<nat>>)
    requires ExactLayers(g, a) && ExactLayers(g, b)
    ensures |b| <= |a|
  {
    if |b| > |a| {
      var i := b[|a|][0];
      assert i in b[|a|];
      assert DepthIs(g, i, |a|) && Placed(a, i);
      var l :| 0 <= l < |a| && i in a[l];
      DepthIsUnique(g, i, l, |a|);
    }
  }

  // ---------- Counting the dependencies that are still open ----------

  /** How many entries of `deps` are not in `done`. */
  ghost function Pending(deps: seq<nat>, done: set<nat>): nat {
    if deps == [] then 0
    else (if deps[0] in done then 0 else 1) + Pending(deps[1..], done)
  }

  /** Finishing one more node closes exactly the entries that name it. */
  lemma {:induction false} PendingAfter(deps: seq<nat>, done: set<nat>, j: nat)
    requires j !in done
    ensures Pending(deps, done + {j}) == Pending(deps, done) - multiset(deps)[j]
  {
    if deps != [] {
      PendingAfter(deps[1..], done, j);
      assert deps == [deps[0]] + deps[1..];
    }
  }

  lemma {:induction false} PendingZero(deps: seq<nat>, done: set<nat>)
    ensures Pending(deps, done) == 0 <==> forall d :: d in deps ==> d in done
  {
    if deps != [] {
      PendingZero(deps[1..], done);
      assert deps == [deps[0]] + deps[1..];
    }
  }

  lemma {:induction false} PendingNone(deps: seq<nat>)
    ensures Pending(deps, {}) == |deps|
  {
    if deps != [] { PendingNone(deps[1..]); }
  }

  /** A dependency sits in an earlier layer. */
  lemma DependencyIsEarlier(g: Graph, layers: seq<seq<nat>>, l: nat, i: nat, d: nat) returns (m: nat)
    requires ExactLayers(g, layers) && l < |layers| && i in layers[l] && i < |g| && d in g[i]
    ensures m < l && d in layers[m]
  {
    assert d < |g| && Placed(layers, d);
    var k :| 0 <= k < |layers| && d in layers[k];
    m := k;
    assert DepthIs(g, i, l) && DepthIs(g, d, m);
    var q :| IsChain(g, q) && q[0] == d && |q| == m + 1;
    ExtendChain(g, i, q);
    assert |[i] + q| <= l + 1;
  }
}
