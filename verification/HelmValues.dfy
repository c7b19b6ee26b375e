// Merging helm values: later sources win, tables merge key by key.
module HelmValues {

  datatype Value = Scalar(text: string) | Table(entries: map<string, Value>)

  type Entries = map<string, Value>

  const EMPTY := Table(map[])

  /** Two tables merge; otherwise the right value replaces the left one. */
  function Merge(a: Value, b: Value): Value
    decreases b
  {
    if a.Table? && b.Table? then
      Table(map k | k in a.entries.Keys + b.entries.Keys ::
              if k !in b.entries then a.entries[k]
              else if k !in a.entries then b.entries[k]
              else Merge(a.entries[k], b.entries[k]))
    else b
  }

  /** The loop over the right map, in any order. */
  method MergeMaps(a: Entries, b: Entries) returns (out: Entries)
    ensures Table(out) == Merge(Table(a), Table(b))
    decreases Table(b)
  {
    out := a;
    var left := b.Keys;
    ghost var seen: set<string> := {};
    while left != {}
      invariant left + seen == b.Keys && left !! seen
      invariant out.Keys == a.Keys + seen
      invariant forall k :: k in a && k !in seen ==> out[k] == a[k]
      invariant forall k :: k in seen ==> out[k] == if k in a then Merge(a[k], b[k]) else b[k]
      decreases left
    {
      var k :| k in left;
      left, seen := left - {k}, seen + {k};
      var v := b[k];
      if v.Table? && k in out && out[k].Table? {
        var merged := MergeMaps(out[k].entries, v.entries);
        out := out[k := Table(merged)];
      } else {
        out := out[k := v];
      }
    }
    assert seen == b.Keys;
    assert Table(out) == Merge(Table(a), Table(b));
  }

  // ---------- What a merge holds ----------

  /** `v` has the scalar `text` at `path`. */
  predicate ScalarAt(v: Value, path: seq<string>, text: string) {
    if path == [] then v == Scalar(text)
    else v.Table? && path[0] in v.entries && ScalarAt(v.entries[path[0]], path[1..], text)
  }

  /** `v` says something about `path`: it has a value there, or a scalar on the way. */
  predicate Decides(v: Value, path: seq<string>) {
    v.Scalar? || path == [] || (path[0] in v.entries && Decides(v.entries[path[0]], path[1..]))
  }

  /** The scalars of a merge are those of the right side and those of the left side on paths the
      right side says nothing about. */
  lemma {:induction false} MergeScalars(a: Value, b: Value, path: seq<string>, text: string)
    ensures ScalarAt(Merge(a, b), path, text) <==> ScalarAt(b, path, text) || (ScalarAt(a, path, text) && !Decides(b, path))
    decreases |path|
  {
    if path != [] && a.Table? && b.Table? && path[0] in a.entries && path[0] in b.entries {
      MergeScalars(a.entries[path[0]], b.entries[path[0]], path[1..], text);
    }
  }

  lemma EmptyIsIdentity(a: Value)
    requires a.Table?
    ensures Merge(a, EMPTY) == a && Merge(EMPTY, a) == a
  {
    assert Merge(a, EMPTY).entries == a.entries;
    assert Merge(EMPTY, a).entries == a.entries;
  }

  // ---------- When the grouping of merges does not matter ----------

  /** Everything `a` has a say on is already in `c`. */
  predicate Absorbed(a: Value, c: Value) {
    a.Table? && c.Table? ==> forall k :: k in a.entries ==> k in c.entries && Absorbed(a.entries[k], c.entries[k])
  }

  lemma {:induction false} AbsorbedIff(a: Value, c: Value)
    ensures Merge(a, c) == c <==> Absorbed(a, c)
    decreases c
  {
    if a.Table? && c.Table? {
      var m := Merge(a, c);
      forall k | k in a.entries && k in c.entries
        ensures Merge(a.entries[k], c.entries[k]) == c.entries[k] <==> Absorbed(a.entries[k], c.entries[k])
      {
        AbsorbedIff(a.entries[k], c.entries[k]);
      }
      if Absorbed(a, c) {
        assert m.entries == c.entries;
      }
      if m == c {
        forall k | k in a.entries ensures k in c.entries && Absorbed(a.entries[k], c.entries[k]) {
          assert k in m.entries;
        }
      }
    }
  }

  /** No scalar sits between two tables at the same path, unless the last table repeats the first. */
  predicate Groupable(a: Value, b: Value, c: Value) {
    && (a.Table? && b.Scalar? && c.Table? ==> Absorbed(a, c))
    && (a.Table? && b.Table? && c.Table? ==>
          forall k :: k in a.entries && k in b.entries && k in c.entries ==>
            Groupable(a.entries[k], b.entries[k], c.entries[k]))
  }

  lemma MergeAtKey(a: Value, b: Value, k: string)
    requires a.Table? && b.Table?
    ensures Merge(a, b).Table?
    ensures k in Merge(a, b).entries <==> k in a.entries || k in b.entries
    ensures k in Merge(a, b).entries ==>
              Merge(a, b).entries[k] ==
              if k !in b.entries then a.entries[k]
              else if k !in a.entries then b.entries[k]
              else Merge(a.entries[k], b.entries[k])
  {
  }

  /** Merging is associative exactly on groupable values. */
  lemma {:induction false} AssociativeIff(a: Value, b: Value, c: Value)
    ensures Merge(Merge(a, b), c) == Merge(a, Merge(b, c)) <==> Groupable(a, b, c)
    decreases c
  {
    if a.Table? && b.Scalar? && c.Table? {
      AbsorbedIff(a, c);
    } else if a.Table? && b.Table? && c.Table? {
      var l, r := Merge(Merge(a, b), c), Merge(a, Merge(b, c));
      forall k: string
        ensures k in l.entries <==> k in r.entries
        ensures k in l.entries ==>
                  (l.entries[k] == r.entries[k] <==>
                     (k in a.entries && k in b.entries && k in c.entries ==> Groupable(a.entries[k], b.entries[k], c.entries[k])))
      {
        MergeAtKey(a, b, k);
        MergeAtKey(b, c, k);
        MergeAtKey(Merge(a, b), c, k);
        MergeAtKey(a, Merge(b, c), k);
        if k in a.entries && k in b.entries && k in c.entries {
          AssociativeIff(a.entries[k], b.entries[k], c.entries[k]);
        }
      }
      hide Merge;
      if Groupable(a, b, c) {
        assert l.entries == r.entries;
      }
      if l == r {
        forall k | k in a.entries && k in b.entries && k in c.entries ensures Groupable(a.entries[k], b.entries[k], c.entries[k]) {
          assert l.entries[k] == r.entries[k];
        }
      }
    }
  }

  /** A scalar between two tables drops the first table in one grouping and keeps it in the other. */
  lemma ScalarBetweenTables(k: string, x: string, y: string, v: Value, u: Value, text: string)
    requires x != y
    ensures var a, b, c := Table(map[k := Table(map[x := v])]), Table(map[k := Scalar(text)]), Table(map[k := Table(map[y := u])]);
            Merge(Merge(a, b), c) != Merge(a, Merge(b, c))
  {
    var a, b, c := Table(map[k := Table(map[x := v])]), Table(map[k := Scalar(text)]), Table(map[k := Table(map[y := u])]);
    AssociativeIff(a, b, c);
    hide Merge;
    assert x in a.entries[k].entries && x !in c.entries[k].entries;
    assert !Absorbed(a.entries[k], c.entries[k]);
    assert !Groupable(a.entries[k], b.entries[k], c.entries[k]);
    assert k in a.entries && k in b.entries && k in c.entries;
  }

  // ---------- Folding the sources of a release ----------

  /** No path is a table in one and a scalar in the other. */
  predicate Compatible(a: Value, b: Value) {
    if a.Table? && b.Table? then
      forall k :: k in a.entries && k in b.entries ==> Compatible(a.entries[k], b.entries[k])
    else a.Scalar? && b.Scalar?
  }

  lemma {:induction false} CompatibleIsSymmetric(a: Value, b: Value)
    requires Compatible(a, b)
    ensures Compatible(b, a)
    decreases a
  {
    if a.Table? {
      forall k | k in b.entries && k in a.entries ensures Compatible(b.entries[k], a.entries[k]) {
        CompatibleIsSymmetric(a.entries[k], b.entries[k]);
      }
    }
  }

  lemma {:induction false} CompatibleIsGroupable(a: Value, b: Value, c: Value)
    requires Compatible(a, b)
    ensures Groupable(a, b, c)
    decreases c
  {
    if a.Table? && b.Table? && c.Table? {
      forall k | k in a.entries && k in b.entries && k in c.entries ensures Groupable(a.entries[k], b.entries[k], c.entries[k]) {
        CompatibleIsGroupable(a.entries[k], b.entries[k], c.entries[k]);
      }
    }
  }

  lemma {:induction false} CompatibleWithMerge(a: Value, b: Value, c: Value)
    requires Compatible(a, b) && Compatible(a, c)
    ensures Compatible(a, Merge(b, c))
    decreases c
  {
    if a.Table? {
      var m := Merge(b, c);
      forall k | k in a.entries && k in m.entries ensures Compatible(a.entries[k], m.entries[k]) {
        MergeAtKey(b, c, k);
        if k in b.entries && k in c.entries {
          CompatibleWithMerge(a.entries[k], b.entries[k], c.entries[k]);
        }
      }
    }
  }

  /** Sources merged one after the other onto `start`. */
  function FoldOnto(start: Value, sources: seq<Value>): Value {
    if sources == [] then start
    else Merge(FoldOnto(start, sources[..|sources| - 1]), sources[|sources| - 1])
  }

  ghost predicate AllCompatible(sources: seq<Value>) {
    && (forall i :: 0 <= i < |sources| ==> sources[i].Table?)
    && forall i, j :: 0 <= i < j < |sources| ==> Compatible(sources[i], sources[j])
  }

  lemma {:induction false} FoldCompatible(v: Value, sources: seq<Value>)
    requires v.Table? && forall i :: 0 <= i < |sources| ==> Compatible(v, sources[i])
    ensures Compatible(v, FoldOnto(EMPTY, sources))
  {
    if sources != [] {
      var front := sources[..|sources| - 1];
      FoldCompatible(v, front);
      CompatibleWithMerge(v, FoldOnto(EMPTY, front), sources[|sources| - 1]);
    }
  }

  /** Folding onto `start` is merging `start` with the fold on its own. */
  lemma {:induction false} FoldSeparates(start: Value, sources: seq<Value>)
    requires start.Table? && forall i :: 0 <= i < |sources| ==> Compatible(start, sources[i])
    ensures FoldOnto(start, sources) == Merge(start, FoldOnto(EMPTY, sources))
  {
    if sources == [] {
      EmptyIsIdentity(start);
    } else {
      var front, last := sources[..|sources| - 1], sources[|sources| - 1];
      FoldSeparates(start, front);
      FoldCompatible(start, front);
      CompatibleIsGroupable(start, FoldOnto(EMPTY, front), last);
      AssociativeIff(start, FoldOnto(EMPTY, front), last);
    }
  }

  lemma {:induction false} FoldAppend(start: Value, a: seq<Value>, b: seq<Value>)
    ensures FoldOnto(start, a + b) == FoldOnto(FoldOnto(start, a), b)
    decreases |b|
  {
    if b == [] {
      assert a + b == a;
    } else {
      assert (a + b)[..|a + b| - 1] == a + b[..|b| - 1];
      FoldAppend(start, a, b[..|b| - 1]);
      hide Merge;
    }
  }

  lemma CompatibleSources(release: seq<Value>, extra: seq<Value>)
    requires AllCompatible(release + extra)
    ensures forall i :: 0 <= i < |extra| ==> Compatible(FoldOnto(EMPTY, release), extra[i])
    ensures AllTables(release) && AllTables(extra)
  {
    var start := FoldOnto(EMPTY, release);
    var all := release + extra;
    assert forall j :: 0 <= j < |release| ==> release[j] == all[j];
    assert forall j :: 0 <= j < |extra| ==> extra[j] == all[|release| + j];
    FoldIsTable(release);
    forall i | 0 <= i < |extra| ensures Compatible(start, extra[i]) {
      assert extra[i] == all[|release| + i];
      forall j | 0 <= j < |release| ensures Compatible(extra[i], release[j]) {
        assert release[j] == all[j];
        CompatibleIsSymmetric(release[j], extra[i]);
      }
      FoldCompatible(extra[i], release);
      CompatibleIsSymmetric(extra[i], start);
    }
  }

  /** Values of a release and shared extra values, folded apart and then merged, are all sources
      folded in order, as long as no path is a table in the values of the release and a scalar in an
      extra source, or the other way round. */
  lemma SharedExtrasFoldInOrder(release: seq<Value>, extra: seq<Value>)
    requires AllTables(release) && forall i :: 0 <= i < |extra| ==> Compatible(FoldOnto(EMPTY, release), extra[i])
    ensures Merge(FoldOnto(EMPTY, release), FoldOnto(EMPTY, extra)) == FoldOnto(EMPTY, release + extra)
  {
    FoldIsTable(release);
    hide Merge, Compatible;
    FoldSeparates(FoldOnto(EMPTY, release), extra);
    FoldAppend(EMPTY, release, extra);
  }

  // ---------- Exactly when they fold in order ----------

  predicate AllTables(sources: seq<Value>) {
    forall i :: 0 <= i < |sources| ==> sources[i].Table?
  }

  /** What the sources say at a key of their top level, in order. */
  function AtKey(sources: seq<Value>, k: string): seq<Value> {
    if sources == [] then []
    else
      var front, last := AtKey(sources[..|sources| - 1], k), sources[|sources| - 1];
      if last.Table? && k in last.entries then front + [last.entries[k]] else front
  }

  /** The sources after the last scalar. */
  function AfterScalar(sources: seq<Value>): (tables: seq<Value>)
    ensures AllTables(tables)
  {
    if sources == [] || sources[|sources| - 1].Scalar? then []
    else AfterScalar(sources[..|sources| - 1]) + [sources[|sources| - 1]]
  }

  /** Merging `v` with the fold of the sources can be put off until they have been folded: path by
      path, a scalar that a table follows must find everything of `v` said again after it. */
  ghost predicate FoldsApart(v: Value, sources: seq<Value>) {
    sources == [] || v.Scalar? ||
    if AllTables(sources) then forall k :: k in v.entries ==> FoldsApart(v.entries[k], AtKey(sources, k))
    else sources[|sources| - 1].Scalar? || Absorbed(v, FoldOnto(EMPTY, AfterScalar(sources)))
  }

  /** A scalar makes a fold forget what came before it. */
  const NOTHING := Scalar("")

  lemma {:induction false} FoldAfterScalar(start: Value, sources: seq<Value>)
    requires !AllTables(sources)
    ensures FoldOnto(start, sources) ==
            if sources[|sources| - 1].Scalar? then sources[|sources| - 1] else FoldOnto(EMPTY, AfterScalar(sources))
  {
    var front, last := sources[..|sources| - 1], sources[|sources| - 1];
    if last.Table? {
      assert !AllTables(front);
      FoldAfterScalar(start, front);
      EmptyIsIdentity(last);
      var tables := AfterScalar(front);
      assert (tables + [last])[..|tables|] == tables;
      FoldIsTable(tables);
      if front[|front| - 1].Scalar? {
        assert tables == [];
      }
    }
  }

  /** A fold of tables, key by key. */
  lemma {:induction false} FoldAtKey(start: Value, sources: seq<Value>, k: string)
    requires sources != [] && AllTables(sources)
    ensures var all, at := FoldOnto(start, sources), AtKey(sources, k);
            var known := start.Table? && k in start.entries;
            && all.Table? && (k in all.entries <==> known || at != [])
            && (k in all.entries ==> all.entries[k] == if at == [] then start.entries[k] else FoldOnto(if known then start.entries[k] else NOTHING, at))
  {
    var front, last := sources[..|sources| - 1], sources[|sources| - 1];
    var before := FoldOnto(start, front);
    if front == [] {
      assert AtKey(front, k) == [];
    } else {
      FoldAtKey(start, front, k);
    }
    if before.Table? {
      MergeAtKey(before, last, k);
    }
    hide Merge;
    if k in last.entries {
      var at := AtKey(front, k);
      assert (at + [last.entries[k]])[..|at|] == at;
      MergeNothing(last.entries[k]);
    }
    if !before.Table? {
      MergeScalar(before, last);
    }
  }

  lemma MergeNothing(v: Value)
    ensures Merge(NOTHING, v) == v
  {
  }

  lemma MergeScalar(a: Value, b: Value)
    requires a.Scalar? || b.Scalar?
    ensures Merge(a, b) == b
  {
  }

  lemma {:induction false} FoldOntoScalar(start: Value, sources: seq<Value>)
    requires start.Scalar? && sources != []
    ensures FoldOnto(start, sources) == FoldOnto(NOTHING, sources)
  {
    var front := sources[..|sources| - 1];
    if front == [] {
      MergeScalar(start, sources[0]);
      MergeScalar(NOTHING, sources[0]);
    } else {
      FoldOntoScalar(start, front);
    }
  }

  lemma {:induction false} FoldsApartIff(v: Value, sources: seq<Value>)
    requires sources != []
    ensures Merge(v, FoldOnto(NOTHING, sources)) == FoldOnto(v, sources) <==> FoldsApart(v, sources)
    decreases v
  {
    var apart := FoldOnto(NOTHING, sources);
    if v.Scalar? {
      FoldOntoScalar(v, sources);
      MergeScalar(v, apart);
    } else if !AllTables(sources) {
      FoldAfterScalar(v, sources);
      FoldAfterScalar(NOTHING, sources);
      AbsorbedIff(v, apart);
      hide Merge, FoldOnto, Absorbed;
      if apart.Scalar? {
        MergeScalar(v, apart);
      }
    } else {
      TablesFoldApartIff(v, sources);
    }
  }

  lemma {:induction false} TablesFoldApartIff(v: Value, sources: seq<Value>)
    requires sources != [] && v.Table? && AllTables(sources)
    ensures Merge(v, FoldOnto(NOTHING, sources)) == FoldOnto(v, sources) <==> FoldsApart(v, sources)
    decreases v, 0
  {
    var apart, inOrder := FoldOnto(NOTHING, sources), FoldOnto(v, sources);
    FoldAtKey(NOTHING, sources, "");
    FoldAtKey(v, sources, "");
    var l := Merge(v, apart);
    forall k: string
      ensures l.Table? && inOrder.Table? && (k in l.entries <==> k in inOrder.entries)
      ensures k in l.entries ==> (l.entries[k] == inOrder.entries[k] <==> (k in v.entries ==> FoldsApart(v.entries[k], AtKey(sources, k))))
    {
      FoldAtKey(NOTHING, sources, k);
      FoldAtKey(v, sources, k);
      MergeAtKey(v, apart, k);
      if k in v.entries && AtKey(sources, k) != [] {
        FoldsApartIff(v.entries[k], AtKey(sources, k));
      }
      hide Merge, FoldOnto, AtKey;
    }
    hide Merge, FoldOnto, AtKey;
    if FoldsApart(v, sources) {
      assert l.entries == inOrder.entries;
    }
    if l == inOrder {
      assert forall k :: k in v.entries ==> k in l.entries;
    }
  }

  /** For all sources: merging the two folds is folding all sources in order exactly when the extra
      sources fold apart from the values of the release. */
  lemma SharedExtrasFoldInOrderIff(release: seq<Value>, extra: seq<Value>)
    requires AllTables(release) && AllTables(extra)
    ensures Merge(FoldOnto(EMPTY, release), FoldOnto(EMPTY, extra)) == FoldOnto(EMPTY, release + extra)
            <==> FoldsApart(FoldOnto(EMPTY, release), extra)
  {
    var v := FoldOnto(EMPTY, release);
    FoldIsTable(release);
    FoldAppend(EMPTY, release, extra);
    if extra == [] {
      EmptyIsIdentity(v);
    } else {
      FoldsApartIff(v, extra);
      NothingIsEmpty(extra);
    }
  }

  lemma {:induction false} NothingIsEmpty(sources: seq<Value>)
    requires sources != [] && AllTables(sources)
    ensures FoldOnto(NOTHING, sources) == FoldOnto(EMPTY, sources)
  {
    var front := sources[..|sources| - 1];
    if front == [] {
      EmptyIsIdentity(sources[0]);
      MergeNothing(sources[0]);
    } else {
      NothingIsEmpty(front);
    }
  }

  lemma {:induction false} FoldIsTable(sources: seq<Value>)
    requires forall i :: 0 <= i < |sources| ==> sources[i].Table?
    ensures FoldOnto(EMPTY, sources).Table?
  {
    if sources != [] { FoldIsTable(sources[..|sources| - 1]); }
  }

  // ---------- What the folded sources say ----------

  /** Source `i` has the scalar at the path and no later source says anything about the path. */
  ghost predicate LastSays(sources: seq<Entries>, i: nat, path: seq<string>, text: string) {
    && i < |sources| && ScalarAt(Table(sources[i]), path, text)
    && forall j :: i < j < |sources| ==> !Decides(Table(sources[j]), path)
  }

  ghost predicate Says(sources: seq<Entries>, path: seq<string>, text: string) {
    exists i :: LastSays(sources, i, path, text)
  }

  lemma SaysOneMore(sources: seq<Entries>, last: Entries, path: seq<string>, text: string)
    ensures Says(sources + [last], path, text) <==>
            ScalarAt(Table(last), path, text) || (Says(sources, path, text) && !Decides(Table(last), path))
  {
    var all := sources + [last];
    hide ScalarAt, Decides;
    if ScalarAt(Table(last), path, text) {
      assert LastSays(all, |sources|, path, text);
    }
    if i: nat :| LastSays(sources, i, path, text) {
      assert !Decides(Table(last), path) ==> LastSays(all, i, path, text);
    }
    if i: nat :| LastSays(all, i, path, text) {
      assert all[|sources|] == last;
      if i < |sources| {
        forall j | i < j < |sources| ensures !Decides(Table(sources[j]), path) {
          assert all[j] == sources[j];
        }
        assert LastSays(sources, i, path, text);
      }
    }
  }

  /** Sources folded in order say at every path what the last source with a say there says. */
  lemma {:induction false} FoldSays(sources: seq<Entries>, path: seq<string>, text: string)
    ensures ScalarAt(FoldOnto(EMPTY, Tables(sources)), path, text) <==> Says(sources, path, text)
  {
    if sources != [] {
      var front, last := sources[..|sources| - 1], sources[|sources| - 1];
      assert sources == front + [last];
      FoldSays(front, path, text);
      SaysOneMore(front, last, path, text);
      TablesOneMore(front, last);
      MergeScalars(FoldOnto(EMPTY, Tables(front)), Table(last), path, text);
      hide Says, ScalarAt, Decides, Merge;
    }
  }

  lemma TablesOneMore(front: seq<Entries>, last: Entries)
    ensures Tables(front + [last]) == Tables(front) + [Table(last)]
    ensures FoldOnto(EMPTY, Tables(front + [last])) == Merge(FoldOnto(EMPTY, Tables(front)), Table(last))
  {
    var all := Tables(front + [last]);
    assert all == Tables(front) + [Table(last)];
    assert all[..|all| - 1] == Tables(front);
    hide Merge;
  }

  lemma {:induction false} MergeDecides(a: Value, b: Value, path: seq<string>)
    requires a.Table? && b.Table? && Decides(Merge(a, b), path)
    ensures Decides(a, path) || Decides(b, path)
    decreases |path|
  {
    if path != [] && path[0] in a.entries && path[0] in b.entries && a.entries[path[0]].Table? && b.entries[path[0]].Table? {
      MergeDecides(a.entries[path[0]], b.entries[path[0]], path[1..]);
    }
  }

  lemma {:induction false} FoldDecides(sources: seq<Entries>, path: seq<string>)
    requires path != [] && Decides(FoldOnto(EMPTY, Tables(sources)), path)
    ensures exists j :: 0 <= j < |sources| && Decides(Table(sources[j]), path)
  {
    if sources != [] {
      var front, last := sources[..|sources| - 1], sources[|sources| - 1];
      assert sources == front + [last];
      TablesOneMore(front, last);
      FoldIsTable(Tables(front));
      MergeDecides(FoldOnto(EMPTY, Tables(front)), Table(last), path);
      hide Decides, Merge;
      if Decides(Table(last), path) {
        assert sources[|front|] == last;
      } else {
        FoldDecides(front, path);
        var j :| 0 <= j < |front| && Decides(Table(front[j]), path);
        assert sources[j] == front[j];
      }
    }
  }

  ghost predicate PairwiseCompatible(sources: seq<Entries>) {
    forall i, j :: 0 <= i < j < |sources| ==> Compatible(Table(sources[i]), Table(sources[j]))
  }

  /** What rendered values say at a path: what the extra sources say wins, the release sources are
      heard where no extra source says anything, and nobody else is; if no path is a table in one
      source and a scalar in another, simply what the last of all sources with a say there says. */
  ghost predicate RenderedSays(release: seq<Entries>, extra: seq<Entries>, values: Entries, path: seq<string>, text: string) {
    && (Says(extra, path, text) ==> ScalarAt(Table(values), path, text))
    && (Says(release, path, text) && (forall j :: 0 <= j < |extra| ==> !Decides(Table(extra[j]), path)) ==> ScalarAt(Table(values), path, text))
    && (ScalarAt(Table(values), path, text) ==> Says(extra, path, text) || Says(release, path, text))
    && (PairwiseCompatible(release + extra) ==> (ScalarAt(Table(values), path, text) <==> Says(release + extra, path, text)))
  }

  lemma TablesAppend(a: seq<Entries>, b: seq<Entries>)
    ensures Tables(a + b) == Tables(a) + Tables(b)
  {
  }

  lemma RenderedIs(release: seq<Entries>, extra: seq<Entries>, values: Entries, path: seq<string>, text: string)
    requires Table(values) == Merge(FoldOnto(EMPTY, Tables(release)), FoldOnto(EMPTY, Tables(extra)))
    requires AllCompatible(Tables(release) + Tables(extra)) ==> Table(values) == FoldOnto(EMPTY, Tables(release) + Tables(extra))
    ensures RenderedSays(release, extra, values, path, text)
  {
    FoldSays(release, path, text);
    FoldSays(extra, path, text);
    FoldSays(release + extra, path, text);
    TablesAppend(release, extra);
    MergeScalars(FoldOnto(EMPTY, Tables(release)), FoldOnto(EMPTY, Tables(extra)), path, text);
    if path != [] && Decides(FoldOnto(EMPTY, Tables(extra)), path) {
      FoldDecides(extra, path);
    }
    assert PairwiseCompatible(release + extra) ==> AllCompatible(Tables(release + extra)) by {
      hide Compatible;
    }
    assert path == [] ==> !ScalarAt(Table(values), path, text) && !ScalarAt(FoldOnto(EMPTY, Tables(release)), path, text) by {
      FoldIsTable(Tables(release));
    }
    hide Merge, FoldOnto, Says, ScalarAt, Decides, PairwiseCompatible, AllCompatible, Tables;
  }

  /** The two folds of the renderer: extra values once, then each release's own values and the extras. */
  method RenderValues(release: seq<Entries>, extra: seq<Entries>) returns (values: Entries)
    ensures forall path, text :: RenderedSays(release, extra, values, path, text)
    ensures Table(values) == Merge(FoldOnto(EMPTY, Tables(release)), FoldOnto(EMPTY, Tables(extra)))
    ensures Table(values) == FoldOnto(EMPTY, Tables(release) + Tables(extra))
            <==> FoldsApart(FoldOnto(EMPTY, Tables(release)), Tables(extra))
    ensures AllCompatible(Tables(release) + Tables(extra)) ==> Table(values) == FoldOnto(EMPTY, Tables(release) + Tables(extra))
  {
    var extraValues := FoldSources(extra);
    values := FoldSources(release);
    values := MergeMaps(values, extraValues);
    hide RenderedSays;
    SharedExtrasFoldInOrderIff(Tables(release), Tables(extra));
    if AllCompatible(Tables(release) + Tables(extra)) {
      CompatibleSources(Tables(release), Tables(extra));
      SharedExtrasFoldInOrder(Tables(release), Tables(extra));
    }
    forall path, text ensures RenderedSays(release, extra, values, path, text) {
      RenderedIs(release, extra, values, path, text);
    }
  }

  function Tables(sources: seq<Entries>): seq<Value> {
    seq(|sources|, i requires 0 <= i < |sources| => Table(sources[i]))
  }

  method FoldSources(sources: seq<Entries>) returns (values: Entries)
    ensures Table(values) == FoldOnto(EMPTY, Tables(sources))
    ensures forall path, text :: ScalarAt(Table(values), path, text) <==> Says(sources, path, text)
  {
    forall path, text ensures ScalarAt(FoldOnto(EMPTY, Tables(sources)), path, text) <==> Says(sources, path, text) {
      FoldSays(sources, path, text);
    }
    hide Says, ScalarAt;
    values := map[];
    for i := 0 to |sources|
      invariant Table(values) == FoldOnto(EMPTY, Tables(sources)[..i])
    {
      var all := Tables(sources);
      assert all[..i + 1][..i] == all[..i];
      values := MergeMaps(values, sources[i]);
    }
    assert Tables(sources)[..|sources|] == Tables(sources);
  }
}
