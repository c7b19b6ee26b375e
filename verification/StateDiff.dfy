// Comparing a manifest's saved state with its current build.
module StateDiff {
  import opened Common

  /** State key to content hash. */
  type Entries = map<string, string>

  datatype DiffType = Added | Modified | Removed | AlwaysSync {
    function Order(): nat {
      match this
      case Added => 0
      case Modified => 1
      case Removed => 2
      case AlwaysSync => 3
    }
  }

  datatype DiffEntry = DiffEntry(key: string, diffType: DiffType, oldHash: string, newHash: string)

  // ---------- What the diff is ----------

  /** The one entry a key gives rise to, if any. */
  function Classify(saved: Entries, current: Entries, always: set<string>, key: string): Option<DiffEntry> {
    if key in current then
      if key in always then Some(DiffEntry(key, AlwaysSync, "", current[key]))
      else if key !in saved then Some(DiffEntry(key, Added, "", current[key]))
      else if saved[key] != current[key] then Some(DiffEntry(key, Modified, saved[key], current[key]))
      else None
    else if key in saved then Some(DiffEntry(key, Removed, saved[key], ""))
    else None
  }

  function EntriesFor(keys: set<string>, saved: Entries, current: Entries, always: set<string>): (es: set<DiffEntry>)
    ensures forall e :: e in es <==> e.key in keys && Classify(saved, current, always, e.key) == Some(e)
  {
    set k | k in keys && Classify(saved, current, always, k).Some? :: Classify(saved, current, always, k).value
  }

  function DiffSet(saved: Entries, current: Entries, always: set<string>): set<DiffEntry> {
    EntriesFor(saved.Keys + current.Keys, saved, current, always)
  }

  // ---------- The order of the entries ----------

  predicate LexLess(a: string, b: string) {
    b != [] && (a == [] || a[0] < b[0] || (a[0] == b[0] && LexLess(a[1..], b[1..])))
  }

  lemma {:induction false} LexTransitive(a: string, b: string, c: string)
    requires LexLess(a, b) && LexLess(b, c)
    ensures LexLess(a, c)
  {
    if a != [] && a[0] == b[0] == c[0] {
      LexTransitive(a[1..], b[1..], c[1..]);
    }
  }

  lemma {:induction false} LexTotal(a: string, b: string)
    ensures LexLess(a, b) || LexLess(b, a) || a == b
    ensures !(LexLess(a, b) && LexLess(b, a)) && !LexLess(a, a)
  {
    if a != [] {
      if b != [] {
        LexTotal(a[1..], b[1..]);
      }
      LexTotal(a[1..], a[1..]);
      assert b != [] && a[0] == b[0] && a[1..] == b[1..] ==> a == b;
    }
  }

  predicate Less(a: DiffEntry, b: DiffEntry) {
    if a.diffType != b.diffType then a.diffType.Order() < b.diffType.Order() else LexLess(a.key, b.key)
  }

  lemma LessIsOrder(a: DiffEntry, b: DiffEntry, c: DiffEntry)
    ensures Less(a, b) && Less(b, c) ==> Less(a, c)
    ensures !Less(a, a) && !(Less(a, b) && Less(b, a))
    ensures a.key != b.key ==> Less(a, b) || Less(b, a)
  {
    if LexLess(a.key, b.key) && LexLess(b.key, c.key) { LexTransitive(a.key, b.key, c.key); }
    LexTotal(a.key, b.key);
    LexTotal(a.key, a.key);
  }

  predicate Sorted(es: seq<DiffEntry>) {
    forall i, j :: 0 <= i < j < |es| ==> Less(es[i], es[j])
  }

  /** A sorted listing is determined by what it lists. */
  lemma {:induction false} SortedIsUnique(a: seq<DiffEntry>, b: seq<DiffEntry>)
    requires Sorted(a) && Sorted(b)
    requires forall e :: e in a <==> e in b
    ensures a == b
  {
    assert a != [] ==> a[0] in a;
    assert b != [] ==> b[0] in b;
    if a != [] {
      SameHead(a, b);
      HeadNotInTail(a);
      HeadNotInTail(b);
      hide Less;
      SortedIsUnique(a[1..], b[1..]);
      assert a == [a[0]] + a[1..] && b == [b[0]] + b[1..];
    }
  }

  lemma SameHead(a: seq<DiffEntry>, b: seq<DiffEntry>)
    requires Sorted(a) && Sorted(b) && a != [] && b != []
    requires forall e :: e in a <==> e in b
    ensures a[0] == b[0]
  {
    assert a[0] in b && b[0] in a;
    var i :| 0 <= i < |b| && b[i] == a[0];
    var j :| 0 <= j < |a| && a[j] == b[0];
    LessIsOrder(a[0], b[0], a[0]);
  }

  lemma HeadNotInTail(a: seq<DiffEntry>)
    requires Sorted(a) && a != []
    ensures forall e :: e in a[1..] <==> e in a && e != a[0]
  {
    LessIsOrder(a[0], a[0], a[0]);
    assert a == [a[0]] + a[1..];
  }

  // ---------- Sorting ----------

  function Insert(es: seq<DiffEntry>, e: DiffEntry): seq<DiffEntry> {
    if es == [] then [e]
    else if Less(e, es[0]) then [e] + es
    else [es[0]] + Insert(es[1..], e)
  }

  lemma {:induction false} InsertKeepsSorted(es: seq<DiffEntry>, e: DiffEntry)
    requires Sorted(es) && forall x :: x in es ==> x.key != e.key
    ensures Sorted(Insert(es, e))
    ensures forall x :: x in Insert(es, e) <==> x == e || x in es
  {
    if es != [] {
      assert es == [es[0]] + es[1..];
      var r := Insert(es, e);
      if Less(e, es[0]) {
        forall j | 0 <= j < |es| ensures Less(e, es[j]) { LessIsOrder(e, es[0], es[j]); }
      } else {
        InsertKeepsSorted(es[1..], e);
        var tail := Insert(es[1..], e);
        LessIsOrder(e, es[0], e);
        forall j | 0 <= j < |tail| ensures Less(es[0], tail[j]) {
          assert tail[j] in tail;
        }
      }
    }
  }

  /** Stands for the library sort: any correct one gives this result, because it is unique. */
  function Sort(es: seq<DiffEntry>): seq<DiffEntry> {
    if es == [] then [] else Insert(Sort(es[1..]), es[0])
  }

  ghost predicate DistinctKeys(es: seq<DiffEntry>) {
    forall i, j :: 0 <= i < j < |es| ==> es[i].key != es[j].key
  }

  lemma {:induction false} SortSorts(es: seq<DiffEntry>)
    requires DistinctKeys(es)
    ensures Sorted(Sort(es))
    ensures forall e :: e in Sort(es) <==> e in es
  {
    if es != [] {
      SortSorts(es[1..]);
      assert es == [es[0]] + es[1..];
      forall x | x in Sort(es[1..]) ensures x.key != es[0].key {
        assert x in es[1..];
        var j :| 0 <= j < |es[1..]| && es[1..][j] == x;
        assert es[j + 1] == x;
      }
      InsertKeepsSorted(Sort(es[1..]), es[0]);
    }
  }

  // ---------- The diff as a function ----------

  /** The entries of a set, in some order. */
  ghost function Listing(s: set<DiffEntry>): seq<DiffEntry> {
    if s == {} then [] else var e :| e in s; [e] + Listing(s - {e})
  }

  lemma {:induction false} ListingLists(s: set<DiffEntry>)
    requires forall a, b :: a in s && b in s && a.key == b.key ==> a == b
    ensures DistinctKeys(Listing(s)) && forall e :: e in Listing(s) <==> e in s
  {
    if s != {} {
      var l := Listing(s);
      var e := l[0];
      assert l == [e] + Listing(s - {e});
      ListingLists(s - {e});
      forall j | 1 <= j < |l| ensures l[j].key != e.key {
        assert l[j] == Listing(s - {e})[j - 1];
        assert l[j] in Listing(s - {e});
      }
    }
  }

  ghost function Diff(saved: Entries, current: Entries, always: set<string>): seq<DiffEntry> {
    Sort(Listing(DiffSet(saved, current, always)))
  }

  ghost predicate IsDiff(es: seq<DiffEntry>, saved: Entries, current: Entries, always: set<string>) {
    Sorted(es) && forall e :: e in es <==> Classify(saved, current, always, e.key) == Some(e)
  }

  /** The diff lists exactly the classified keys, sorted, and is the only listing that does. */
  lemma DiffIsExact(saved: Entries, current: Entries, always: set<string>, es: seq<DiffEntry>)
    ensures IsDiff(es, saved, current, always) <==> es == Diff(saved, current, always)
  {
    var s := DiffSet(saved, current, always);
    ListingLists(s);
    SortSorts(Listing(s));
    var d := Diff(saved, current, always);
    assert IsDiff(d, saved, current, always) by {
      hide Sort, Sorted, Listing, DistinctKeys;
      forall e ensures e in d <==> Classify(saved, current, always, e.key) == Some(e) {
        assert e in d <==> e in s;
      }
    }
    if IsDiff(es, saved, current, always) {
      forall e ensures e in es <==> e in d {
        assert e in es <==> Classify(saved, current, always, e.key) == Some(e);
      }
      SortedIsUnique(es, d);
    }
  }

  /** A key appears at most once. */
  lemma DiffKeysDistinct(saved: Entries, current: Entries, always: set<string>)
    ensures DistinctKeys(Diff(saved, current, always))
  {
    var d := Diff(saved, current, always);
    DiffIsExact(saved, current, always, d);
    forall i, j | 0 <= i < j < |d| ensures d[i].key != d[j].key {
      assert d[i] in d && d[j] in d;
      LessIsOrder(d[i], d[j], d[i]);
    }
  }

  lemma ClassifiedIsListed(saved: Entries, current: Entries, always: set<string>, k: string)
    requires Classify(saved, current, always, k).Some?
    ensures Diff(saved, current, always) != []
  {
    var d := Diff(saved, current, always);
    DiffIsExact(saved, current, always, d);
    hide Diff;
    assert Classify(saved, current, always, k).value in d;
  }

  /** Nothing is listed exactly when the build is the saved state and no key is always synced. */
  lemma EmptyDiff(saved: Entries, current: Entries, always: set<string>)
    requires always <= current.Keys
    ensures Diff(saved, current, always) == [] <==> saved == current && always == {}
  {
    var d := Diff(saved, current, always);
    DiffIsExact(saved, current, always, d);
    if d == [] {
      forall k | k in saved.Keys + current.Keys + always ensures k in saved && k in current && saved[k] == current[k] && k !in always {
        if Classify(saved, current, always, k).Some? {
          ClassifiedIsListed(saved, current, always, k);
        }
      }
      assert saved == current;
    } else {
      assert d[0] in d;
    }
  }

  // ---------- The algorithm ----------

  method CollectCurrent(stateEntries: Entries, currentEntries: Entries, alwaysSyncKeys: set<string>) returns (entries: seq<DiffEntry>)
    ensures Collected(entries, currentEntries.Keys, stateEntries, currentEntries, alwaysSyncKeys)
  {
    entries := [];
    var left := currentEntries.Keys;
    ghost var seen: set<string> := {};
    while left != {}
      invariant left + seen == currentEntries.Keys && left !! seen
      invariant Collected(entries, seen, stateEntries, currentEntries, alwaysSyncKeys)
      decreases |left|
    {
      var key :| key in left;
      left := left - {key};
      CollectOne(entries, seen, key, stateEntries, currentEntries, alwaysSyncKeys);
      hide Collected;
      seen := seen + {key};
      var current := currentEntries[key];
      if key in alwaysSyncKeys {
        entries := entries + [DiffEntry(key, AlwaysSync, "", current)];
        continue;
      }
      if key !in stateEntries {
        entries := entries + [DiffEntry(key, Added, "", current)];
      } else if stateEntries[key] != current {
        entries := entries + [DiffEntry(key, Modified, stateEntries[key], current)];
      }
    }
  }

  lemma OnlySaved(saved: Entries, current: Entries, always: set<string>, key: string)
    requires key in saved && key !in current
    ensures Classify(saved, current, always, key) == Some(DiffEntry(key, Removed, saved[key], ""))
  {
  }

  method CollectRemoved(stateEntries: Entries, currentEntries: Entries, ghost always: set<string>, found: seq<DiffEntry>)
      returns (entries: seq<DiffEntry>)
    requires Collected(found, currentEntries.Keys, stateEntries, currentEntries, always)
    ensures Collected(entries, stateEntries.Keys + currentEntries.Keys, stateEntries, currentEntries, always)
  {
    hide *;
    entries := found;
    var left := stateEntries.Keys;
    ghost var seen := currentEntries.Keys;
    while left != {}
      invariant left <= stateEntries.Keys
      invariant forall k :: k in seen <==> k in currentEntries || (k in stateEntries && k !in left)
      invariant Collected(entries, seen, stateEntries, currentEntries, always)
      decreases |left|
    {
      var key :| key in left;
      left := left - {key};
      if key !in currentEntries {
        CollectOne(entries, seen, key, stateEntries, currentEntries, always);
        OnlySaved(stateEntries, currentEntries, always, key);
        entries := entries + [DiffEntry(key, Removed, stateEntries[key], "")];
        seen := seen + {key};
      }
    }
    assert seen == stateEntries.Keys + currentEntries.Keys;
  }

  // ---------- The diff read off its two inputs ----------

  /** What an entry of each class says about its key; the classes exclude each other. */
  predicate SaysSo(e: DiffEntry, saved: Entries, current: Entries, always: set<string>) {
    match e.diffType
    case Added =>
      e.key in current && e.key !in always && e.key !in saved && e.oldHash == "" && e.newHash == current[e.key]
    case Modified =>
      && e.key in current && e.key !in always && e.key in saved && saved[e.key] != current[e.key]
      && e.oldHash == saved[e.key] && e.newHash == current[e.key]
    case Removed =>
      e.key in saved && e.key !in current && e.oldHash == saved[e.key] && e.newHash == ""
    case AlwaysSync =>
      e.key in current && e.key in always && e.oldHash == "" && e.newHash == current[e.key]
  }

  /** At the first difference the character of `a` is smaller, or `a` ends there. */
  ghost predicate Ascending(a: string, b: string) {
    exists p: nat :: p <= |a| && p < |b| && a[..p] == b[..p] && (p == |a| || a[p] < b[p])
  }

  /** Added entries come first, then modified, removed and always-synced ones; keys ascend within each. */
  ghost predicate ListedBefore(a: DiffEntry, b: DiffEntry) {
    if a.diffType == b.diffType then Ascending(a.key, b.key)
    else a.diffType == Added || b.diffType == AlwaysSync || (a.diffType == Modified && b.diffType == Removed)
  }

  lemma {:induction false} LexLessIsAscending(a: string, b: string)
    ensures LexLess(a, b) <==> Ascending(a, b)
  {
    if a != [] && b != [] && a[0] == b[0] {
      LexLessIsAscending(a[1..], b[1..]);
      if Ascending(a[1..], b[1..]) {
        var p: nat :| p <= |a[1..]| && p < |b[1..]| && a[1..][..p] == b[1..][..p] && (p == |a[1..]| || a[1..][p] < b[1..][p]);
        assert a[..p + 1] == [a[0]] + a[1..][..p] && b[..p + 1] == [b[0]] + b[1..][..p];
      }
      if Ascending(a, b) {
        var p: nat :| p <= |a| && p < |b| && a[..p] == b[..p] && (p == |a| || a[p] < b[p]);
        assert p > 0;
        assert a[1..][..p - 1] == a[..p][1..] && b[1..][..p - 1] == b[..p][1..];
      }
    } else {
      AscendingAtOnce(a, b);
      hide Ascending;
    }
  }

  lemma AscendingAtOnce(a: string, b: string)
    ensures Ascending(a, b) ==> b != [] && (a == [] || a[0] <= b[0])
    ensures b != [] && (a == [] || a[0] < b[0]) ==> Ascending(a, b)
  {
    if Ascending(a, b) {
      var p: nat :| p <= |a| && p < |b| && a[..p] == b[..p] && (p == |a| || a[p] < b[p]);
      if p > 0 {
        assert a[..p][0] == b[..p][0];
      }
    }
    if b != [] && (a == [] || a[0] < b[0]) {
      assert a[..0] == b[..0];
    }
  }

  lemma LessIsListedBefore(a: DiffEntry, b: DiffEntry)
    ensures Less(a, b) <==> ListedBefore(a, b)
  {
    LexLessIsAscending(a.key, b.key);
    hide LexLess, Ascending;
  }

  lemma ClassifiedSaysSo(e: DiffEntry, saved: Entries, current: Entries, always: set<string>)
    ensures Classify(saved, current, always, e.key) == Some(e) <==> SaysSo(e, saved, current, always)
  {
  }

  /** Everything about the diff: exactly the entries that say so, each once, in the listed order. */
  lemma DiffSaysSo(saved: Entries, current: Entries, always: set<string>)
    ensures var d := Diff(saved, current, always);
            && (forall e :: e in d <==> SaysSo(e, saved, current, always))
            && forall i, j :: 0 <= i < j < |d| ==> ListedBefore(d[i], d[j]) && d[i].key != d[j].key
  {
    var d := Diff(saved, current, always);
    DiffIsExact(saved, current, always, d);
    DiffKeysDistinct(saved, current, always);
    hide Diff, SaysSo, Classify, ListedBefore, Less;
    forall e ensures e in d <==> SaysSo(e, saved, current, always) {
      ClassifiedSaysSo(e, saved, current, always);
    }
    forall i, j | 0 <= i < j < |d| ensures ListedBefore(d[i], d[j]) && d[i].key != d[j].key {
      LessIsListedBefore(d[i], d[j]);
    }
  }

  /** Maps are walked in no fixed order; the result does not depend on it. */
  method ComputeDiff(stateEntries: Entries, currentEntries: Entries, alwaysSyncKeys: set<string>) returns (entries: seq<DiffEntry>)
    ensures forall e :: e in entries <==> SaysSo(e, stateEntries, currentEntries, alwaysSyncKeys)
    ensures forall i, j :: 0 <= i < j < |entries| ==> ListedBefore(entries[i], entries[j]) && entries[i].key != entries[j].key
    ensures entries == Diff(stateEntries, currentEntries, alwaysSyncKeys)
  {
    DiffSaysSo(stateEntries, currentEntries, alwaysSyncKeys);
    hide SaysSo, ListedBefore, Diff;
    entries := CollectCurrent(stateEntries, currentEntries, alwaysSyncKeys);
    entries := CollectRemoved(stateEntries, currentEntries, alwaysSyncKeys, entries);
    CollectedAllIsDiff(entries, stateEntries, currentEntries, alwaysSyncKeys);
    entries := Sort(entries);
  }

  lemma CollectedAllIsDiff(es: seq<DiffEntry>, saved: Entries, current: Entries, always: set<string>)
    requires Collected(es, saved.Keys + current.Keys, saved, current, always)
    ensures Sort(es) == Diff(saved, current, always)
  {
    SortSorts(es);
    assert IsDiff(Sort(es), saved, current, always) by {
      hide Sort, Sorted, DistinctKeys;
      forall e ensures e in Sort(es) <==> Classify(saved, current, always, e.key) == Some(e) {
        assert e in Sort(es) <==> e in es;
      }
    }
    DiffIsExact(saved, current, always, Sort(es));
  }

  /** `es` lists, in any order, the entries of the keys in `seen`. */
  ghost predicate Collected(es: seq<DiffEntry>, seen: set<string>, saved: Entries, current: Entries, always: set<string>) {
    DistinctKeys(es) && forall e :: e in es <==> e.key in seen && Classify(saved, current, always, e.key) == Some(e)
  }

  lemma CollectOne(es: seq<DiffEntry>, seen: set<string>, key: string, saved: Entries, current: Entries, always: set<string>)
    requires Collected(es, seen, saved, current, always) && key !in seen
    ensures var c := Classify(saved, current, always, key);
            Collected(if c.Some? then es + [c.value] else es, seen + {key}, saved, current, always)
  {
    assert forall j :: 0 <= j < |es| ==> es[j] in es;
  }
}
