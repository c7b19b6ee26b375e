// State keys: the identity of a resource as one string, and back again for prune.
module StateKeys {
  import opened Common

  /** The part of a Kubernetes object that identifies it; cluster-scoped objects have no namespace. */
  datatype ObjectId = ObjectId(group: string, version: string, kind: string, namespace: string, name: string)

  datatype StateKey = StateKey(manifestName: string, id: ObjectId)

  datatype KeyError = InvalidFormat(text: string)

  function SlashIndex(s: string): (i: nat)
    requires '/' in s
    ensures i < |s| && s[i] == '/' && '/' !in s[..i]
  {
    if s[0] == '/' then 0 else 1 + SlashIndex(s[1..])
  }

  /** Cuts at the first `n - 1` slashes. */
  function SplitN(s: string, n: nat): (parts: seq<string>)
    requires n >= 1
    ensures 1 <= |parts| <= n
    ensures forall p :: 0 <= p < |parts| && (p < |parts| - 1 || |parts| < n) ==> '/' !in parts[p]
    decreases n
  {
    if n == 1 || '/' !in s then [s]
    else
      var i := SlashIndex(s);
      [s[..i]] + SplitN(s[i + 1..], n - 1)
  }

  function Join(parts: seq<string>): string
    requires |parts| >= 1
  {
    if |parts| == 1 then parts[0] else parts[0] + "/" + Join(parts[1..])
  }

  function Fields(k: StateKey): (parts: seq<string>)
    ensures |parts| == if k.id.namespace == "" then 5 else 6
  {
    if k.id.namespace == "" then [k.manifestName, k.id.group, k.id.version, k.id.kind, k.id.name]
    else [k.manifestName, k.id.group, k.id.version, k.id.kind, k.id.namespace, k.id.name]
  }

  function ToString(k: StateKey): string {
    Join(Fields(k))
  }

  /** A key as text: the manifest, group, version and kind, the namespace if there is one, the name. */
  lemma KeyText(k: StateKey)
    ensures ToString(k) ==
            if k.id.namespace == "" then
              k.manifestName + "/" + k.id.group + "/" + k.id.version + "/" + k.id.kind + "/" + k.id.name
            else
              k.manifestName + "/" + k.id.group + "/" + k.id.version + "/" + k.id.kind + "/" + k.id.namespace + "/" + k.id.name
  {
    var f := Fields(k);
    var tail := Join(f[3..]);
    assert f[3..][1..] == f[4..] && f[2..][1..] == f[3..] && f[1..][1..] == f[2..];
    assert Join(f[2..]) == f[2] + "/" + tail;
    assert Join(f[1..]) == f[1] + "/" + Join(f[2..]);
    assert Join(f) == f[0] + "/" + Join(f[1..]);
    JoinLast(f[3..]);
    hide Join;
  }

  lemma JoinLast(parts: seq<string>)
    requires 2 <= |parts| <= 3
    ensures Join(parts) == if |parts| == 2 then parts[0] + "/" + parts[1] else parts[0] + "/" + parts[1] + "/" + parts[2]
  {
    assert Join(parts) == parts[0] + "/" + Join(parts[1..]);
    if |parts| == 3 {
      assert Join(parts[1..]) == parts[1] + "/" + Join(parts[1..][1..]);
    }
  }

  function Parse(s: string): Result<StateKey, KeyError> {
    var parts := SplitN(s, 6);
    if |parts| == 5 then
      Ok(StateKey(parts[0], ObjectId(parts[1], parts[2], parts[3], "", parts[4])))
    else if |parts| == 6 then
      Ok(StateKey(parts[0], ObjectId(parts[1], parts[2], parts[3], parts[4], parts[5])))
    else Err(InvalidFormat(s))
  }

  /** What prune deletes: the object rebuilt from the key alone. */
  function ObjectOfKey(s: string): Result<ObjectId, KeyError> {
    match Parse(s)
    case Ok(k) => Ok(k.id)
    case Err(e) => Err(e)
  }

  /** No field holds a slash; only the name of a namespaced object, which comes last, may. */
  predicate SlashFree(k: StateKey) {
    && '/' !in k.manifestName && '/' !in k.id.group && '/' !in k.id.version && '/' !in k.id.kind
    && '/' !in k.id.namespace
    && (k.id.namespace == "" ==> '/' !in k.id.name)
  }

  lemma {:induction false} JoinSplit(s: string, n: nat)
    requires n >= 1
    ensures Join(SplitN(s, n)) == s
    decreases n
  {
    if n > 1 && '/' in s {
      var i := SlashIndex(s);
      JoinSplit(s[i + 1..], n - 1);
      var rest := SplitN(s[i + 1..], n - 1);
      assert SplitN(s, n) == [s[..i]] + rest;
      hide SplitN, SlashIndex;
      var parts := [s[..i]] + rest;
      assert parts[1..] == rest;
      assert Join(parts) == s[..i] + "/" + Join(rest);
      hide *;
      assert s == s[..i] + "/" + s[i + 1..];
    }
  }

  lemma {:induction false} SlashIndexIs(s: string, i: nat)
    requires i < |s| && s[i] == '/' && '/' !in s[..i]
    ensures SlashIndex(s) == i
  {
    if i > 0 {
      assert s[..i][0] == s[0];
      assert s[1..][..i - 1] == s[..i][1..];
      SlashIndexIs(s[1..], i - 1);
    }
  }

  lemma SplitFirst(a: string, b: string, n: nat)
    requires '/' !in a && n > 1
    ensures SplitN(a + "/" + b, n) == [a] + SplitN(b, n - 1)
  {
    var s := a + "/" + b;
    assert s[..|a|] == a && s[|a| + 1..] == b;
    assert s[|a|] == '/';
    SlashIndexIs(s, |a|);
    hide SlashIndex;
  }

  /** Parts that cutting at `n - 1` slashes can produce. */
  predicate Cut(parts: seq<string>, n: nat) {
    && 1 <= |parts| <= n
    && if |parts| == 1 then n == 1 || '/' !in parts[0]
       else '/' !in parts[0] && Cut(parts[1..], n - 1)
  }

  lemma {:induction false} SplitJoin(parts: seq<string>, n: nat)
    requires Cut(parts, n)
    ensures SplitN(Join(parts), n) == parts
    decreases n
  {
    if |parts| == 1 {
      assert SplitN(parts[0], n) == [parts[0]];
      hide *;
      assert parts == [parts[0]];
    } else {
      var a, others := parts[0], parts[1..];
      assert Join(parts) == a + "/" + Join(others);
      assert Cut(others, n - 1);
      hide *;
      SplitJoin(others, n - 1);
      SplitFirst(a, Join(others), n);
      assert parts == [a] + others;
    }
  }

  /** An empty part that is not the last one is worth exactly its slash. */
  lemma {:induction false} EmptyPartCounts(parts: seq<string>, p: nat)
    requires p + 1 < |parts| && parts[p] == ""
    ensures |Join(parts)| == |Join(parts[..p] + parts[p + 1..])| + 1
  {
    if p == 0 {
      assert parts[..0] + parts[1..] == parts[1..];
    } else {
      EmptyPartCounts(parts[1..], p - 1);
      assert (parts[..p] + parts[p + 1..])[1..] == parts[1..][..p - 1] + parts[1..][p..];
    }
  }

  lemma FieldsAreCut(k: StateKey)
    requires SlashFree(k)
    ensures Cut(Fields(k), 6)
  {
    var parts := Fields(k);
    assert Cut(parts[4..], 2);
    assert parts[3..][1..] == parts[4..] && parts[2..][1..] == parts[3..] && parts[1..][1..] == parts[2..];
    assert Cut(parts[3..], 3) && Cut(parts[2..], 4) && Cut(parts[1..], 5);
  }

  /** The printed key parses back to the same key exactly when its fields are slash-free. */
  lemma ParseInvertsToString(k: StateKey)
    ensures Parse(ToString(k)) == Ok(k) <==> SlashFree(k)
  {
    hide SplitN, Join, SlashIndex, Cut;
    var s := ToString(k);
    var parts := SplitN(s, 6);
    if SlashFree(k) {
      FieldsAreCut(k);
      SplitJoin(Fields(k), 6);
    } else if |parts| == 6 && parts[4] == "" {
      // The first five parts have no slash, so only an empty fifth part could be left over.
      JoinSplit(s, 6);
      EmptyPartCounts(parts, 4);
      assert parts[..4] + parts[5..] == [parts[0], parts[1], parts[2], parts[3], parts[5]];
    }
  }

  /** Distinct identities never share a key, in or across the two forms. */
  lemma KeysAreDistinct(a: StateKey, b: StateKey)
    requires SlashFree(a) && SlashFree(b) && ToString(a) == ToString(b)
    ensures a == b
  {
    ParseInvertsToString(a);
    ParseInvertsToString(b);
  }

  /** Prune addresses the very object that was recorded, and nothing but slashes can break that. */
  lemma PruneTargetsRecordedObject(manifestName: string, id: ObjectId)
    ensures '/' !in manifestName ==>
              (ObjectOfKey(ToString(StateKey(manifestName, id))) == Ok(id) <==> SlashFree(StateKey(manifestName, id)))
  {
    var k := StateKey(manifestName, id);
    ParseInvertsToString(k);
    if '/' !in manifestName {
      SplitFirst(manifestName, Join(Fields(k)[1..]), 6);
      assert ToString(k) == manifestName + "/" + Join(Fields(k)[1..]);
      hide SplitN, Join;
    }
  }

  /** Printing a parsed key gives the text back, except for an empty fifth part of six. */
  lemma ToStringInvertsParse(s: string)
    ensures Parse(s).Ok? <==> |SplitN(s, 6)| >= 5
    ensures Parse(s).Ok? ==> (ToString(Parse(s).value) == s <==> |SplitN(s, 6)| == 5 || SplitN(s, 6)[4] != "")
  {
    hide SplitN, Join, SlashIndex, Cut;
    var parts := SplitN(s, 6);
    JoinSplit(s, 6);
    if |parts| == 5 {
      assert parts == [parts[0], parts[1], parts[2], parts[3], parts[4]];
    } else if |parts| == 6 {
      assert parts == [parts[0], parts[1], parts[2], parts[3], parts[4], parts[5]];
      if parts[4] == "" {
        EmptyPartCounts(parts, 4);
        assert parts[..4] + parts[5..] == Fields(Parse(s).value);
      }
    }
  }
}
