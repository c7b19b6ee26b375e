// The state store: one ConfigMap per manifest in the tazuna namespace.
module ConfigMapStore {
  import opened Common
  import opened ConfigMapCodec

  const METADATA_KEY: ByteString := "_metadata"

  datatype StateEntry = StateEntry(contentHash: string)

  datatype StateMetadata = StateMetadata(gitCommitHash: string, lastSyncedAt: string)

  datatype StateData = StateData(metadata: StateMetadata, entries: map<ByteString, StateEntry>)

  /** A stored text, seen as the JSON object it holds, if any; absent fields read as empty. */
  datatype Json = JsonObject(fields: map<string, string>) | NotJson

  function Field(fields: map<string, string>, name: string): string {
    if name in fields then fields[name] else ""
  }

  function MarshalMetadata(m: StateMetadata): Json {
    JsonObject(map["gitCommitHash" := m.gitCommitHash, "lastSyncedAt" := m.lastSyncedAt])
  }

  function MetadataOf(fields: map<string, string>): StateMetadata {
    StateMetadata(Field(fields, "gitCommitHash"), Field(fields, "lastSyncedAt"))
  }

  function MarshalEntry(e: StateEntry): Json {
    JsonObject(map["contentHash" := e.contentHash])
  }

  function EntryOf(fields: map<string, string>): StateEntry {
    StateEntry(Field(fields, "contentHash"))
  }

  type ConfigMapData = map<ByteString, Json>

  datatype StoreError = ApiFailure | MalformedData(key: ByteString)

  // ---------- Building and parsing the data field ----------

  /** `cm` holds the metadata and every entry under its encoded key, and nothing else. */
  ghost predicate Holds(cm: ConfigMapData, d: StateData) {
    && METADATA_KEY in cm && cm[METADATA_KEY] == MarshalMetadata(d.metadata)
    && (forall k :: k in d.entries ==> Encode(k) in cm && cm[Encode(k)] == MarshalEntry(d.entries[k]))
    && (forall key :: key in cm && key != METADATA_KEY ==> exists k :: k in d.entries && key == Encode(k))
  }

  /** The stored format: what is under which data key, and the fields of each JSON object. */
  lemma StoredFormat(cm: ConfigMapData, d: StateData)
    requires Holds(cm, d)
    ensures cm.Keys == {"_metadata"} + set k | k in d.entries :: Encode(k)
    ensures cm["_metadata"] == JsonObject(map["gitCommitHash" := d.metadata.gitCommitHash, "lastSyncedAt" := d.metadata.lastSyncedAt])
    ensures forall k :: k in d.entries ==> cm[Encode(k)] == JsonObject(map["contentHash" := d.entries[k].contentHash])
  {
    hide Encode;
  }

  method BuildConfigMapData(d: StateData) returns (cm: ConfigMapData)
    ensures Holds(cm, d)
  {
    cm := map[METADATA_KEY := MarshalMetadata(d.metadata)];
    var left := d.entries.Keys;
    assert d.entries - left == map[];
    assert Holds(cm, StateData(d.metadata, d.entries - left));
    hide Holds, MarshalEntry, Encode;
    while left != {}
      invariant left <= d.entries.Keys
      invariant Holds(cm, StateData(d.metadata, d.entries - left))
      decreases |left|
    {
      var k :| k in left;
      var dataKey := EncodeStateKey(k);
      HoldsOneMore(cm, StateData(d.metadata, d.entries - left), k, d.entries[k]);
      OneEntryMore(d.entries, left, k);
      left := left - {k};
      cm := cm[dataKey := MarshalEntry(d.entries[k])];
    }
    assert d.entries - {} == d.entries;
  }

  lemma OneEntryMore(entries: map<ByteString, StateEntry>, left: set<ByteString>, k: ByteString)
    requires left <= entries.Keys && k in left
    ensures (entries - left)[k := entries[k]] == entries - (left - {k})
  {
  }

  lemma HoldsOneMore(cm: ConfigMapData, d: StateData, k: ByteString, e: StateEntry)
    requires Holds(cm, d) && k !in d.entries
    ensures Holds(cm[Encode(k) := MarshalEntry(e)], d.(entries := d.entries[k := e]))
  {
    EncodedUnderscore(k);
    var next := cm[Encode(k) := MarshalEntry(e)];
    forall other | other in d.entries ensures Encode(other) in next && next[Encode(other)] == MarshalEntry(d.entries[other]) {
      if Encode(other) == Encode(k) { EncodeIsInjective(other, k); }
    }
    forall key | key in next && key != METADATA_KEY ensures exists x :: x in d.entries[k := e] && key == Encode(x) {
      if key in cm {
        var x :| x in d.entries && key == Encode(x);
        assert x in d.entries[k := e];
      } else {
        assert k in d.entries[k := e];
      }
    }
  }

  /** What parsing may answer: data keys are visited in no fixed order, so when two decode to the
      same state key either of them may win. */
  ghost predicate ParsesTo(cm: ConfigMapData, r: Result<StateData, StoreError>) {
    match r
    case Err(e) => e.MalformedData? && e.key in cm && cm[e.key].NotJson?
    case Ok(d) =>
      && (forall key :: key in cm ==> cm[key].JsonObject?)
      && d.metadata == (if METADATA_KEY in cm then MetadataOf(cm[METADATA_KEY].fields) else StateMetadata("", ""))
      && (forall key :: key in cm && key != METADATA_KEY ==> Decode(key) in d.entries)
      && (forall k :: k in d.entries ==> ComesFrom(cm, k, d.entries[k]))
  }

  ghost predicate ComesFrom(cm: ConfigMapData, k: ByteString, e: StateEntry) {
    exists key :: key in cm && key != METADATA_KEY && Decode(key) == k && cm[key].JsonObject? && e == EntryOf(cm[key].fields)
  }

  method ParseConfigMapData(cm: ConfigMapData) returns (r: Result<StateData, StoreError>)
    ensures ParsesTo(cm, r)
  {
    var metadata, entries := StateMetadata("", ""), map[];
    var left := cm.Keys;
    while left != {}
      invariant left <= cm.Keys
      invariant forall key :: key in cm && key !in left ==> cm[key].JsonObject?
      invariant metadata == if METADATA_KEY in cm && METADATA_KEY !in left then MetadataOf(cm[METADATA_KEY].fields) else StateMetadata("", "")
      invariant forall key :: key in cm && key !in left && key != METADATA_KEY ==> Decode(key) in entries
      invariant forall k :: k in entries ==> ComesFrom(cm, k, entries[k])
      decreases |left|
    {
      var key :| key in left;
      left := left - {key};
      if cm[key].NotJson? {
        return Err(MalformedData(key));
      }
      if key == METADATA_KEY {
        metadata := MetadataOf(cm[key].fields);
      } else {
        var k := DecodeStateKey(key);
        assert ComesFrom(cm, k, EntryOf(cm[key].fields));
        entries := entries[k := EntryOf(cm[key].fields)];
      }
    }
    return Ok(StateData(metadata, entries));
  }

  /** Whatever order the data is read in, what was built parses back to exactly what was saved. */
  lemma ParseInvertsBuild(cm: ConfigMapData, d: StateData, r: Result<StateData, StoreError>)
    requires Holds(cm, d) && ParsesTo(cm, r)
    ensures r == Ok(d)
  {
    hide *;
    BuiltIsReadable(cm, d, r);
    var back := r.value;
    forall k | k in d.entries ensures k in back.entries {
      SavedIsRead(cm, d, back, k);
    }
    forall k | k in back.entries ensures k in d.entries && back.entries[k] == d.entries[k] {
      ReadWasSaved(cm, d, back, k);
    }
    assert back.entries == d.entries;
    assert back == d;
  }

  lemma BuiltIsReadable(cm: ConfigMapData, d: StateData, r: Result<StateData, StoreError>)
    requires Holds(cm, d) && ParsesTo(cm, r)
    ensures r.Ok? && r.value.metadata == d.metadata
  {
  }

  lemma SavedIsRead(cm: ConfigMapData, d: StateData, back: StateData, k: ByteString)
    requires Holds(cm, d) && ParsesTo(cm, Ok(back)) && k in d.entries
    ensures k in back.entries
  {
    DecodeInvertsEncode(k);
    EncodedUnderscore(k);
    assert Encode(k) in cm && Encode(k) != METADATA_KEY;
  }

  lemma ReadWasSaved(cm: ConfigMapData, d: StateData, back: StateData, k: ByteString)
    requires Holds(cm, d) && ParsesTo(cm, Ok(back)) && k in back.entries
    ensures k in d.entries && back.entries[k] == d.entries[k]
  {
    assert ComesFrom(cm, k, back.entries[k]);
    SourceIsEntry(cm, d, k, back.entries[k]);
  }

  lemma SourceIsEntry(cm: ConfigMapData, d: StateData, k: ByteString, e: StateEntry)
    requires Holds(cm, d) && ComesFrom(cm, k, e)
    ensures k in d.entries && e == d.entries[k]
  {
    var key :| key in cm && key != METADATA_KEY && Decode(key) == k && cm[key].JsonObject? && e == EntryOf(cm[key].fields);
    var x :| x in d.entries && key == Encode(x);
    DecodeInvertsEncode(x);
  }

  // ---------- The store ----------

  function ConfigMapName(manifestName: string): string {
    "tazuna-state-" + manifestName
  }

  class ConfigMapStateStore {
    /** The ConfigMaps of the tazuna namespace, by name. */
    var configMaps: map<string, ConfigMapData>
    var nsEnsured: bool
    /** How often the API server was asked for the namespace. */
    var nsRequests: nat

    constructor (existing: map<string, ConfigMapData>)
      ensures configMaps == existing && !nsEnsured && nsRequests == 0
    {
      configMaps, nsEnsured, nsRequests := existing, false, 0;
    }

    /** What the store holds for a manifest: a missing ConfigMap counts as empty state. */
    ghost predicate Stores(manifestName: string, d: StateData)
      reads this
    {
      var name := ConfigMapName(manifestName);
      if name in configMaps then Holds(configMaps[name], d)
      else d == StateData(StateMetadata("", ""), map[])
    }

    method Get(manifestName: string, readUp: bool) returns (r: Result<StateData, StoreError>)
      ensures !readUp ==> r == Err(ApiFailure)
      ensures readUp ==> r != Err(ApiFailure)
      ensures readUp && "tazuna-state-" + manifestName !in configMaps ==> r == Ok(StateData(StateMetadata("", ""), map[]))
      ensures readUp && ConfigMapName(manifestName) in configMaps ==> ParsesTo(configMaps[ConfigMapName(manifestName)], r)
      ensures readUp ==> forall d :: Stores(manifestName, d) ==> r == Ok(d)
    {
      var name := ConfigMapName(manifestName);
      if !readUp {
        return Err(ApiFailure);
      }
      if name !in configMaps {
        return Ok(StateData(StateMetadata("", ""), map[]));
      }
      r := ParseConfigMapData(configMaps[name]);
      forall d | Holds(configMaps[name], d) ensures r == Ok(d) {
        ParseInvertsBuild(configMaps[name], d, r);
      }
    }

    /** Asks for the namespace until that has succeeded once; a failure is not remembered. */
    method EnsureNamespaceOnce(namespaceUp: bool) returns (ok: bool)
      modifies this`nsEnsured, this`nsRequests
      ensures ok == nsEnsured == (old(nsEnsured) || namespaceUp)
      ensures nsRequests == old(nsRequests) + if old(nsEnsured) then 0 else 1
    {
      if nsEnsured {
        return true;
      }
      nsRequests := nsRequests + 1;
      if !namespaceUp {
        return false;
      }
      nsEnsured := true;
      return true;
    }

    method Save(manifestName: string, d: StateData, namespaceUp: bool, readUp: bool, writeUp: bool)
        returns (r: Result<(), StoreError>)
      modifies this
      ensures r.Ok? <==> (old(nsEnsured) || namespaceUp) && readUp && writeUp
      ensures r.Ok? ==> Stores(manifestName, d)
      ensures r.Ok? ==> "tazuna-state-" + manifestName in configMaps && Holds(configMaps["tazuna-state-" + manifestName], d)
      ensures configMaps.Keys == old(configMaps.Keys) + if r.Ok? then {ConfigMapName(manifestName)} else {}
      ensures forall name :: name in old(configMaps) && (r.Err? || name != ConfigMapName(manifestName)) ==>
                configMaps[name] == old(configMaps)[name]
      ensures nsEnsured == (old(nsEnsured) || namespaceUp)
      ensures nsRequests == old(nsRequests) + if old(nsEnsured) then 0 else 1
    {
      var ensured := EnsureNamespaceOnce(namespaceUp);
      if !ensured {
        return Err(ApiFailure);
      }
      var cmData := BuildConfigMapData(d);
      var name := ConfigMapName(manifestName);
      if !readUp || !writeUp {
        return Err(ApiFailure);
      }
      configMaps := configMaps[name := cmData];
      return Ok(());
    }
  }

  /** A saved state is what the next read returns, and other manifests keep theirs. */
  method SaveThenGet(store: ConfigMapStateStore, manifestName: string, d: StateData, other: string, ghost od: StateData)
      returns (saved: Result<(), StoreError>, back: Result<StateData, StoreError>, backOther: Result<StateData, StoreError>)
    requires store.Stores(other, od) && other != manifestName
    modifies store
    ensures saved.Ok? ==> back == Ok(d)
    ensures backOther == Ok(od)
  {
    saved := store.Save(manifestName, d, true, true, true);
    back := store.Get(manifestName, true);
    assert ConfigMapName(other)[|"tazuna-state-"|..] == other;
    assert ConfigMapName(manifestName)[|"tazuna-state-"|..] == manifestName;
    backOther := store.Get(other, true);
  }
}
