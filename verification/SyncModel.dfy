// Applying one manifest, as the sequence of single steps another goroutine can come between.
module SyncModel {
  import opened Common
  import opened StateKeys
  import opened StateDiff

  // ---------- The world outside the process ----------

  /** What the API server identifies a resource by: unlike a state key, it has no API version. */
  datatype Slot = Slot(group: string, kind: string, namespace: string, name: string)

  function SlotOf(id: ObjectId): Slot {
    Slot(id.group, id.kind, id.namespace, id.name)
  }

  /** A rendered resource body together with its content hash. */
  datatype Content = Content(body: string, hash: string)

  datatype Object = Object(id: ObjectId, content: Content)

  type Cluster = map<Slot, Content>

  /** The cluster, the saved entries per manifest, and the saves an atomic run has put off. */
  datatype World = World(cluster: Cluster, store: map<string, Entries>, pending: map<string, Entries>)

  /** A manifest without a state ConfigMap has empty state. */
  function Stored(w: World, name: string): Entries {
    if name in w.store then w.store[name] else map[]
  }

  // ---------- One manifest ----------

  datatype Options = Options(sync: bool, prune: bool, atomic: bool)

  /** A manifest with its rendered build; `alwaysSync` is set for GenesisSecret manifests. */
  datatype Job = Job(name: string, objects: seq<Object>, alwaysSync: bool)

  /** Which of the outside calls of one attempt work out. A call on a key in `failing` returns an
      error, but may have taken effect all the same when the key is in `landed`. */
  datatype Outcome = Outcome(
    buildUp: bool, readUp: bool, failing: set<string>, landed: set<string>,
    readyUp: bool, saveUp: bool, testsPass: bool)

  const ALL_WELL := Outcome(true, true, {}, {}, true, true, true)

  function KeyOf(name: string, o: Object): string {
    ToString(StateKey(name, o.id))
  }

  /** Key to hash of a build; of two objects with the same key the later one counts. */
  function EntriesOf(name: string, objects: seq<Object>): Entries {
    if objects == [] then map[]
    else
      var o := objects[|objects| - 1];
      EntriesOf(name, objects[..|objects| - 1])[KeyOf(name, o) := o.content.hash]
  }

  function ByKey(name: string, objects: seq<Object>): (m: map<string, Object>)
    ensures m.Keys == EntriesOf(name, objects).Keys
    ensures forall k :: k in m ==> m[k] in objects && KeyOf(name, m[k]) == k && EntriesOf(name, objects)[k] == m[k].content.hash
  {
    if objects == [] then map[]
    else
      var o := objects[|objects| - 1];
      ByKey(name, objects[..|objects| - 1])[KeyOf(name, o) := o]
  }

  function Current(job: Job): Entries {
    EntriesOf(job.name, job.objects)
  }

  function AlwaysKeys(job: Job): set<string> {
    if job.alwaysSync then Current(job).Keys else {}
  }

  // ---------- Calls on the cluster ----------

  datatype Call = Put(slot: Slot, content: Content) | Delete(slot: Slot)

  function Land(c: Call, cluster: Cluster): Cluster {
    match c
    case Put(s, content) => cluster[s := content]
    case Delete(s) => cluster - {s}
  }

  function Attempt(o: Outcome, key: string, c: Call, cluster: Cluster): Cluster {
    if key in o.failing && key !in o.landed then cluster else Land(c, cluster)
  }

  /** The call a diff entry asks for. Prune rebuilds its target from the key and may fail to. */
  function CallOf(job: Job, prune: bool, e: DiffEntry): Result<Option<Call>, KeyError> {
    if e.diffType != Removed then
      var objects := ByKey(job.name, job.objects);
      if e.key in objects then Ok(Some(Put(SlotOf(objects[e.key].id), objects[e.key].content)))
      else Err(InvalidFormat(e.key))
    else if !prune then Ok(None)
    else
      match ObjectOfKey(e.key)
      case Ok(id) => Ok(Some(Delete(SlotOf(id))))
      case Err(err) => Err(err)
  }

  /** What a diff entry, once carried out, does to the entries to be saved. */
  function Record(prune: bool, e: DiffEntry, entries: Entries): Entries {
    if e.diffType != Removed then entries[e.key := e.newHash]
    else if prune then entries - {e.key}
    else entries
  }

  // ---------- The steps ----------

  datatype Phase =
    | Start
    | Syncing(todo: seq<DiffEntry>, entries: Entries)
    | Saving(entries: Entries)
    | Testing
    | Putting(rest: seq<Object>)
    | PlainTesting
    | PlainSaving
    | Succeeded
    | Failed

  predicate Done(p: Phase) {
    p.Succeeded? || p.Failed?
  }

  ghost function Begin(opts: Options, job: Job, o: Outcome, w: World): Phase {
    if !opts.sync then
      if !o.buildUp then Failed else Putting(job.objects)
    else if job.name == "" then Succeeded
    else if !o.buildUp || !o.readUp then Failed
    else
      var diff := Diff(Stored(w, job.name), Current(job), AlwaysKeys(job));
      if diff == [] then Testing else Syncing(diff, Stored(w, job.name))
  }

  /** One diff entry. */
  function SyncStep(opts: Options, job: Job, o: Outcome, todo: seq<DiffEntry>, entries: Entries, w: World): (Phase, World)
    requires todo != []
  {
    var e := todo[0];
    match CallOf(job, opts.prune, e)
    case Err(_) => (Failed, w)
    case Ok(None) => (Syncing(todo[1..], Record(opts.prune, e, entries)), w)
    case Ok(Some(call)) =>
      var after := w.(cluster := Attempt(o, e.key, call, w.cluster));
      if e.key in o.failing then (Failed, after)
      else (Syncing(todo[1..], Record(opts.prune, e, entries)), after)
  }

  function PutStep(job: Job, o: Outcome, rest: seq<Object>, w: World): (Phase, World)
    requires rest != []
  {
    var key := KeyOf(job.name, rest[0]);
    var after := w.(cluster := Attempt(o, key, Put(SlotOf(rest[0].id), rest[0].content), w.cluster));
    (if key in o.failing then Failed else Putting(rest[1..]), after)
  }

  /** Saving the entries, or putting the save off until the end of an atomic run. */
  function SaveStep(opts: Options, job: Job, o: Outcome, entries: Entries, w: World): (Phase, World) {
    if opts.atomic then (Testing, w.(pending := w.pending[job.name := entries]))
    else if o.saveUp then (Testing, w.(store := w.store[job.name := entries]))
    else (Failed, w)
  }

  function PlainSaveStep(job: Job, o: Outcome, w: World): (Phase, World) {
    if job.name == "" then (Succeeded, w)
    else if o.saveUp then (Succeeded, w.(store := w.store[job.name := Current(job)]))
    else (Failed, w)
  }

  ghost function Step(opts: Options, job: Job, o: Outcome, p: Phase, w: World): (Phase, World) {
    match p
    case Start => (Begin(opts, job, o, w), w)
    case Syncing(todo, entries) =>
      if todo != [] then SyncStep(opts, job, o, todo, entries, w)
      else (if o.readyUp then Saving(entries) else Failed, w)
    case Saving(entries) => SaveStep(opts, job, o, entries, w)
    case Testing => (if o.testsPass then Succeeded else Failed, w)
    case Putting(rest) => if rest != [] then PutStep(job, o, rest, w) else (PlainTesting, w)
    case PlainTesting => (if o.testsPass then PlainSaving else Failed, w)
    case PlainSaving => PlainSaveStep(job, o, w)
    case Succeeded => (p, w)
    case Failed => (p, w)
  }

  // ---------- Running a manifest to its end ----------

  function Stage(p: Phase): nat {
    match p
    case Start => 4
    case Syncing(_, _) => 3
    case Putting(_) => 3
    case Saving(_) => 2
    case PlainTesting => 2
    case Testing => 1
    case PlainSaving => 1
    case Succeeded => 0
    case Failed => 0
  }

  function Todo(p: Phase): nat {
    match p
    case Syncing(todo, _) => |todo|
    case Putting(rest) => |rest|
    case _ => 0
  }

  lemma StepAdvances(opts: Options, job: Job, o: Outcome, p: Phase, w: World)
    requires !Done(p)
    ensures var q := Step(opts, job, o, p, w).0; Stage(q) < Stage(p) || (Stage(q) == Stage(p) && Todo(q) < Todo(p))
  {
    hide Diff, Current, AlwaysKeys, ByKey, KeyOf, ObjectOfKey;
  }

  ghost function Finish(opts: Options, job: Job, o: Outcome, p: Phase, w: World): (r: (Phase, World))
    ensures Done(r.0)
    decreases Stage(p), Todo(p)
  {
    if Done(p) then (p, w)
    else
      StepAdvances(opts, job, o, p, w);
      var next := Step(opts, job, o, p, w);
      Finish(opts, job, o, next.0, next.1)
  }

  ghost function RunJob(opts: Options, job: Job, o: Outcome, w: World): (r: (Phase, World))
    ensures Done(r.0)
  {
    Finish(opts, job, o, Start, w)
  }
}
