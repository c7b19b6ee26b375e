// The local cache of OCI artifacts, shared by processes that may run side by side or die midway.
module ArtifactCache {
  import opened Common

  // ---------- Names in the cache directory ----------

  predicate LowerAlnum(c: char) {
    'a' <= c <= 'z' || '0' <= c <= '9'
  }

  /** `algorithm:encoded`, as the registered digest algorithms write it. */
  predicate IsDigest(d: string) {
    exists n :: 0 < n < |d| - 1 && DigestCut(d, n)
  }

  predicate DigestCut(d: string, n: nat) {
    && 0 < n < |d| - 1 && d[n] == ':'
    && forall p :: 0 <= p < |d| && p != n ==> LowerAlnum(d[p])
  }

  /** The directory of a digest: every colon becomes a dash. */
  function DirOf(d: string): (r: string)
    ensures |r| == |d| && forall p :: 0 <= p < |d| ==> r[p] == if d[p] == ':' then '-' else d[p]
  {
    if d == "" then "" else [if d[0] == ':' then '-' else d[0]] + DirOf(d[1..])
  }

  /** Distinct digests have distinct directories. */
  lemma DirectoriesAreDistinct(a: string, b: string)
    requires IsDigest(a) && IsDigest(b) && DirOf(a) == DirOf(b)
    ensures a == b
  {
    var n :| 0 < n < |a| - 1 && DigestCut(a, n);
    var m :| 0 < m < |b| - 1 && DigestCut(b, m);
    assert |a| == |DirOf(a)| == |b|;
    forall p | 0 <= p < |a| ensures a[p] == b[p] {
      assert DirOf(a)[p] == DirOf(b)[p];
    }
  }

  /** The file of a reference: slash, colon and at-sign become underscores. */
  function RefKey(s: string): (r: string)
    ensures |r| == |s|
    ensures forall p :: 0 <= p < |s| ==> r[p] == if s[p] == '/' || s[p] == ':' || s[p] == '@' then '_' else s[p]
  {
    if s == "" then ""
    else [if s[0] == '/' || s[0] == ':' || s[0] == '@' then '_' else s[0]] + RefKey(s[1..])
  }

  predicate Separator(c: char) {
    c == '/' || c == ':' || c == '@' || c == '_'
  }

  /** The references differ in nothing but which of these characters separate their parts. */
  predicate SameButSeparators(a: string, b: string) {
    |a| == |b| && forall p :: 0 <= p < |a| ==> a[p] == b[p] || (Separator(a[p]) && Separator(b[p]))
  }

  /** Exactly such references share a file. */
  lemma FilesCollideIff(a: string, b: string)
    ensures RefKey(a) == RefKey(b) <==> SameButSeparators(a, b)
  {
    var x, y := RefKey(a), RefKey(b);
    if x == y {
      forall p | 0 <= p < |a| ensures a[p] == b[p] || (Separator(a[p]) && Separator(b[p])) {
        assert x[p] == y[p];
      }
    }
    hide RefKey;
  }

  /** So two tags of one repository never do: a tag has no slash, colon or at-sign. */
  lemma TagsHaveOwnFiles(repository: string, t1: string, t2: string)
    requires t1 != t2 && forall c :: c in t1 + t2 ==> c != '/' && c != ':' && c != '@'
    ensures RefKey(repository + ":" + t1) != RefKey(repository + ":" + t2)
  {
    var a, b := repository + ":" + t1, repository + ":" + t2;
    FilesCollideIff(a, b);
    hide RefKey;
    if |t1| == |t2| {
      var p :| 0 <= p < |t1| && t1[p] != t2[p];
      assert a[|repository| + 1 + p] == t1[p] && b[|repository| + 1 + p] == t2[p];
      assert t1[p] in t1 + t2 && t2[p] in t1 + t2;
    }
  }

  /** Unlike directories, reference files can collide: a slash in a repository and an underscore in
      its place give the same file, whatever the registry, the two parts and the tag. */
  lemma ReferenceFilesCollide(registry: string, a: string, b: string, tag: string)
    ensures var x, y := registry + "/" + a + "/" + b + ":" + tag, registry + "/" + a + "_" + b + ":" + tag;
            RefKey(x) == RefKey(y) && x != y
  {
    var x, y := registry + "/" + a + "/" + b + ":" + tag, registry + "/" + a + "_" + b + ":" + tag;
    var n := |registry| + 1 + |a|;
    hide RefKey;
    assert x[n] == '/' && y[n] == '_';
    assert forall p :: 0 <= p < |x| && p != n ==> x[p] == y[p];
    FilesCollideIff(x, y);
  }

  // ---------- The registry, requests and processes ----------

  type File = string

  /** `content(d)` is the set of files the artifact with digest `d` extracts to. Removing a cached
      directory is one step when `removeAtOnce`, and otherwise goes file by file. */
  datatype Setting = Setting(content: string -> set<File>, removeAtOnce: bool)

  /** `digest` is given when the reference names a digest and not a tag. */
  datatype Request = Request(reference: string, digest: Option<string>, noCache: bool, offline: bool)

  datatype Pc =
    | Start
    | Checking(d: string)
    | Asking
    | Removing(d: string)
    | CheckingAgain(d: string)
    | Fetching(d: string)
    | Extracting(d: string, files: set<File>)
    | Renaming(d: string, files: set<File>)
    | RenameFailed(d: string)
    | Mapping(d: string)
    | Answered(d: string)
    | GaveUp
    | Crashed

  /** `asked` is set once the process has contacted the registry. */
  datatype Proc = Proc(req: Request, pc: Pc, asked: bool)

  /** `resolved` remembers which digest the registry has given for which reference. */
  datatype State = State(
    blobs: map<string, set<File>>,
    refs: map<string, string>,
    procs: seq<Proc>,
    resolved: set<(string, string)>)

  // ---------- The steps of a pull ----------

  datatype Event =
    | ReadRef(i: nat)
    | Check(i: nat)
    | Resolve(i: nat, answer: Option<string>)
    | RemoveFile(i: nat, file: File)
    | RemoveDir(i: nat)
    | CheckAgain(i: nat)
    | Fetch(i: nat, ok: bool)
    | ExtractFile(i: nat, file: File)
    | ExtractEnd(i: nat, ok: bool)
    | Rename(i: nat, ok: bool)
    | AfterFailedRename(i: nat)
    | WriteRef(i: nat, ok: bool)
    | Crash(i: nat)

  /** Past the first cache check: the registry, unless it may not be used. */
  function Beyond(r: Request): Pc {
    if r.offline then GaveUp else Asking
  }

  function AfterReadRef(s: State, r: Request): Pc {
    if r.noCache then Beyond(r)
    else
      match r.digest
      case Some(d) => Checking(d)
      case None =>
        var key := RefKey(r.reference);
        if key in s.refs && s.refs[key] != "" then Checking(s.refs[key]) else Beyond(r)
  }

  /** A digest reference is done; a tag is written down first. */
  function Finish(r: Request, d: string): Pc {
    if r.digest.Some? then Answered(d) else Mapping(d)
  }

  predicate Enabled(cfg: Setting, s: State, ev: Event) {
    && ev.i < |s.procs|
    && var p := s.procs[ev.i];
       match ev
       case ReadRef(_) => p.pc.Start?
       case Check(_) => p.pc.Checking?
       case Resolve(_, answer) =>
         p.pc.Asking? && (answer.Some? ==> IsDigest(answer.value) && (p.req.digest.Some? ==> answer == p.req.digest))
       case RemoveFile(_, f) =>
         p.pc.Removing? && !cfg.removeAtOnce && DirOf(p.pc.d) in s.blobs && f in s.blobs[DirOf(p.pc.d)]
       case RemoveDir(_) =>
         p.pc.Removing? && (cfg.removeAtOnce || DirOf(p.pc.d) !in s.blobs || s.blobs[DirOf(p.pc.d)] == {})
       case CheckAgain(_) => p.pc.CheckingAgain?
       case Fetch(_, _) => p.pc.Fetching?
       case ExtractFile(_, f) => p.pc.Extracting? && f in cfg.content(p.pc.d)
       case ExtractEnd(_, ok) => p.pc.Extracting? && (ok ==> p.pc.files == cfg.content(p.pc.d))
       case Rename(_, ok) =>
         p.pc.Renaming? && (ok ==> DirOf(p.pc.d) !in s.blobs || s.blobs[DirOf(p.pc.d)] == {})
       case AfterFailedRename(_) => p.pc.RenameFailed?
       case WriteRef(_, _) => p.pc.Mapping?
       case Crash(_) => true
  }

  /** Process `i` moves on to `pc`. */
  function Go(s: State, i: nat, pc: Pc): State
    requires i < |s.procs|
  {
    s.(procs := s.procs[i := s.procs[i].(pc := pc)])
  }

  function Next(cfg: Setting, s: State, ev: Event): State
    requires Enabled(cfg, s, ev)
  {
    var p := s.procs[ev.i];
    match ev
    case ReadRef(i) => Go(s, i, AfterReadRef(s, p.req))
    case Check(i) => Go(s, i, if DirOf(p.pc.d) in s.blobs then Answered(p.pc.d) else Beyond(p.req))
    case Resolve(i, answer) =>
      var t := s.(procs := s.procs[i := p.(asked := true)]);
      if answer.None? then Go(t, i, GaveUp)
      else
        Go(t.(resolved := s.resolved + {(p.req.reference, answer.value)}), i,
           if p.req.noCache then Removing(answer.value) else CheckingAgain(answer.value))
    case RemoveFile(_, f) =>
      s.(blobs := s.blobs[DirOf(p.pc.d) := s.blobs[DirOf(p.pc.d)] - {f}])
    case RemoveDir(i) => Go(s.(blobs := s.blobs - {DirOf(p.pc.d)}), i, Fetching(p.pc.d))
    case CheckAgain(i) => Go(s, i, if DirOf(p.pc.d) in s.blobs then Finish(p.req, p.pc.d) else Fetching(p.pc.d))
    case Fetch(i, ok) => Go(s, i, if ok then Extracting(p.pc.d, {}) else GaveUp)
    case ExtractFile(i, f) => Go(s, i, Extracting(p.pc.d, p.pc.files + {f}))
    case ExtractEnd(i, ok) => Go(s, i, if ok then Renaming(p.pc.d, p.pc.files) else GaveUp)
    case Rename(i, ok) =>
      if ok then Go(s.(blobs := s.blobs[DirOf(p.pc.d) := p.pc.files]), i, Finish(p.req, p.pc.d))
      else Go(s, i, RenameFailed(p.pc.d))
    case AfterFailedRename(i) => Go(s, i, if DirOf(p.pc.d) in s.blobs then Finish(p.req, p.pc.d) else GaveUp)
    case WriteRef(i, ok) =>
      if ok then Go(s.(refs := s.refs[RefKey(p.req.reference) := p.pc.d]), i, Answered(p.pc.d)) else Go(s, i, GaveUp)
    case Crash(i) => Go(s, i, Crashed)
  }

  ghost predicate Leads(cfg: Setting, s: State, evs: seq<Event>, t: State)
    decreases |evs|
  {
    if evs == [] then s == t else Enabled(cfg, s, evs[0]) && Leads(cfg, Next(cfg, s, evs[0]), evs[1..], t)
  }

  // ---------- What every step keeps ----------

  /** Every directory of a digest is the complete extraction of that digest. */
  ghost predicate Complete(cfg: Setting, s: State) {
    forall d :: IsDigest(d) && DirOf(d) in s.blobs ==> s.blobs[DirOf(d)] == cfg.content(d)
  }

  function WorksOn(pc: Pc): Option<string> {
    match pc
    case Start => None
    case Asking => None
    case GaveUp => None
    case Crashed => None
    case Extracting(d, _) => Some(d)
    case Renaming(d, _) => Some(d)
    case _ => Some(pc.d)
  }

  /** The digest a process works on is one, and what it has extracted belongs to it. */
  ghost predicate ProcOk(cfg: Setting, p: Proc) {
    && (p.req.digest.Some? ==> IsDigest(p.req.digest.value))
    && (p.req.offline ==> !p.asked)
    && (p.req.digest.Some? && WorksOn(p.pc).Some? ==> WorksOn(p.pc) == p.req.digest)
    && match p.pc
       case Start => !p.asked
       case Checking(d) => IsDigest(d)
       case Asking => !p.req.offline
       case Removing(d) => IsDigest(d) && !p.req.offline && p.req.noCache
       case CheckingAgain(d) => IsDigest(d) && !p.req.offline
       case Fetching(d) => IsDigest(d) && !p.req.offline
       case Extracting(d, files) => IsDigest(d) && !p.req.offline && files <= cfg.content(d)
       case Renaming(d, files) => IsDigest(d) && !p.req.offline && files == cfg.content(d)
       case RenameFailed(d) => IsDigest(d) && !p.req.offline
       case Mapping(d) => IsDigest(d) && !p.req.offline && p.req.digest.None?
       case Answered(d) => IsDigest(d)
       case _ => true
  }

  /** The mapping a process is about to write was given by the registry for its reference. */
  ghost predicate ProcResolved(s: State, p: Proc) {
    match p.pc
    case Removing(d) => (p.req.reference, d) in s.resolved
    case CheckingAgain(d) => (p.req.reference, d) in s.resolved
    case Fetching(d) => (p.req.reference, d) in s.resolved
    case Extracting(d, _) => (p.req.reference, d) in s.resolved
    case Renaming(d, _) => (p.req.reference, d) in s.resolved
    case RenameFailed(d) => (p.req.reference, d) in s.resolved
    case Mapping(d) => (p.req.reference, d) in s.resolved
    case _ => true
  }

  /** A mapping holds a digest the registry gave for some reference with that file name. */
  ghost predicate RefsOk(s: State) {
    forall k :: k in s.refs ==> IsDigest(s.refs[k]) && exists r :: RefKey(r) == k && (r, s.refs[k]) in s.resolved
  }

  /** What the processes and mappings keep, however directories are removed. */
  ghost predicate Records(cfg: Setting, s: State) {
    RefsOk(s) && forall i :: 0 <= i < |s.procs| ==> ProcOk(cfg, s.procs[i]) && ProcResolved(s, s.procs[i])
  }

  ghost predicate Inv(cfg: Setting, s: State) {
    Complete(cfg, s) && Records(cfg, s)
  }

  /** The registry may answer the request with the digest. */
  predicate CanName(r: Request, d: string) {
    IsDigest(d) && (r.digest.Some? ==> r.digest == Some(d))
  }

  /** The request can come to remove the directory of an artifact that has files. */
  ghost predicate Empties(cfg: Setting, r: Request, d: string) {
    r.noCache && !r.offline && CanName(r, d) && cfg.content(d) != {}
  }

  /** Directories vanish in one step, or no request removes any that has files. */
  ghost predicate SafeRemoval(cfg: Setting, s: State) {
    cfg.removeAtOnce || forall i, d :: 0 <= i < |s.procs| ==> !Empties(cfg, s.procs[i].req, d)
  }

  lemma NextKeepsComplete(cfg: Setting, s: State, ev: Event)
    requires Inv(cfg, s) && SafeRemoval(cfg, s) && Enabled(cfg, s, ev)
    ensures Complete(cfg, Next(cfg, s, ev))
  {
    var p, t := s.procs[ev.i], Next(cfg, s, ev);
    assert ProcOk(cfg, p);
    assert p.pc.Removing? && !cfg.removeAtOnce ==> !Empties(cfg, p.req, p.pc.d);
    hide RefsOk, ProcResolved, RefKey, IsDigest, DirOf;
    if ev.Rename? && ev.ok {
      forall d | IsDigest(d) && DirOf(d) in t.blobs ensures t.blobs[DirOf(d)] == cfg.content(d) {
        if DirOf(d) == DirOf(p.pc.d) { DirectoriesAreDistinct(d, p.pc.d); }
      }
    }
  }

  lemma NextKeepsRefs(cfg: Setting, s: State, ev: Event)
    requires Records(cfg, s) && Enabled(cfg, s, ev)
    ensures RefsOk(Next(cfg, s, ev))
  {
    assert ProcOk(cfg, s.procs[ev.i]) && ProcResolved(s, s.procs[ev.i]);
    hide RefKey, IsDigest, DirOf;
    var p, t := s.procs[ev.i], Next(cfg, s, ev);
    forall k | k in t.refs ensures IsDigest(t.refs[k]) && exists r :: RefKey(r) == k && (r, t.refs[k]) in t.resolved {
      if k in s.refs && t.refs[k] == s.refs[k] {
        var r :| RefKey(r) == k && (r, s.refs[k]) in s.resolved;
        assert (r, t.refs[k]) in t.resolved;
      } else {
        assert RefKey(p.req.reference) == k && (p.req.reference, t.refs[k]) in t.resolved;
      }
    }
  }

  lemma OwnProcOk(cfg: Setting, s: State, ev: Event)
    requires Enabled(cfg, s, ev) && ProcOk(cfg, s.procs[ev.i]) && RefsOk(s)
    ensures ProcOk(cfg, Next(cfg, s, ev).procs[ev.i])
  {
    hide RefKey, IsDigest, DirOf, RefsOk;
    MappedIsDigest(s, RefKey(s.procs[ev.i].req.reference));
  }

  lemma MappedIsDigest(s: State, key: string)
    requires RefsOk(s)
    ensures key in s.refs ==> IsDigest(s.refs[key])
  {
    hide RefKey, IsDigest;
  }

  lemma OwnProcResolved(cfg: Setting, s: State, ev: Event)
    requires Enabled(cfg, s, ev) && ProcResolved(s, s.procs[ev.i])
    ensures ProcResolved(Next(cfg, s, ev), Next(cfg, s, ev).procs[ev.i])
  {
    hide RefKey, IsDigest, DirOf;
  }

  /** Other processes stay as they are, and what the registry has said stays said. */
  lemma OthersStay(cfg: Setting, s: State, ev: Event, i: nat)
    requires Enabled(cfg, s, ev) && i < |s.procs|
    ensures |Next(cfg, s, ev).procs| == |s.procs|
    ensures i != ev.i ==> Next(cfg, s, ev).procs[i] == s.procs[i]
    ensures Next(cfg, s, ev).procs[i].req == s.procs[i].req
    ensures s.resolved <= Next(cfg, s, ev).resolved
  {
    hide RefKey, IsDigest, DirOf, AfterReadRef;
  }

  lemma NextKeepsProc(cfg: Setting, s: State, ev: Event, i: nat)
    requires Records(cfg, s) && Enabled(cfg, s, ev) && i < |s.procs|
    ensures |Next(cfg, s, ev).procs| == |s.procs|
    ensures ProcOk(cfg, Next(cfg, s, ev).procs[i]) && ProcResolved(Next(cfg, s, ev), Next(cfg, s, ev).procs[i])
    ensures Next(cfg, s, ev).procs[i].req == s.procs[i].req
  {
    assert ProcOk(cfg, s.procs[i]) && ProcResolved(s, s.procs[i]);
    assert ProcOk(cfg, s.procs[ev.i]) && ProcResolved(s, s.procs[ev.i]);
    hide Enabled, Next, ProcOk, RefsOk;
    OthersStay(cfg, s, ev, i);
    if i == ev.i {
      OwnProcOk(cfg, s, ev);
      OwnProcResolved(cfg, s, ev);
    }
  }

  /** Every step of every process, crashes and removals of single files included. */
  lemma NextKeepsRecords(cfg: Setting, s: State, ev: Event)
    requires Records(cfg, s) && Enabled(cfg, s, ev)
    ensures Records(cfg, Next(cfg, s, ev)) && |Next(cfg, s, ev).procs| == |s.procs|
    ensures forall i :: 0 <= i < |s.procs| ==> Next(cfg, s, ev).procs[i].req == s.procs[i].req
  {
    var t := Next(cfg, s, ev);
    NextKeepsRefs(cfg, s, ev);
    assert |t.procs| == |s.procs|;
    hide Enabled, Next, RefsOk, ProcOk, ProcResolved;
    forall i | 0 <= i < |t.procs|
      ensures ProcOk(cfg, t.procs[i]) && ProcResolved(t, t.procs[i]) && t.procs[i].req == s.procs[i].req
    {
      NextKeepsProc(cfg, s, ev, i);
    }
  }

  lemma NextKeepsInv(cfg: Setting, s: State, ev: Event)
    requires Inv(cfg, s) && SafeRemoval(cfg, s) && Enabled(cfg, s, ev)
    ensures Inv(cfg, Next(cfg, s, ev)) && SafeRemoval(cfg, Next(cfg, s, ev))
  {
    NextKeepsComplete(cfg, s, ev);
    NextKeepsRecords(cfg, s, ev);
    hide Enabled, Next, Complete, Records, Empties;
  }

  lemma {:induction false} LeadsKeepsRecords(cfg: Setting, s: State, evs: seq<Event>, t: State)
    requires Records(cfg, s) && Leads(cfg, s, evs, t)
    ensures Records(cfg, t) && SameRequests(s, t)
    decreases |evs|
  {
    hide Records, Enabled, Next;
    if evs != [] {
      NextKeepsRecords(cfg, s, evs[0]);
      LeadsKeepsRecords(cfg, Next(cfg, s, evs[0]), evs[1..], t);
    }
  }

  ghost predicate SameRequests(s: State, t: State) {
    |s.procs| == |t.procs| && forall i :: 0 <= i < |s.procs| ==> t.procs[i].req == s.procs[i].req
  }

  lemma {:induction false} LeadsKeepsInv(cfg: Setting, s: State, evs: seq<Event>, t: State)
    requires Inv(cfg, s) && SafeRemoval(cfg, s) && Leads(cfg, s, evs, t)
    ensures Inv(cfg, t) && SafeRemoval(cfg, t)
    decreases |evs|
  {
    hide Inv, SafeRemoval, Enabled, Next;
    if evs != [] {
      NextKeepsInv(cfg, s, evs[0]);
      LeadsKeepsInv(cfg, Next(cfg, s, evs[0]), evs[1..], t);
    }
  }

  // ---------- What that means for pulls ----------

  /** A cache as earlier pulls left it, and processes about to begin. */
  ghost predicate Begins(cfg: Setting, s: State) {
    Inv(cfg, s) && forall i :: 0 <= i < |s.procs| ==> s.procs[i].pc.Start?
  }

  /** In every reachable state, whoever crashed on the way, a cached directory is complete. */
  lemma CachedIsComplete(cfg: Setting, s: State, evs: seq<Event>, t: State, d: string)
    requires Begins(cfg, s) && SafeRemoval(cfg, s) && Leads(cfg, s, evs, t)
    requires IsDigest(d) && DirOf(d) in t.blobs
    ensures t.blobs[DirOf(d)] == cfg.content(d)
  {
    LeadsKeepsInv(cfg, s, evs, t);
    hide Leads;
  }

  /** The process has settled on a directory to return. */
  predicate Settled(pc: Pc) {
    pc.Answered? || pc.Mapping?
  }

  lemma SettledProc(cfg: Setting, u: State, i: nat)
    requires Inv(cfg, u) && i < |u.procs| && Settled(u.procs[i].pc)
    ensures var p := u.procs[i];
            && (DirOf(p.pc.d) in u.blobs ==> u.blobs[DirOf(p.pc.d)] == cfg.content(p.pc.d))
            && (p.req.digest.Some? ==> Some(p.pc.d) == p.req.digest)
  {
    hide RefsOk, ProcResolved, RefKey, IsDigest, DirOf;
    assert ProcOk(cfg, u.procs[i]);
  }

  /** When a pull settles on a directory, from the cache or freshly extracted, the directory is
      there and is exactly the artifact of the digest it returns: a hit is as good as a pull. */
  lemma HitEqualsPull(cfg: Setting, s: State, evs: seq<Event>, t: State, ev: Event)
    requires Begins(cfg, s) && SafeRemoval(cfg, s) && Leads(cfg, s, evs, t) && Enabled(cfg, t, ev)
    requires Settled(Next(cfg, t, ev).procs[ev.i].pc) && !Settled(t.procs[ev.i].pc)
    ensures var u := Next(cfg, t, ev); var d := u.procs[ev.i].pc.d;
            DirOf(d) in u.blobs && u.blobs[DirOf(d)] == cfg.content(d)
    ensures t.procs[ev.i].req.digest.Some? ==> Some(Next(cfg, t, ev).procs[ev.i].pc.d) == t.procs[ev.i].req.digest
  {
    LeadsKeepsInv(cfg, s, evs, t);
    hide *;
    NextKeepsInv(cfg, t, ev);
    SettledIsThere(cfg, t, ev);
    SettledProc(cfg, Next(cfg, t, ev), ev.i);
  }

  /** Whatever step settles a pull has seen or made the directory. */
  lemma SettledIsThere(cfg: Setting, s: State, ev: Event)
    requires Enabled(cfg, s, ev) && Settled(Next(cfg, s, ev).procs[ev.i].pc) && !Settled(s.procs[ev.i].pc)
    ensures DirOf(Next(cfg, s, ev).procs[ev.i].pc.d) in Next(cfg, s, ev).blobs
    ensures Next(cfg, s, ev).procs[ev.i].req == s.procs[ev.i].req
  {
    hide RefKey, IsDigest, DirOf;
  }

  /** An offline pull never contacts the registry. */
  lemma OfflineNeverAsks(cfg: Setting, s: State, evs: seq<Event>, t: State, i: nat)
    requires Begins(cfg, s) && Leads(cfg, s, evs, t)
    requires i < |t.procs| && t.procs[i].req.offline
    ensures !t.procs[i].asked
  {
    LeadsKeepsRecords(cfg, s, evs, t);
    hide Leads;
    assert ProcOk(cfg, t.procs[i]);
  }

  /** What a tag maps to was resolved for a reference with the same file name, so for the reference
      itself as long as no other reference in play shares that name. */
  lemma MappingWasResolved(cfg: Setting, s: State, evs: seq<Event>, t: State, reference: string)
    requires Begins(cfg, s) && Leads(cfg, s, evs, t)
    requires RefKey(reference) in t.refs
    requires forall x :: x in t.resolved && RefKey(x.0) == RefKey(reference) ==> x.0 == reference
    ensures (reference, t.refs[RefKey(reference)]) in t.resolved
  {
    LeadsKeepsRecords(cfg, s, evs, t);
    hide Leads;
    var r :| RefKey(r) == RefKey(reference) && (r, t.refs[RefKey(reference)]) in t.resolved;
  }

  /** Two references with the same file name: the second pull answers with the first one's artifact
      and never asks the registry. */
  lemma CollidingReferenceHits(cfg: Setting, s: State, i: nat, r1: string, d: string) returns (t: State)
    requires Inv(cfg, s) && i < |s.procs| && s.procs[i].pc.Start?
    requires !s.procs[i].req.noCache && s.procs[i].req.digest.None?
    requires RefKey(r1) == RefKey(s.procs[i].req.reference)
    requires RefKey(r1) in s.refs && s.refs[RefKey(r1)] == d && DirOf(d) in s.blobs
    ensures Leads(cfg, s, [ReadRef(i), Check(i)], t) && |t.procs| == |s.procs|
    ensures t.procs[i].pc == Answered(d) && !t.procs[i].asked && t.resolved == s.resolved
  {
    assert ProcOk(cfg, s.procs[i]);
    assert d != "" by { assert IsDigest(d); }
    hide Complete, RefsOk, RefKey, DirOf, IsDigest;
    var u := Next(cfg, s, ReadRef(i));
    t := Next(cfg, u, Check(i));
    assert Leads(cfg, u, [Check(i)], t) by {
      assert Leads(cfg, t, [], t);
      assert [Check(i)][1..] == [];
    }
    assert [ReadRef(i), Check(i)][1..] == [Check(i)];
  }

  // ---------- Sequences of steps ----------

  lemma {:induction false} LeadsAppend(cfg: Setting, s: State, evs: seq<Event>, u: State, evs': seq<Event>, t: State)
    requires Leads(cfg, s, evs, u) && Leads(cfg, u, evs', t)
    ensures Leads(cfg, s, evs + evs', t)
    decreases |evs|
  {
    hide Enabled, Next;
    if evs == [] {
      assert evs + evs' == evs';
    } else {
      LeadsAppend(cfg, Next(cfg, s, evs[0]), evs[1..], u, evs', t);
      assert (evs + evs')[1..] == evs[1..] + evs';
    }
  }

  lemma OneStep(cfg: Setting, s: State, evs: seq<Event>, ev: Event, u: State, t: State)
    requires Enabled(cfg, s, ev) && u == Next(cfg, s, ev) && Leads(cfg, u, evs, t)
    ensures Leads(cfg, s, [ev] + evs, t)
  {
    assert ([ev] + evs)[1..] == evs;
    hide Next, Enabled;
  }

  lemma Stay(cfg: Setting, s: State)
    ensures Leads(cfg, s, [], s)
  {
  }

  lemma TwoSteps(cfg: Setting, s: State, e0: Event, u: State, e1: Event, t: State)
    requires Enabled(cfg, s, e0) && u == Next(cfg, s, e0) && Enabled(cfg, u, e1) && t == Next(cfg, u, e1)
    ensures Leads(cfg, s, [e0, e1], t)
  {
    hide Enabled, Next;
    Stay(cfg, t);
    OneStep(cfg, u, [], e1, t, t);
    OneStep(cfg, s, [e1], e0, u, t);
    assert [e1] + [] == [e1] && [e0] + [e1] == [e0, e1];
  }

  // ---------- Removal file by file ----------

  /** From any state in which a NoCache pull that may be answered with `d` is about to begin and the
      complete directory of `d` has a file: the pull can take the file away and leave the rest. */
  lemma RemovalLeavesPartial(cfg: Setting, s: State, i: nat, d: string, f: File) returns (t: State)
    requires !cfg.removeAtOnce && i < |s.procs| && s.procs[i].pc.Start? && Empties(cfg, s.procs[i].req, d)
    requires DirOf(d) in s.blobs && s.blobs[DirOf(d)] == cfg.content(d) && f in cfg.content(d)
    ensures Leads(cfg, s, [ReadRef(i), Resolve(i, Some(d)), RemoveFile(i, f)], t)
    ensures DirOf(d) in t.blobs && t.blobs[DirOf(d)] == cfg.content(d) - {f}
    ensures |t.procs| == |s.procs| && forall j :: 0 <= j < |s.procs| && j != i ==> t.procs[j] == s.procs[j]
  {
    hide DirOf, IsDigest, RefKey;
    var e0, e1, e2 := ReadRef(i), Resolve(i, Some(d)), RemoveFile(i, f);
    var s1 := Next(cfg, s, e0);
    assert s1.procs[i].pc == Asking;
    var s2 := Next(cfg, s1, e1);
    assert s2.procs[i].pc == Removing(d) && s2.blobs == s.blobs;
    t := Next(cfg, s2, e2);
    hide Next, Enabled;
    Stay(cfg, t);
    OneStep(cfg, s2, [], e2, t, t);
    OneStep(cfg, s1, [e2], e1, s2, t);
    OneStep(cfg, s, [e1, e2], e0, s1, t);
    assert [e2] + [] == [e2] && [e1] + [e2] == [e1, e2] && [e0] + [e1, e2] == [e0, e1, e2];
  }

  /** A pull of the digest that begins then is answered with what is left. */
  lemma PartialDirectoryIsServed(cfg: Setting, s: State, i: nat, j: nat, d: string, f: File) returns (t: State)
    requires !cfg.removeAtOnce && i < |s.procs| && s.procs[i].pc.Start? && Empties(cfg, s.procs[i].req, d)
    requires DirOf(d) in s.blobs && s.blobs[DirOf(d)] == cfg.content(d) && f in cfg.content(d)
    requires j < |s.procs| && j != i && s.procs[j].pc.Start? && s.procs[j].req.digest == Some(d) && !s.procs[j].req.noCache
    ensures Leads(cfg, s, [ReadRef(i), Resolve(i, Some(d)), RemoveFile(i, f), ReadRef(j), Check(j)], t)
    ensures |t.procs| == |s.procs| && t.procs[j].pc == Answered(d)
    ensures DirOf(d) in t.blobs && t.blobs[DirOf(d)] == cfg.content(d) - {f}
  {
    var u := RemovalLeavesPartial(cfg, s, i, d, f);
    hide DirOf, RefKey, IsDigest, Empties;
    var u1 := Next(cfg, u, ReadRef(j));
    assert u1.procs[j].pc == Checking(d) && u1.blobs == u.blobs;
    t := Next(cfg, u1, Check(j));
    TwoSteps(cfg, u, ReadRef(j), u1, Check(j), t);
    hide Next, Enabled;
    var evs, evs' := [ReadRef(i), Resolve(i, Some(d)), RemoveFile(i, f)], [ReadRef(j), Check(j)];
    LeadsAppend(cfg, s, evs, u, evs', t);
    assert evs + evs' == [ReadRef(i), Resolve(i, Some(d)), RemoveFile(i, f), ReadRef(j), Check(j)];
  }

  // ---------- Exactly which requests are safe ----------

  ghost predicate ValidRequests(reqs: seq<Request>) {
    forall i :: 0 <= i < |reqs| && reqs[i].digest.Some? ==> IsDigest(reqs[i].digest.value)
  }

  ghost predicate Requested(s: State, reqs: seq<Request>) {
    |s.procs| == |reqs| && forall i :: 0 <= i < |reqs| ==> s.procs[i].req == reqs[i]
  }

  /** The processes of the requests, about to begin, over some cache. */
  function Pulls(reqs: seq<Request>, blobs: map<string, set<File>>): State {
    State(blobs, map[], seq(|reqs|, i requires 0 <= i < |reqs| => Proc(reqs[i], Start, false)), {})
  }

  lemma PullsBegin(cfg: Setting, reqs: seq<Request>, d: string)
    requires ValidRequests(reqs) && IsDigest(d)
    ensures Begins(cfg, Pulls(reqs, map[])) && Begins(cfg, Pulls(reqs, map[DirOf(d) := cfg.content(d)]))
  {
    forall x | IsDigest(x) && DirOf(x) == DirOf(d) ensures x == d {
      DirectoriesAreDistinct(x, d);
    }
    hide DirOf, IsDigest;
  }

  /** These requests, run in whatever way over whatever cache, keep every directory complete. */
  ghost predicate AlwaysComplete(cfg: Setting, reqs: seq<Request>) {
    forall s, evs, t :: Begins(cfg, s) && Requested(s, reqs) && Leads(cfg, s, evs, t) ==> Complete(cfg, t)
  }

  /** They do exactly when removal is one step, or no NoCache request that may use the registry can
      name an artifact that has files. */
  lemma AlwaysCompleteIff(cfg: Setting, reqs: seq<Request>)
    requires ValidRequests(reqs)
    ensures AlwaysComplete(cfg, reqs)
            <==> cfg.removeAtOnce || forall i, d :: 0 <= i < |reqs| ==> !Empties(cfg, reqs[i], d)
  {
    if cfg.removeAtOnce || forall i, d :: 0 <= i < |reqs| ==> !Empties(cfg, reqs[i], d) {
      forall s, evs, t | Begins(cfg, s) && Requested(s, reqs) && Leads(cfg, s, evs, t) ensures Complete(cfg, t) {
        SafePullsStayComplete(cfg, reqs, s, evs, t);
      }
      hide Begins, Requested, Leads, Complete, Empties;
    } else {
      var i, d :| 0 <= i < |reqs| && Empties(cfg, reqs[i], d);
      UnsafePullsDoNot(cfg, reqs, i, d);
      hide AlwaysComplete, Empties;
    }
  }

  lemma SafePullsStayComplete(cfg: Setting, reqs: seq<Request>, s: State, evs: seq<Event>, t: State)
    requires cfg.removeAtOnce || forall i, d :: 0 <= i < |reqs| ==> !Empties(cfg, reqs[i], d)
    requires Begins(cfg, s) && Requested(s, reqs) && Leads(cfg, s, evs, t)
    ensures Complete(cfg, t)
  {
    hide Complete, Leads, Records, Empties;
    assert SafeRemoval(cfg, s);
    LeadsKeepsInv(cfg, s, evs, t);
  }

  lemma UnsafePullsDoNot(cfg: Setting, reqs: seq<Request>, i: nat, d: string)
    requires ValidRequests(reqs) && i < |reqs| && !cfg.removeAtOnce && Empties(cfg, reqs[i], d)
    ensures !AlwaysComplete(cfg, reqs)
  {
    var f :| f in cfg.content(d);
    var s := Pulls(reqs, map[DirOf(d) := cfg.content(d)]);
    PullsBegin(cfg, reqs, d);
    var t := RemovalLeavesPartial(cfg, s, i, d, f);
    assert !Complete(cfg, t);
    assert Requested(s, reqs);
    hide Leads, DirOf, IsDigest, Complete, Begins, Requested, Pulls, Empties;
  }

  // ---------- Exactly when a mapping can be another reference's ----------

  /** The request may write a mapping: it uses the registry and names a tag. */
  predicate MayMap(r: Request) {
    !r.offline && r.digest.None?
  }

  /** Every mapping was written by a request for a reference with that file, as the registry answered. */
  ghost predicate Mapped(s: State) {
    forall k :: k in s.refs ==> MappedBySome(s, k)
  }

  ghost predicate MappedBySome(s: State, k: string)
    requires k in s.refs
  {
    exists i: nat :: MappedBy(s, i, k)
  }

  ghost predicate MappedBy(s: State, i: nat, k: string)
    requires k in s.refs
  {
    i < |s.procs| && MayMap(s.procs[i].req) && RefKey(s.procs[i].req.reference) == k
    && (s.procs[i].req.reference, s.refs[k]) in s.resolved
  }

  /** Mappings change only where a tag pull writes what it resolved. */
  lemma RefsAfter(cfg: Setting, s: State, ev: Event)
    requires Records(cfg, s) && Enabled(cfg, s, ev)
    ensures var p, t := s.procs[ev.i], Next(cfg, s, ev);
            if ev.WriteRef? && ev.ok then
              MayMap(p.req) && p.pc.Mapping? && (p.req.reference, p.pc.d) in s.resolved && t.refs == s.refs[RefKey(p.req.reference) := p.pc.d]
            else t.refs == s.refs
  {
    assert ProcOk(cfg, s.procs[ev.i]) && ProcResolved(s, s.procs[ev.i]);
    hide RefKey, IsDigest, DirOf, Records;
  }

  lemma NextKeepsMapped(cfg: Setting, s: State, ev: Event)
    requires Records(cfg, s) && Enabled(cfg, s, ev) && Mapped(s)
    ensures Mapped(Next(cfg, s, ev))
  {
    var p, t := s.procs[ev.i], Next(cfg, s, ev);
    hide RefKey, IsDigest, DirOf, Records, RefsOk, Next;
    NextKeepsRecords(cfg, s, ev);
    RefsAfter(cfg, s, ev);
    OthersStay(cfg, s, ev, ev.i);
    hide Enabled;
    forall k | k in t.refs ensures MappedBySome(t, k) {
      if ev.WriteRef? && ev.ok && k == RefKey(p.req.reference) {
        assert MappedBy(t, ev.i, k);
      } else {
        assert MappedBySome(s, k);
        var i: nat :| MappedBy(s, i, k);
        assert MappedBy(t, i, k);
      }
    }
  }

  lemma {:induction false} LeadsKeepsMapped(cfg: Setting, s: State, evs: seq<Event>, t: State)
    requires Records(cfg, s) && Mapped(s) && Leads(cfg, s, evs, t)
    ensures Mapped(t)
    decreases |evs|
  {
    hide Records, Mapped, Enabled, Next;
    if evs != [] {
      NextKeepsRecords(cfg, s, evs[0]);
      NextKeepsMapped(cfg, s, evs[0]);
      LeadsKeepsMapped(cfg, Next(cfg, s, evs[0]), evs[1..], t);
    }
  }

  lemma ExtractOne(cfg: Setting, s: State, i: nat, d: string, files: set<File>, f: File)
    requires i < |s.procs| && s.procs[i].pc == Extracting(d, files) && f in cfg.content(d)
    ensures Leads(cfg, s, [ExtractFile(i, f)], Go(s, i, Extracting(d, files + {f})))
  {
    hide DirOf, RefKey, IsDigest;
    var t := Go(s, i, Extracting(d, files + {f}));
    Stay(cfg, t);
    OneStep(cfg, s, [], ExtractFile(i, f), t, t);
    assert [ExtractFile(i, f)] + [] == [ExtractFile(i, f)];
  }

  lemma GoTwice(s: State, i: nat, pc: Pc, pc': Pc)
    requires i < |s.procs|
    ensures Go(Go(s, i, pc), i, pc') == Go(s, i, pc') && |Go(s, i, pc).procs| == |s.procs| && Go(s, i, pc).procs[i].pc == pc
    ensures s.procs[i].pc == pc ==> Go(s, i, pc) == s
  {
    assert s.procs[i].pc == pc ==> Go(s, i, pc).procs == s.procs;
  }

  /** File by file, an extraction can come to its end. */
  lemma {:induction false} ExtractingReaches(cfg: Setting, s: State, i: nat, d: string, files: set<File>) returns (evs: seq<Event>, t: State)
    requires i < |s.procs| && s.procs[i].pc == Extracting(d, files) && files <= cfg.content(d)
    ensures Leads(cfg, s, evs, t) && t == Go(s, i, Extracting(d, cfg.content(d)))
    decreases |cfg.content(d) - files|
  {
    GoTwice(s, i, Extracting(d, files), Extracting(d, files));
    if files == cfg.content(d) {
      evs, t := [], s;
    } else {
      assert !(cfg.content(d) <= files);
      var f :| f in cfg.content(d) && f !in files;
      assert cfg.content(d) - (files + {f}) == cfg.content(d) - files - {f};
      var u := Go(s, i, Extracting(d, files + {f}));
      ExtractOne(cfg, s, i, d, files, f);
      GoTwice(s, i, Extracting(d, files + {f}), Extracting(d, cfg.content(d)));
      hide Go, Leads;
      var rest;
      rest, t := ExtractingReaches(cfg, u, i, d, files + {f});
      evs := [ExtractFile(i, f)] + rest;
      LeadsAppend(cfg, s, [ExtractFile(i, f)], u, rest, t);
    }
  }

  lemma TagPullResolves(cfg: Setting, s: State, i: nat, d: string) returns (t: State)
    requires i < |s.procs| && s.procs[i].pc.Start? && MayMap(s.procs[i].req) && IsDigest(d)
    requires RefKey(s.procs[i].req.reference) !in s.refs
    ensures Leads(cfg, s, [ReadRef(i), Resolve(i, Some(d))], t) && |t.procs| == |s.procs| && t.procs[i].req == s.procs[i].req
    ensures t.procs[i].pc == if s.procs[i].req.noCache then Removing(d) else CheckingAgain(d)
    ensures t.blobs == s.blobs && t.refs == s.refs && t.resolved == s.resolved + {(s.procs[i].req.reference, d)}
  {
    hide DirOf, RefKey, IsDigest;
    var u := Next(cfg, s, ReadRef(i));
    assert u.procs[i].pc == Asking && u.procs[i].req == s.procs[i].req;
    t := Next(cfg, u, Resolve(i, Some(d)));
    TwoSteps(cfg, s, ReadRef(i), u, Resolve(i, Some(d)), t);
  }

  lemma TagPullFetches(cfg: Setting, s: State, i: nat, d: string) returns (evs: seq<Event>, t: State)
    requires i < |s.procs| && s.procs[i].pc.Start? && MayMap(s.procs[i].req) && IsDigest(d)
    requires DirOf(d) !in s.blobs && RefKey(s.procs[i].req.reference) !in s.refs
    ensures Leads(cfg, s, evs, t) && |t.procs| == |s.procs|
    ensures t.procs[i].pc == Extracting(d, {}) && t.procs[i].req == s.procs[i].req
    ensures DirOf(d) !in t.blobs && t.refs == s.refs && t.resolved == s.resolved + {(s.procs[i].req.reference, d)}
  {
    var u := TagPullResolves(cfg, s, i, d);
    hide DirOf, RefKey, IsDigest, MayMap;
    var e0, e1 := if s.procs[i].req.noCache then RemoveDir(i) else CheckAgain(i), Fetch(i, true);
    var v := Next(cfg, u, e0);
    assert v.procs[i].pc == Fetching(d) && v.procs[i].req == s.procs[i].req && DirOf(d) !in v.blobs;
    t := Next(cfg, v, e1);
    TwoSteps(cfg, u, e0, v, e1, t);
    hide Next, Enabled;
    evs := [ReadRef(i), Resolve(i, Some(d))] + [e0, e1];
    LeadsAppend(cfg, s, [ReadRef(i), Resolve(i, Some(d))], u, [e0, e1], t);
  }

  lemma ExtractedIsMapped(cfg: Setting, s: State, i: nat, d: string) returns (evs: seq<Event>, t: State)
    requires i < |s.procs| && s.procs[i].pc == Extracting(d, cfg.content(d)) && s.procs[i].req.digest.None?
    requires DirOf(d) !in s.blobs
    ensures Leads(cfg, s, evs, t) && t.refs == s.refs[RefKey(s.procs[i].req.reference) := d] && t.resolved == s.resolved
  {
    hide DirOf, RefKey, IsDigest;
    var e0, e1, e2 := ExtractEnd(i, true), Rename(i, true), WriteRef(i, true);
    var s1 := Next(cfg, s, e0);
    assert s1.procs[i].pc == Renaming(d, cfg.content(d)) && s1.procs[i].req == s.procs[i].req;
    var s2 := Next(cfg, s1, e1);
    TwoSteps(cfg, s, e0, s1, e1, s2);
    assert s2.procs[i].pc == Mapping(d) && s2.procs[i].req == s.procs[i].req;
    t := Next(cfg, s2, e2);
    Stay(cfg, t);
    OneStep(cfg, s2, [], e2, t, t);
    hide Next, Enabled;
    LeadsAppend(cfg, s, [e0, e1], s2, [e2] + [], t);
    evs := [e0, e1] + ([e2] + []);
  }

  lemma TagPullMaps(cfg: Setting, s: State, i: nat, d: string) returns (evs: seq<Event>, t: State)
    requires i < |s.procs| && s.procs[i].pc.Start? && MayMap(s.procs[i].req) && IsDigest(d)
    requires DirOf(d) !in s.blobs && RefKey(s.procs[i].req.reference) !in s.refs
    ensures Leads(cfg, s, evs, t)
    ensures t.refs == s.refs[RefKey(s.procs[i].req.reference) := d]
    ensures t.resolved == s.resolved + {(s.procs[i].req.reference, d)}
  {
    var a, u := TagPullFetches(cfg, s, i, d);
    var b, v := ExtractingReaches(cfg, u, i, d, {});
    var c;
    c, t := ExtractedIsMapped(cfg, v, i, d);
    hide *;
    LeadsAppend(cfg, u, b, v, c, t);
    LeadsAppend(cfg, s, a, u, b + c, t);
    evs := a + (b + c);
  }

  /** Over an empty cache, whatever is mapped under the file of `reference` was resolved for it. */
  ghost predicate MappingsAreOwn(cfg: Setting, reqs: seq<Request>, reference: string) {
    forall evs, t :: Leads(cfg, Pulls(reqs, map[]), evs, t) && RefKey(reference) in t.refs ==>
      (reference, t.refs[RefKey(reference)]) in t.resolved
  }

  /** That is so exactly when no request that may write a mapping is for another reference with the
      same file. */
  lemma MappingsAreOwnIff(cfg: Setting, reqs: seq<Request>, reference: string)
    requires ValidRequests(reqs)
    ensures MappingsAreOwn(cfg, reqs, reference)
            <==> forall i :: 0 <= i < |reqs| && MayMap(reqs[i]) && RefKey(reqs[i].reference) == RefKey(reference) ==>
                   reqs[i].reference == reference
  {
    var s, d := Pulls(reqs, map[]), "a:a";
    assert DigestCut(d, 1);
    PullsBegin(cfg, reqs, d);
    assert Records(cfg, s) && Mapped(s);
    if i :| 0 <= i < |reqs| && MayMap(reqs[i]) && RefKey(reqs[i].reference) == RefKey(reference) && reqs[i].reference != reference {
      var evs, t := TagPullMaps(cfg, s, i, d);
      assert (reference, d) !in t.resolved;
      hide Leads, RefKey;
    } else {
      hide Leads, RefKey, Records;
      forall evs, t | Leads(cfg, s, evs, t) && RefKey(reference) in t.refs
        ensures (reference, t.refs[RefKey(reference)]) in t.resolved
      {
        LeadsKeepsMapped(cfg, s, evs, t);
        LeadsKeepsRecords(cfg, s, evs, t);
        MappedByOwn(s, t, reference);
      }
    }
  }

  lemma MappedByOwn(s: State, t: State, reference: string)
    requires Mapped(t) && SameRequests(s, t) && RefKey(reference) in t.refs
    requires forall i :: 0 <= i < |s.procs| && MayMap(s.procs[i].req) && RefKey(s.procs[i].req.reference) == RefKey(reference) ==>
               s.procs[i].req.reference == reference
    ensures (reference, t.refs[RefKey(reference)]) in t.resolved
  {
    hide RefKey;
    assert MappedBySome(t, RefKey(reference));
    var i: nat :| MappedBy(t, i, RefKey(reference));
  }

  // ---------- One pull with nobody else around ----------

  lemma OnlyItsFile(reference: string)
    ensures forall other :: !SameButSeparators(other, reference) ==> RefKey(other) != RefKey(reference)
  {
    forall other ensures !SameButSeparators(other, reference) ==> RefKey(other) != RefKey(reference) {
      FilesCollideIff(other, reference);
    }
  }

  /** What the calls of one pull come to. */
  datatype Luck = Luck(answer: Option<string>, fetched: bool, extracted: bool, written: bool)

  ghost predicate CompleteDirs(cfg: Setting, blobs: map<string, set<File>>) {
    forall d :: IsDigest(d) && DirOf(d) in blobs ==> blobs[DirOf(d)] == cfg.content(d)
  }

  class CachingPuller {
    var blobs: map<string, set<File>>
    var refs: map<string, string>

    constructor ()
      ensures blobs == map[] && refs == map[]
    {
      blobs, refs := map[], map[];
    }

    method WriteRefMapping(refKey: string, digest: string, ok: bool)
      modifies this`refs
      ensures refs == if ok then old(refs)[refKey := digest] else old(refs)
    {
      if ok {
        refs := refs[refKey := digest];
      }
    }

    /** Extracts the layer file by file into a temporary directory. */
    method Extract(files: set<File>) returns (tmp: set<File>)
      ensures tmp == files
    {
      tmp := {};
      var left := files;
      while left != {}
        invariant tmp + left == files
        decreases left
      {
        var f :| f in left;
        left := left - {f};
        tmp := tmp + {f};
      }
    }

    method Pull(cfg: Setting, req: Request, luck: Luck) returns (r: Option<string>, asked: bool)
      requires CompleteDirs(cfg, blobs)
      requires luck.answer.Some? ==> IsDigest(luck.answer.value) && (req.digest.Some? ==> luck.answer == req.digest)
      modifies this
      ensures CompleteDirs(cfg, blobs)
      ensures var file := RefKey(req.reference);
              var known := if req.digest.Some? then req.digest else if file in old(refs) then Some(old(refs)[file]) else None;
              var hit := !req.noCache && known.Some? && known.value != "" && DirOf(known.value) in old(blobs);
              && (asked <==> !hit && !req.offline)
              && (!asked ==> r == (if hit then known else None) && blobs == old(blobs) && refs == old(refs))
      ensures asked && r.Some? ==>
                && r == luck.answer && DirOf(r.value) in blobs && blobs[DirOf(r.value)] == cfg.content(r.value)
                && refs == if req.digest.None? then old(refs)[RefKey(req.reference) := r.value] else old(refs)
      ensures asked ==> (r.Some? <==>
                && luck.answer.Some?
                && ((!req.noCache && DirOf(luck.answer.value) in old(blobs)) || (luck.fetched && luck.extracted))
                && (req.digest.Some? || luck.written))
      ensures forall name :: (luck.answer.None? || name != DirOf(luck.answer.value)) ==>
                (name in blobs <==> name in old(blobs)) && (name in blobs ==> blobs[name] == old(blobs)[name])
      ensures forall other: string :: !SameButSeparators(other, req.reference) ==>
                (RefKey(other) in refs <==> RefKey(other) in old(refs)) && (RefKey(other) in refs ==> refs[RefKey(other)] == old(refs)[RefKey(other)])
      ensures req.digest.None? && !req.offline && !asked ==>
                exists other :: SameButSeparators(other, req.reference) && RefKey(other) in old(refs) && r == Some(old(refs)[RefKey(other)])
    {
      OnlyItsFile(req.reference);
      assert SameButSeparators(req.reference, req.reference);
      hide RefKey, IsDigest, DirOf, SameButSeparators;
      asked := false;
      var refKey := RefKey(req.reference);
      var resolved := "";
      if req.digest.Some? {
        resolved := req.digest.value;
      } else if !req.noCache && refKey in refs {
        resolved := refs[refKey];
      }
      if !req.noCache && resolved != "" && DirOf(resolved) in blobs {
        return Some(resolved), asked;
      }
      if req.offline {
        return None, asked;
      }
      asked := true;
      if luck.answer.None? {
        return None, asked;
      }
      resolved := luck.answer.value;
      var blobDir := DirOf(resolved);
      if req.noCache {
        blobs := blobs - {blobDir};
      } else if blobDir in blobs {
        if req.digest.None? {
          WriteRefMapping(refKey, resolved, luck.written);
          return (if luck.written then Some(resolved) else None), asked;
        }
        return Some(resolved), asked;
      }
      if !luck.fetched || !luck.extracted {
        return None, asked;
      }
      var tmp := Extract(cfg.content(resolved));
      Install(cfg, resolved, tmp);
      if req.digest.None? {
        WriteRefMapping(refKey, resolved, luck.written);
        if !luck.written {
          return None, asked;
        }
      }
      return Some(resolved), asked;
    }

    /** The rename that makes the extracted directory visible, all of it at once. */
    method Install(cfg: Setting, digest: string, tmp: set<File>)
      requires CompleteDirs(cfg, blobs) && IsDigest(digest) && tmp == cfg.content(digest) && DirOf(digest) !in blobs
      modifies this`blobs
      ensures CompleteDirs(cfg, blobs) && blobs == old(blobs)[DirOf(digest) := tmp]
    {
      blobs := blobs[DirOf(digest) := tmp];
      forall d | IsDigest(d) && DirOf(d) in blobs ensures blobs[DirOf(d)] == cfg.content(d) {
        if DirOf(d) == DirOf(digest) { DirectoriesAreDistinct(d, digest); }
      }
    }
  }
}
