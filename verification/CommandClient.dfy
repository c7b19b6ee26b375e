// The 1Password client's memo of vault items: concurrent calls for the same item share one fetch,
// and a failed fetch is forgotten so that later calls try again.
module CommandClient {
  import opened Common

  type Item = string
  type Failure = string
  type Fetched = Result<Item, Failure>

  // ---------- Identifiers and cache keys ----------

  /** `letterOrNumber` is the Unicode classes L and N of the identifier pattern. */
  predicate ValidIdentifier(name: string, letterOrNumber: char -> bool) {
    name != "" && forall c :: c in name ==> letterOrNumber(c) || c == '_' || c == '.' || c == '-' || c == ' '
  }

  function KeyOf(vaultName: string, itemName: string): string {
    vaultName + "/" + itemName
  }

  /** Two valid pairs never share a cache key: the slash is not a letter or number. */
  lemma KeysAreDistinct(v1: string, i1: string, v2: string, i2: string, letterOrNumber: char -> bool)
    requires !letterOrNumber('/')
    requires ValidIdentifier(v1, letterOrNumber) && ValidIdentifier(v2, letterOrNumber)
    requires KeyOf(v1, i1) == KeyOf(v2, i2)
    ensures v1 == v2 && i1 == i2
  {
    var k := KeyOf(v1, i1);
    assert k[|v1|] == '/' && k[|v2|] == '/';
    assert forall p :: 0 <= p < |v1| ==> k[p] == v1[p] && v1[p] in v1;
    assert forall p :: 0 <= p < |v2| ==> k[p] == v2[p] && v2[p] in v2;
    assert v1 == k[..|v1|] && v2 == k[..|v2|];
    assert i1 == k[|v1| + 1..] && i2 == k[|v2| + 1..];
  }

  // ---------- Entries, cache and calls ----------

  datatype Once = NotRun | Running(caller: nat) | Ran(result: Fetched)

  datatype Entry = Entry(key: string, once: Once, fetches: nat)

  /** Entries are identified by their position: an index stands for the pointer. */
  datatype Shared = Shared(entries: seq<Entry>, cache: map<string, nat>)

  datatype Pc =
    | NotStarted
    | Holding(e: nat)
    | Fetching(e: nat)
    | Observing(e: nat)
    | Evicting(e: nat)
    | Returned(e: nat, result: Fetched)

  datatype Call = Call(key: string, pc: Pc)

  datatype State = State(shared: Shared, calls: seq<Call>)

  /** The first critical section: the cached entry, or a new one. */
  function LookUp(sh: Shared, key: string): (Shared, nat) {
    if key in sh.cache then (sh, sh.cache[key])
    else (Shared(sh.entries + [Entry(key, NotRun, 0)], sh.cache[key := |sh.entries|]), |sh.entries|)
  }

  /** The second critical section: drop the entry, unless the cache holds another one by now. */
  function Evict(sh: Shared, key: string, e: nat): Shared {
    if key in sh.cache && sh.cache[key] == e then sh.(cache := sh.cache - {key}) else sh
  }

  function SetOnce(sh: Shared, e: nat, once: Once, fetches: nat): Shared
    requires e < |sh.entries|
  {
    sh.(entries := sh.entries[e := sh.entries[e].(once := once, fetches := fetches)])
  }

  datatype Event =
    | Begin(c: nat)
    | EnterOnce(c: nat)
    | FetchEnds(c: nat, result: Fetched)
    | PassOnce(c: nat)
    | Answer(c: nat)
    | DropEntry(c: nat)

  predicate Enabled(s: State, ev: Event) {
    && ev.c < |s.calls|
    && var pc := s.calls[ev.c].pc;
       match ev
       case Begin(_) => pc.NotStarted?
       case EnterOnce(_) => pc.Holding? && pc.e < |s.shared.entries| && s.shared.entries[pc.e].once.NotRun?
       case FetchEnds(_, _) => pc.Fetching? && pc.e < |s.shared.entries|
       case PassOnce(_) => pc.Holding? && pc.e < |s.shared.entries| && s.shared.entries[pc.e].once.Ran?
       case Answer(_) => pc.Observing? && pc.e < |s.shared.entries| && s.shared.entries[pc.e].once.Ran?
       case DropEntry(_) => pc.Evicting? && pc.e < |s.shared.entries| && s.shared.entries[pc.e].once.Ran?
  }

  function At(s: State, c: nat, sh: Shared, pc: Pc): State
    requires c < |s.calls|
  {
    State(sh, s.calls[c := s.calls[c].(pc := pc)])
  }

  function Next(s: State, ev: Event): State
    requires Enabled(s, ev)
  {
    var call, sh := s.calls[ev.c], s.shared;
    match ev
    case Begin(c) => var r := LookUp(sh, call.key); At(s, c, r.0, Holding(r.1))
    case EnterOnce(c) => At(s, c, SetOnce(sh, call.pc.e, Running(c), sh.entries[call.pc.e].fetches + 1), Fetching(call.pc.e))
    case FetchEnds(c, result) => At(s, c, SetOnce(sh, call.pc.e, Ran(result), sh.entries[call.pc.e].fetches), Observing(call.pc.e))
    case PassOnce(c) => At(s, c, sh, Observing(call.pc.e))
    case Answer(c) =>
      var result := sh.entries[call.pc.e].once.result;
      At(s, c, sh, if result.Ok? then Returned(call.pc.e, result) else Evicting(call.pc.e))
    case DropEntry(c) => At(s, c, Evict(sh, call.key, call.pc.e), Returned(call.pc.e, sh.entries[call.pc.e].once.result))
  }

  ghost predicate Leads(s: State, evs: seq<Event>, t: State)
    decreases |evs|
  {
    if evs == [] then s == t else Enabled(s, evs[0]) && Leads(Next(s, evs[0]), evs[1..], t)
  }

  function Initial(keys: seq<string>): State {
    State(Shared([], map[]), seq(|keys|, i requires 0 <= i < |keys| => Call(keys[i], NotStarted)))
  }

  // ---------- What every step keeps ----------

  predicate Failed(en: Entry) {
    en.once.Ran? && en.once.result.Err?
  }

  /** The cache answers with an entry of the right key; an entry it no longer holds has failed. */
  ghost predicate CacheOk(sh: Shared) {
    && (forall k :: k in sh.cache ==> sh.cache[k] < |sh.entries| && sh.entries[sh.cache[k]].key == k)
    && (forall e: nat :: e < |sh.entries| ==>
          Failed(sh.entries[e]) || (sh.entries[e].key in sh.cache && sh.cache[sh.entries[e].key] == e))
  }

  /** A call holds an entry of its own key, and has seen what the entry says. */
  ghost predicate CallOk(sh: Shared, c: nat, call: Call) {
    match call.pc
    case NotStarted => true
    case Holding(e) => e < |sh.entries| && sh.entries[e].key == call.key
    case Fetching(e) => e < |sh.entries| && sh.entries[e].key == call.key && sh.entries[e].once == Running(c)
    case Observing(e) => e < |sh.entries| && sh.entries[e].key == call.key && sh.entries[e].once.Ran?
    case Evicting(e) => e < |sh.entries| && sh.entries[e].key == call.key && Failed(sh.entries[e])
    case Returned(e, result) =>
      && e < |sh.entries| && sh.entries[e].key == call.key && sh.entries[e].once == Ran(result)
      && (result.Err? ==> !(call.key in sh.cache && sh.cache[call.key] == e))
  }

  /** The fetch of an entry is in the hands of one call, or over, or not begun. */
  ghost predicate OnceOk(s: State, e: nat)
    requires e < |s.shared.entries|
  {
    var en := s.shared.entries[e];
    && (en.once.Running? ==> en.once.caller < |s.calls| && s.calls[en.once.caller].pc == Fetching(e))
    && en.fetches == if en.once.NotRun? then 0 else 1
  }

  ghost predicate Inv(s: State) {
    && CacheOk(s.shared)
    && (forall c: nat :: c < |s.calls| ==> CallOk(s.shared, c, s.calls[c]))
    && (forall e: nat :: e < |s.shared.entries| ==> OnceOk(s, e))
  }

  lemma NextKeepsCache(s: State, ev: Event)
    requires Inv(s) && Enabled(s, ev)
    ensures CacheOk(Next(s, ev).shared)
  {
    var sh := s.shared;
    assert CallOk(sh, ev.c, s.calls[ev.c]);
    hide OnceOk;
    if ev.EnterOnce? || ev.FetchEnds? {
      var e := s.calls[ev.c].pc.e;
      assert OnceRunning(s, ev.c, e) || sh.entries[e].once.NotRun?;
      assert !Failed(sh.entries[e]);
    }
  }

  ghost predicate OnceRunning(s: State, c: nat, e: nat) {
    e < |s.shared.entries| && s.shared.entries[e].once == Running(c)
  }

  lemma NextKeepsCall(s: State, ev: Event, c: nat)
    requires Inv(s) && Enabled(s, ev) && c < |s.calls|
    ensures CallOk(Next(s, ev).shared, c, Next(s, ev).calls[c])
  {
    assert CallOk(s.shared, ev.c, s.calls[ev.c]) && CallOk(s.shared, c, s.calls[c]);
    assert CacheOk(s.shared);
    hide Inv, OnceOk;
  }

  lemma NextKeepsOnce(s: State, ev: Event, e: nat)
    requires Inv(s) && Enabled(s, ev) && e < |Next(s, ev).shared.entries|
    ensures OnceOk(Next(s, ev), e)
  {
    assert CallOk(s.shared, ev.c, s.calls[ev.c]);
    if e < |s.shared.entries| { assert OnceOk(s, e); }
    hide Inv, CacheOk;
  }

  lemma NextKeepsInv(s: State, ev: Event)
    requires Inv(s) && Enabled(s, ev)
    ensures Inv(Next(s, ev))
  {
    var t := Next(s, ev);
    NextKeepsCache(s, ev);
    forall c: nat | c < |t.calls| ensures CallOk(t.shared, c, t.calls[c]) { NextKeepsCall(s, ev, c); }
    forall e: nat | e < |t.shared.entries| ensures OnceOk(t, e) { NextKeepsOnce(s, ev, e); }
    hide CacheOk, CallOk, OnceOk;
  }

  lemma {:induction false} LeadsKeepsInv(s: State, evs: seq<Event>, t: State)
    requires Inv(s) && Leads(s, evs, t)
    ensures Inv(t)
    decreases |evs|
  {
    hide Inv, Enabled, Next;
    if evs != [] {
      NextKeepsInv(s, evs[0]);
      LeadsKeepsInv(Next(s, evs[0]), evs[1..], t);
    }
  }

  // ---------- What that means for callers ----------

  predicate Live(s: State, e: nat) {
    e < |s.shared.entries| && !Failed(s.shared.entries[e])
  }

  predicate GotItem(s: State, c: nat) {
    c < |s.calls| && s.calls[c].pc.Returned? && s.calls[c].pc.result.Ok?
  }

  /** In every reachable state: no entry is fetched twice, of the entries of a key at most one has
      not failed, and calls that got an item for the same key got the same one. */
  lemma OneFetchOneSuccess(keys: seq<string>, evs: seq<Event>, s: State)
    requires Leads(Initial(keys), evs, s)
    ensures forall en :: en in s.shared.entries ==> en.fetches <= 1
    ensures forall e: nat, f: nat :: Live(s, e) && Live(s, f) && s.shared.entries[e].key == s.shared.entries[f].key ==> e == f
    ensures forall c: nat, d: nat :: GotItem(s, c) && GotItem(s, d) && s.calls[c].key == s.calls[d].key ==>
              s.calls[c].pc == s.calls[d].pc
  {
    assert Inv(Initial(keys));
    LeadsKeepsInv(Initial(keys), evs, s);
    forall en | en in s.shared.entries ensures en.fetches <= 1 {
      var e: nat :| e < |s.shared.entries| && s.shared.entries[e] == en;
      assert OnceOk(s, e);
    }
    forall c: nat, d: nat | GotItem(s, c) && GotItem(s, d) && s.calls[c].key == s.calls[d].key
      ensures s.calls[c].pc == s.calls[d].pc
    {
      assert CallOk(s.shared, c, s.calls[c]) && CallOk(s.shared, d, s.calls[d]);
    }
  }

  /** No step takes an entry out of the cache, or replaces it, unless that very entry has failed:
      a late failing caller cannot evict a newer entry. */
  lemma OnlyFailedEntriesLeave(s: State, ev: Event, k: string)
    requires Inv(s) && Enabled(s, ev) && k in s.shared.cache
    ensures (k in Next(s, ev).shared.cache && Next(s, ev).shared.cache[k] == s.shared.cache[k])
            || Failed(s.shared.entries[s.shared.cache[k]])
  {
    assert CallOk(s.shared, ev.c, s.calls[ev.c]);
    hide OnceOk, CacheOk;
  }

  /** What a call that has not begun in `s` can still hold in `t`. */
  ghost predicate Avoids(s: State, d: nat, e: nat) {
    d < |s.calls| && (s.calls[d].pc.NotStarted? || s.calls[d].pc.e != e)
  }

  ghost predicate Gone(sh: Shared, e: nat) {
    e < |sh.entries| && forall k :: k in sh.cache ==> sh.cache[k] != e
  }

  lemma NextKeepsGone(s: State, ev: Event, d: nat, e: nat)
    requires Inv(s) && Enabled(s, ev) && Gone(s.shared, e) && Avoids(s, d, e)
    ensures Gone(Next(s, ev).shared, e) && Avoids(Next(s, ev), d, e)
  {
    hide Inv;
  }

  lemma {:induction false} LeadsKeepsGone(s: State, evs: seq<Event>, t: State, d: nat, e: nat)
    requires Inv(s) && Leads(s, evs, t) && Gone(s.shared, e) && Avoids(s, d, e)
    ensures Avoids(t, d, e)
    decreases |evs|
  {
    hide Inv, Enabled, Next, Gone, Avoids;
    if evs != [] {
      NextKeepsInv(s, evs[0]);
      NextKeepsGone(s, evs[0], d, e);
      LeadsKeepsGone(Next(s, evs[0]), evs[1..], t, d, e);
    }
  }

  /** A call that begins after some call has returned an entry's error never gets that entry. */
  lemma NoStaleError(keys: seq<string>, before: seq<Event>, s: State, after: seq<Event>, t: State, c: nat, d: nat)
    requires Leads(Initial(keys), before, s) && Leads(s, after, t)
    requires c < |s.calls| && s.calls[c].pc.Returned? && s.calls[c].pc.result.Err?
    requires d < |s.calls| && s.calls[d].pc.NotStarted?
    ensures Avoids(t, d, s.calls[c].pc.e)
  {
    assert Inv(Initial(keys));
    LeadsKeepsInv(Initial(keys), before, s);
    assert CallOk(s.shared, c, s.calls[c]);
    assert CacheOk(s.shared);
    hide Leads, OnceOk;
    LeadsKeepsGone(s, after, t, d, s.calls[c].pc.e);
  }

  /** Entry `e` holds `item` for good. */
  ghost predicate Settled(sh: Shared, e: nat, item: Item) {
    e < |sh.entries| && sh.entries[e].once == Ran(Ok(item))
  }

  lemma NextKeepsSettled(s: State, ev: Event, e: nat, item: Item)
    requires Inv(s) && Enabled(s, ev) && Settled(s.shared, e, item)
    ensures Settled(Next(s, ev).shared, e, item) && Next(s, ev).shared.entries[e].key == s.shared.entries[e].key
  {
    assert CallOk(s.shared, ev.c, s.calls[ev.c]);
    hide OnceOk, CacheOk;
  }

  lemma {:induction false} LeadsKeepsSettled(s: State, evs: seq<Event>, t: State, e: nat, item: Item)
    requires Inv(s) && Leads(s, evs, t) && Settled(s.shared, e, item)
    ensures Settled(t.shared, e, item) && t.shared.entries[e].key == s.shared.entries[e].key
    decreases |evs|
  {
    hide Inv, Enabled, Next;
    if evs != [] {
      NextKeepsInv(s, evs[0]);
      NextKeepsSettled(s, evs[0], e, item);
      LeadsKeepsSettled(Next(s, evs[0]), evs[1..], t, e, item);
    }
  }

  /** Once a fetch has succeeded, every call for the key that returns an item later returns that one. */
  lemma SuccessIsMemoized(keys: seq<string>, before: seq<Event>, s: State, after: seq<Event>, t: State, e: nat, item: Item, d: nat)
    requires Leads(Initial(keys), before, s) && Leads(s, after, t) && Settled(s.shared, e, item)
    requires GotItem(t, d) && t.calls[d].key == s.shared.entries[e].key
    ensures t.calls[d].pc == Returned(e, Ok(item))
  {
    assert Inv(Initial(keys));
    LeadsKeepsInv(Initial(keys), before, s);
    LeadsKeepsInv(s, after, t);
    LeadsKeepsSettled(s, after, t, e, item);
    SettledForCall(t, e, item, d);
    hide *;
  }

  lemma SettledForCall(t: State, e: nat, item: Item, d: nat)
    requires Inv(t) && Settled(t.shared, e, item) && GotItem(t, d) && t.calls[d].key == t.shared.entries[e].key
    ensures t.calls[d].pc == Returned(e, Ok(item))
  {
    assert CallOk(t.shared, d, t.calls[d]);
    assert CacheOk(t.shared);
    hide Inv, OnceOk;
  }

  // ---------- The client object ----------

  function AfterFetch(sh: Shared, e: nat, fetch: Fetched): Shared
    requires e < |sh.entries|
  {
    if sh.entries[e].once.NotRun? then SetOnce(sh, e, Ran(fetch), sh.entries[e].fetches + 1) else sh
  }

  datatype ClientError = InvalidIdentifier(name: string) | FetchFailed(failure: Failure)

  class Client {
    var entries: seq<Entry>
    var itemCache: map<string, nat>

    constructor ()
      ensures Now() == Shared([], map[])
    {
      entries, itemCache := [], map[];
    }

    function Now(): Shared
      reads this
    {
      Shared(entries, itemCache)
    }

    /** Under the lock: look the key up, adding a fresh entry when it is missing. From then on the key
        leads to the returned entry; an entry the cache had for it is kept, and so is everything else. */
    method LockedLookUp(key: string) returns (e: nat)
      modifies this
      ensures key in itemCache && itemCache[key] == e
      ensures key in old(itemCache) ==> Now() == old(Now())
      ensures key !in old(itemCache) ==> e == |old(entries)| && entries == old(entries) + [Entry(key, NotRun, 0)]
      ensures itemCache.Keys == old(itemCache.Keys) + {key}
      ensures forall k :: k in old(itemCache) ==> itemCache[k] == old(itemCache[k])
      ensures old(CacheOk(Now())) ==> CacheOk(Now()) && e < |entries| && entries[e].key == key
      ensures (Now(), e) == LookUp(old(Now()), key)
    {
      if key in itemCache {
        e := itemCache[key];
      } else {
        e := |entries|;
        entries := entries + [Entry(key, NotRun, 0)];
        itemCache := itemCache[key := e];
      }
    }

    /** Under the lock: afterwards the key does not lead to the entry; an entry another call has put
        in its place stays, and so do all other keys. */
    method LockedEvict(key: string, e: nat)
      modifies this`itemCache
      ensures key in itemCache ==> itemCache[key] != e
      ensures itemCache.Keys <= old(itemCache.Keys)
      ensures forall k :: k in old(itemCache) && (k != key || old(itemCache[k]) != e) ==> k in itemCache && itemCache[k] == old(itemCache[k])
      ensures old(CacheOk(Now())) && e < |entries| && Failed(entries[e]) ==> CacheOk(Now())
      ensures Now() == Evict(old(Now()), key, e)
    {
      if key in itemCache && itemCache[key] == e {
        itemCache := itemCache - {key};
      }
    }

    /** The entry's fetch, unless it has been made already. */
    method FetchOnce(e: nat, fetch: Fetched) returns (result: Fetched)
      requires e < |entries| && !entries[e].once.Running?
      modifies this`entries
      ensures Now() == AfterFetch(old(Now()), e, fetch) && e < |entries| && entries[e].once == Ran(result)
    {
      if entries[e].once.NotRun? {
        entries := entries[e := entries[e].(once := Ran(fetch), fetches := entries[e].fetches + 1)];
      }
      result := entries[e].once.result;
    }

    /** One call with nobody else around; `fetch` is what the op command would answer for a vault and
        an item. A remembered item is returned without a fetch; a fetched one is remembered; an error
        is not. Names are rejected for being empty or for a character that is no letter, number,
        underscore, dot, dash or space. */
    method GetVaultItem(vaultName: string, itemName: string, letterOrNumber: char -> bool, fetch: (string, string) -> Fetched)
        returns (r: Result<Item, ClientError>)
      requires Quiet(Now())
      modifies this
      ensures Quiet(Now())
      ensures !ValidIdentifier(vaultName, letterOrNumber) ==> r == Err(InvalidIdentifier(vaultName))
      ensures ValidIdentifier(vaultName, letterOrNumber) && !ValidIdentifier(itemName, letterOrNumber) ==> r == Err(InvalidIdentifier(itemName))
      ensures r.Err? && r.error.InvalidIdentifier? ==> Now() == old(Now())
      ensures ValidIdentifier(vaultName, letterOrNumber) && ValidIdentifier(itemName, letterOrNumber) ==>
                Answers(old(Now()), Now(), KeyOf(vaultName, itemName), fetch(vaultName, itemName), r)
      ensures r.Err? && r.error.InvalidIdentifier? <==>
                || vaultName == "" || itemName == ""
                || exists c :: c in vaultName + itemName && !letterOrNumber(c) && c != '_' && c != '.' && c != '-' && c != ' '
    {
      assert forall c :: c in vaultName + itemName <==> c in vaultName || c in itemName;
      if !ValidIdentifier(vaultName, letterOrNumber) {
        return Err(InvalidIdentifier(vaultName));
      }
      if !ValidIdentifier(itemName, letterOrNumber) {
        return Err(InvalidIdentifier(itemName));
      }
      var key := KeyOf(vaultName, itemName);
      ghost var before := Now();
      QuietCall(before, key, fetch(vaultName, itemName));
      hide KeyOf, ValidIdentifier, Quiet, Answers, LookUp, Evict, CacheOk;
      var e := LockedLookUp(key);
      var result := FetchOnce(e, fetch(vaultName, itemName));
      if result.Err? {
        LockedEvict(key, e);
        return Err(FetchFailed(result.error));
      }
      return Ok(result.value);
    }
  }

  /** Nobody is in the middle of a call: every cached entry holds an item. */
  ghost predicate Quiet(sh: Shared) {
    CacheOk(sh) && forall k :: k in sh.cache ==> Remembers(sh, k)
  }

  /** What looking up, fetching and evicting come to when nobody comes in between. */
  lemma QuietCall(sh: Shared, key: string, fetch: Fetched)
    requires Quiet(sh)
    ensures var (a, e) := LookUp(sh, key);
            && e < |a.entries| && !a.entries[e].once.Running?
            && var b := AfterFetch(a, e, fetch);
               && b.entries[e].once.Ran?
               && match b.entries[e].once.result
                  case Ok(item) => Quiet(b) && Answers(sh, b, key, fetch, Ok(item))
                  case Err(failure) => Quiet(Evict(b, key, e)) && Answers(sh, Evict(b, key, e), key, fetch, Err(FetchFailed(failure)))
  {
    if key in sh.cache {
      assert Remembers(sh, key);
      hide Quiet;
    } else {
      NewEntry(sh, key, fetch);
      hide Quiet, SetOnce;
    }
  }

  lemma NewEntry(sh: Shared, key: string, fetch: Fetched)
    requires Quiet(sh) && key !in sh.cache
    ensures var (a, e) := LookUp(sh, key); var b := AfterFetch(a, e, fetch);
            && e == |sh.entries| && b.entries == sh.entries + [Entry(key, Ran(fetch), 1)]
            && b.cache == sh.cache[key := e]
            && (fetch.Ok? ==> Quiet(b)) && (fetch.Err? ==> Evict(b, key, e).cache == sh.cache && Quiet(Evict(b, key, e)))
  {
    assert forall k :: k in sh.cache ==> Remembers(sh, k);
  }

  predicate Remembers(sh: Shared, key: string) {
    key in sh.cache && sh.cache[key] < |sh.entries|
    && sh.entries[sh.cache[key]].once.Ran? && sh.entries[sh.cache[key]].once.result.Ok?
  }

  ghost predicate Answers(before: Shared, after: Shared, key: string, fetch: Fetched, r: Result<Item, ClientError>) {
    if Remembers(before, key) then
      after == before && r == Ok(before.entries[before.cache[key]].once.result.value)
    else
      && after.entries == before.entries + [Entry(key, Ran(fetch), 1)]
      && match fetch
         case Ok(item) => r == Ok(item) && after.cache == before.cache[key := |before.entries|]
         case Err(failure) => r == Err(FetchFailed(failure)) && after.cache == before.cache
  }
}
