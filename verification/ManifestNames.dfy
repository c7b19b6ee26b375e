// Naming manifests: what a valid set of names is, and the fixer that fills in missing ones.
module ManifestNames {
  import opened Common
  import opened Manifests

  const MAX_NAME_LENGTH := 240
  const RESERVED_NAME := "_metadata"

  // ---------- Valid names ----------

  datatype NameError = Required | Reserved | TooLong | InvalidCharacters

  predicate Alnum(c: char) {
    'a' <= c <= 'z' || '0' <= c <= '9'
  }

  /** Lower-case letters, digits and dashes, with a letter or digit at either end. */
  predicate DnsName(n: string) {
    n != "" && Alnum(n[0]) && Alnum(n[|n| - 1]) && forall c :: c in n ==> Alnum(c) || c == '-'
  }

  function CheckName(n: string): Option<NameError> {
    if n == "" then Some(Required)
    else if n == RESERVED_NAME then Some(Reserved)
    else if |n| > MAX_NAME_LENGTH then Some(TooLong)
    else if !DnsName(n) then Some(InvalidCharacters)
    else None
  }

  predicate NameOk(n: string) {
    DnsName(n) && |n| <= MAX_NAME_LENGTH
  }

  /** The reserved name is no DNS name anyway. */
  lemma CheckAcceptsDnsNames(n: string)
    ensures CheckName(n) == None <==> NameOk(n)
  {
    assert RESERVED_NAME[0] == '_';
  }

  predicate DistinctNames(ms: seq<Manifest>) {
    forall i, j :: 0 <= i < j < |ms| ==> ms[i].name != ms[j].name
  }

  predicate Accepted(ms: seq<Manifest>) {
    (forall i :: 0 <= i < |ms| ==> NameOk(ms[i].name)) && DistinctNames(ms)
  }

  /** How many of the manifests have this name and pass the single check. */
  function Uses(ms: seq<Manifest>, n: string): nat {
    if ms == [] then 0
    else Uses(ms[..|ms| - 1], n) + if ms[|ms| - 1].name == n && CheckName(n) == None then 1 else 0
  }

  lemma {:induction false} UsesCountsPositions(ms: seq<Manifest>, n: string)
    requires CheckName(n) == None
    ensures Uses(ms, n) >= 1 <==> exists i :: 0 <= i < |ms| && ms[i].name == n
    ensures Uses(ms, n) > 1 <==> exists i, j :: 0 <= i < j < |ms| && ms[i].name == n == ms[j].name
  {
    if ms != [] {
      var front := ms[..|ms| - 1];
      UsesCountsPositions(front, n);
      assert forall i :: 0 <= i < |front| ==> front[i] == ms[i];
      if ms[|ms| - 1].name == n {
        if Uses(front, n) >= 1 {
          var i :| 0 <= i < |front| && front[i].name == n;
          assert ms[i].name == n == ms[|ms| - 1].name;
        }
      } else {
        hide CheckName;
      }
    }
  }

  /** What is wrong with a name, if anything; the first of these that applies is reported. */
  predicate Complaint(n: string, e: NameError) {
    match e
    case Required => n == ""
    case Reserved => n == "_metadata"
    case TooLong => n != "_metadata" && |n| > 240
    case InvalidCharacters =>
      && n != "" && n != "_metadata" && |n| <= 240
      && (!LetterOrDigit(n[0]) || !LetterOrDigit(n[|n| - 1]) || exists p :: 0 <= p < |n| && !LetterOrDigit(n[p]) && n[p] != '-')
  }

  predicate LetterOrDigit(c: char) {
    'a' <= c <= 'z' || '0' <= c <= '9'
  }

  lemma ComplaintIs(n: string, e: NameError)
    ensures CheckName(n) == Some(e) <==> Complaint(n, e)
  {
    assert forall c :: c in n <==> exists p :: 0 <= p < |n| && n[p] == c;
    if n != "" && forall p :: 0 <= p < |n| ==> LetterOrDigit(n[p]) || n[p] == '-' {
      assert forall c :: c in n ==> Alnum(c) || c == '-';
    }
    if p :| 0 <= p < |n| && !LetterOrDigit(n[p]) && n[p] != '-' {
      assert n[p] in n;
    }
  }

  ghost function PositionsOf(ms: seq<Manifest>, n: string): set<nat> {
    set i: nat | i < |ms| && ms[i].name == n
  }

  lemma {:induction false} UsesIsCount(ms: seq<Manifest>, n: string)
    requires CheckName(n) == None
    ensures Uses(ms, n) == |PositionsOf(ms, n)|
  {
    if ms == [] {
      assert PositionsOf(ms, n) == {};
    } else {
      var front, last := ms[..|ms| - 1], ms[|ms| - 1];
      UsesIsCount(front, n);
      assert Uses(ms, n) == Uses(front, n) + if last.name == n then 1 else 0;
      hide *;
      assert ms == front + [last];
      OnePositionMore(front, last, n);
    }
  }

  lemma OnePositionMore(front: seq<Manifest>, last: Manifest, n: string)
    ensures |PositionsOf(front + [last], n)| == |PositionsOf(front, n)| + if last.name == n then 1 else 0
  {
    assert PositionsOf(front + [last], n) == PositionsOf(front, n) + if last.name == n then {|front|} else {};
    assert |front| !in PositionsOf(front, n);
  }

  /** A repeated name is a valid one at more than one position. */
  lemma UsesIs(ms: seq<Manifest>, n: string)
    ensures Uses(ms, n) > 1 <==> (forall e :: !Complaint(n, e)) && |PositionsOf(ms, n)| > 1
    ensures Uses(ms, n) > 1 ==> Uses(ms, n) == |PositionsOf(ms, n)|
  {
    forall e ensures CheckName(n) == Some(e) <==> Complaint(n, e) {
      ComplaintIs(n, e);
    }
    hide CheckName, Complaint;
    if CheckName(n) == None {
      UsesIsCount(ms, n);
    } else {
      NoUses(ms, n);
      assert Complaint(n, CheckName(n).value);
    }
  }

  /** The invalid names by position, and how often each valid name that is not unique occurs. */
  method ValidateManifestNames(ms: seq<Manifest>) returns (errs: seq<(nat, NameError)>, duplicated: map<string, nat>)
    ensures forall i: nat, e :: (i, e) in errs <==> i < |ms| && Complaint(ms[i].name, e)
    ensures forall n :: n in duplicated <==> (forall e :: !Complaint(n, e)) && |PositionsOf(ms, n)| > 1
    ensures forall n :: n in duplicated ==> duplicated[n] == |PositionsOf(ms, n)|
    ensures forall i: nat, e :: (i, e) in errs <==> i < |ms| && CheckName(ms[i].name) == Some(e)
    ensures forall n :: n in duplicated <==> Uses(ms, n) > 1
    ensures forall n :: n in duplicated ==> duplicated[n] == Uses(ms, n)
    ensures errs == [] && duplicated == map[] <==> Accepted(ms)
  {
    var names: map<string, nat> := map[];
    errs := [];
    for i := 0 to |ms|
      invariant forall k: nat, e :: (k, e) in errs <==> k < i && CheckName(ms[k].name) == Some(e)
      invariant forall n :: if n in names then names[n] == Uses(ms[..i], n) > 0 else Uses(ms[..i], n) == 0
    {
      assert ms[..i + 1][..i] == ms[..i];
      var name := ms[i].name;
      var failure := CheckName(name);
      hide CheckName;
      if failure.Some? {
        errs := errs + [(i, failure.value)];
        continue;
      }
      names := names[name := 1 + if name in names then names[name] else 0];
    }
    assert ms[..|ms|] == ms;
    duplicated := map n | n in names && names[n] > 1 :: names[n];
    AcceptedIff(ms, errs, duplicated);
    forall i: nat, e ensures (i, e) in errs <==> i < |ms| && Complaint(ms[i].name, e) {
      if i < |ms| { ComplaintIs(ms[i].name, e); }
    }
    hide CheckName, Complaint, PositionsOf, Uses;
    forall n {
      UsesIs(ms, n);
    }
  }

  lemma AcceptedIff(ms: seq<Manifest>, errs: seq<(nat, NameError)>, duplicated: map<string, nat>)
    requires forall i: nat, e :: (i, e) in errs <==> i < |ms| && CheckName(ms[i].name) == Some(e)
    requires forall n :: n in duplicated <==> Uses(ms, n) > 1
    ensures errs == [] && duplicated == map[] <==> Accepted(ms)
  {
    hide *;
    if errs == [] && duplicated == map[] {
      NothingFound(ms, errs, duplicated);
    }
    if Accepted(ms) {
      NothingToFind(ms, errs, duplicated);
    }
  }

  lemma ErrorsMeanInvalid(ms: seq<Manifest>, errs: seq<(nat, NameError)>)
    requires forall i: nat, e :: (i, e) in errs <==> i < |ms| && CheckName(ms[i].name) == Some(e)
    ensures errs != [] <==> exists i :: 0 <= i < |ms| && CheckName(ms[i].name).Some?
  {
    hide CheckName;
    if errs != [] {
      var first := errs[0];
      assert (first.0, first.1) in errs;
    }
    if exists i :: 0 <= i < |ms| && CheckName(ms[i].name).Some? {
      var i: nat :| i < |ms| && CheckName(ms[i].name).Some?;
      assert (i, CheckName(ms[i].name).value) in errs;
    }
  }

  lemma NothingFound(ms: seq<Manifest>, errs: seq<(nat, NameError)>, duplicated: map<string, nat>)
    requires forall i: nat, e :: (i, e) in errs <==> i < |ms| && CheckName(ms[i].name) == Some(e)
    requires forall n :: n in duplicated <==> Uses(ms, n) > 1
    requires errs == [] && duplicated == map[]
    ensures Accepted(ms)
  {
    hide CheckName, DnsName;
    ErrorsMeanInvalid(ms, errs);
    forall i: nat | i < |ms| ensures CheckName(ms[i].name) == None && NameOk(ms[i].name) {
      CheckAcceptsDnsNames(ms[i].name);
    }
    forall i, j | 0 <= i < j < |ms| ensures ms[i].name != ms[j].name {
      UsesCountsPositions(ms, ms[i].name);
      assert Uses(ms, ms[i].name) <= 1;
    }
  }

  lemma NothingToFind(ms: seq<Manifest>, errs: seq<(nat, NameError)>, duplicated: map<string, nat>)
    requires forall i: nat, e :: (i, e) in errs <==> i < |ms| && CheckName(ms[i].name) == Some(e)
    requires forall n :: n in duplicated <==> Uses(ms, n) > 1
    requires Accepted(ms)
    ensures errs == [] && duplicated == map[]
  {
    forall i | 0 <= i < |ms| ensures CheckName(ms[i].name) == None { CheckAcceptsDnsNames(ms[i].name); }
    hide CheckName, DnsName;
    ErrorsMeanInvalid(ms, errs);
    forall n ensures n !in duplicated {
      if n in duplicated {
        UsesNeedsCheck(ms, n);
        UsesCountsPositions(ms, n);
      }
    }
  }

  lemma UsesNeedsCheck(ms: seq<Manifest>, n: string)
    requires Uses(ms, n) > 0
    ensures CheckName(n) == None
  {
    if CheckName(n) != None { NoUses(ms, n); }
  }

  lemma {:induction false} NoUses(ms: seq<Manifest>, n: string)
    requires CheckName(n) != None
    ensures Uses(ms, n) == 0
  {
    if ms != [] { NoUses(ms[..|ms| - 1], n); }
  }

  // ---------- Generated names ----------

  function SplitPath(s: string): (parts: seq<string>)
    ensures |parts| >= 1
  {
    if s == "" then [""]
    else
      var rest := SplitPath(s[1..]);
      if s[0] == '/' then [""] + rest else [[s[0]] + rest[0]] + rest[1..]
  }

  function TakePart(part: string, rooted: bool, kept: seq<string>): seq<string> {
    if part == "" || part == "." then kept
    else if part != ".." then kept + [part]
    else if kept != [] && kept[|kept| - 1] != ".." then kept[..|kept| - 1]
    else if rooted then kept
    else kept + [".."]
  }

  /** Lexical cleaning: empty and dot elements go, dot-dot takes back the element before it. */
  function CleanParts(parts: seq<string>, rooted: bool, kept: seq<string>): seq<string>
    decreases |parts|
  {
    if parts == [] then kept else CleanParts(parts[1..], rooted, TakePart(parts[0], rooted, kept))
  }

  function BaseOfClean(path: string): string
    requires path != ""
  {
    var rooted := path[0] == '/';
    var parts := CleanParts(SplitPath(path), rooted, []);
    if parts != [] then parts[|parts| - 1] else if rooted then "/" else "."
  }

  function MapChar(c: char): (r: char)
    ensures Alnum(r) || r == '-'
  {
    if Alnum(c) || c == '-' then c
    else if 'A' <= c <= 'Z' then 'a' + (c - 'A')
    else '-'
  }

  function MapName(s: string): (r: string)
    ensures forall c :: c in r ==> Alnum(c) || c == '-'
    ensures |r| == |s|
    ensures forall p :: 0 <= p < |s| ==>
              r[p] == if 'a' <= s[p] <= 'z' || '0' <= s[p] <= '9' || s[p] == '-' then s[p]
                      else if 'A' <= s[p] <= 'Z' then 'a' + (s[p] - 'A')
                      else '-'
  {
    if s == "" then "" else [MapChar(s[0])] + MapName(s[1..])
  }

  function TrimLeft(s: string): (r: string)
    ensures r != "" ==> r[0] != '-'
    ensures forall c :: c in r ==> c in s
  {
    if s != "" && s[0] == '-' then TrimLeft(s[1..]) else s
  }

  function TrimRight(s: string): (r: string)
    ensures r != "" ==> r[|r| - 1] != '-' && s != "" && r[0] == s[0]
    ensures forall c :: c in r ==> c in s
  {
    if s != "" && s[|s| - 1] == '-' then TrimRight(s[..|s| - 1]) else s
  }

  /** The last element of the path as a name: empty, or a DNS name. */
  function ExtractDirName(path: string): (r: string)
    ensures r == "" || DnsName(r)
  {
    if path == "" || path == "." then ""
    else
      var base := BaseOfClean(path);
      if base == "." || base == "/" then "" else TrimRight(TrimLeft(MapName(base)))
  }

  function GenerateName(m: Manifest): string {
    var typeName := if m.mtype == "" then "manifest" else m.mtype;
    var dirName := ExtractDirName(m.path);
    if dirName == "" then typeName else typeName + "-" + dirName
  }

  predicate SupportedType(t: string) {
    t == "" || t == "kustomize" || t == "genesissecret" || t == "helmfile" || t == "oras"
  }

  lemma DashJoinsNames(a: string, b: string)
    requires DnsName(a) && DnsName(b)
    ensures DnsName(a + "-" + b)
  {
    var n := a + "-" + b;
    assert n[0] == a[0] && n[|n| - 1] == b[|b| - 1];
  }

  lemma TypesAreNames()
    ensures DnsName("manifest") && DnsName("kustomize") && DnsName("genesissecret") && DnsName("helmfile") && DnsName("oras")
  {
  }

  lemma GeneratedIsDnsName(m: Manifest)
    requires SupportedType(m.mtype)
    ensures DnsName(GenerateName(m))
  {
    TypesAreNames();
    hide DnsName, ExtractDirName;
    var typeName := if m.mtype == "" then "manifest" else m.mtype;
    if ExtractDirName(m.path) != "" {
      DashJoinsNames(typeName, ExtractDirName(m.path));
    }
  }

  // ---------- The generated name read off the path ----------

  lemma {:induction false} SplitElement(e: string)
    requires '/' !in e
    ensures SplitPath(e) == [e]
  {
    if e != "" {
      assert e[0] in e && forall c :: c in e[1..] ==> c in e;
      SplitElement(e[1..]);
      assert [e[0]] + e[1..] == e;
    }
  }

  lemma {:induction false} SplitLast(p: string, e: string)
    requires '/' !in e
    ensures SplitPath(p + "/" + e) == SplitPath(p) + [e]
  {
    var path := p + "/" + e;
    SplitElement(e);
    SplitStep(path);
    if p == "" {
      assert path[1..] == e && SplitPath(p) == [""];
    } else {
      SplitStep(p);
      hide *;
      assert path[1..] == p[1..] + "/" + e && path[0] == p[0];
      SplitLast(p[1..], e);
      var rest := SplitPath(p[1..]);
      assert (rest + [e])[0] == rest[0] && (rest + [e])[1..] == rest[1..] + [e];
    }
  }

  lemma SplitStep(path: string)
    requires path != ""
    ensures var rest := SplitPath(path[1..]);
            SplitPath(path) == if path[0] == '/' then [""] + rest else [[path[0]] + rest[0]] + rest[1..]
  {
  }

  lemma {:induction false} CleanOneMore(a: seq<string>, e: string, rooted: bool, kept: seq<string>)
    ensures CleanParts(a + [e], rooted, kept) == TakePart(e, rooted, CleanParts(a, rooted, kept))
    decreases |a|
  {
    if a == [] {
      assert a + [e] == [e] && [e][1..] == [];
    } else {
      assert (a + [e])[1..] == a[1..] + [e];
      hide TakePart;
      CleanOneMore(a[1..], e, rooted, TakePart(a[0], rooted, kept));
    }
  }

  predicate Ordinary(e: string) {
    '/' !in e && e != "" && e != "." && e != ".."
  }

  ghost function Cleaned(path: string): seq<string>
    requires path != ""
  {
    CleanParts(SplitPath(path), path[0] == '/', [])
  }

  lemma CleanedLast(p: string, e: string)
    requires p != "" && '/' !in e
    ensures Cleaned(p + "/" + e) == TakePart(e, p[0] == '/', Cleaned(p))
  {
    SplitLast(p, e);
    CleanOneMore(SplitPath(p), e, p[0] == '/', []);
    hide CleanParts, SplitPath, TakePart;
    assert (p + "/" + e)[0] == p[0];
  }

  lemma CleanedFirst(e: string)
    requires Ordinary(e)
    ensures Cleaned(e) == [e] && Cleaned("/" + e) == [e]
  {
    assert e[0] in e;
    SplitElement(e);
    SplitLast("", e);
    assert "" + "/" + e == "/" + e;
    CleanOneMore([], e, false, []);
    CleanOneMore([""], e, true, []);
    CleanOneMore([], "", true, []);
    hide SplitPath;
    assert [] + [e] == [e] && [""] + [e] == ["", e] && [] + [""] == [""];
  }

  /** The path ends in the element `dir`. */
  predicate EndsIn(path: string, dir: string) {
    path == dir || (|path| > |dir| && path[|path| - |dir|..] == dir && path[|path| - |dir| - 1] == '/')
  }

  /** An ordinary last element is the base of a path; slashes and dots after it do not matter, and a
      dot-dot takes it back. */
  lemma BaseOfPath(path: string, dir: string)
    requires Ordinary(dir) && EndsIn(path, dir)
    ensures BaseOfClean(path) == dir && BaseOfClean(path + "/") == dir && BaseOfClean(path + "/.") == dir
    ensures path != dir && path != "/" + dir ==> BaseOfClean(path + "/..") == BaseOfClean(path[..|path| - |dir| - 1])
  {
    hide SplitPath, CleanParts;
    LastIsKept(path, dir);
    assert BaseOfClean(path) == dir;
    hide *;
    assert path + "/" == path + "/" + "" && path + "/." == path + "/" + ".";
    DotKeepsBase(path, "");
    DotKeepsBase(path, ".");
    if path != dir && path != "/" + dir {
      var p := FrontOfPath(path, dir);
      assert path + "/.." == path + "/" + "..";
      DotDotTakesBack(p, dir);
    }
  }

  lemma FrontOfPath(path: string, dir: string) returns (p: string)
    requires EndsIn(path, dir) && path != dir && path != "/" + dir
    ensures |path| > |dir| && p == path[..|path| - |dir| - 1] && p != "" && path == p + "/" + dir
  {
    p := path[..|path| - |dir| - 1];
    assert path == p + "/" + dir;
    assert p == "" ==> path == "/" + dir;
  }

  lemma DotKeepsBase(path: string, e: string)
    requires path != "" && (e == "" || e == ".")
    ensures BaseOfClean(path + "/" + e) == BaseOfClean(path)
  {
    hide SplitPath, CleanParts;
    CleanedLast(path, e);
    assert (path + "/" + e)[0] == path[0];
  }

  lemma DotDotTakesBack(p: string, dir: string)
    requires p != "" && Ordinary(dir)
    ensures BaseOfClean(p + "/" + dir + "/" + "..") == BaseOfClean(p)
  {
    hide SplitPath, CleanParts;
    var path := p + "/" + dir;
    CleanedLast(p, dir);
    CleanedLast(path, "..");
    assert (path + "/" + "..")[0] == path[0] == p[0];
  }

  lemma LastIsKept(path: string, dir: string)
    requires Ordinary(dir) && EndsIn(path, dir)
    ensures path != "" && path != "." && Cleaned(path) != [] && Cleaned(path)[|Cleaned(path)| - 1] == dir
  {
    hide SplitPath, CleanParts;
    CleanedFirst(dir);
    if path != dir {
      var p := path[..|path| - |dir| - 1];
      assert path == p + "/" + dir && |dir| > 0;
      if p == "" {
        assert path == "/" + dir;
      } else {
        CleanedLast(p, dir);
      }
    }
  }

  /** `r` is `s` without the dashes at its ends. */
  ghost predicate TrimmedTo(s: string, r: string) {
    exists i, j :: 0 <= i <= j <= |s| && TrimmedAt(s, r, i, j)
  }

  ghost predicate TrimmedAt(s: string, r: string, i: nat, j: nat)
    requires i <= j <= |s|
  {
    && r == s[i..j] && (forall p :: 0 <= p < i || j <= p < |s| ==> s[p] == '-')
    && (r != "" ==> r[0] != '-' && r[|r| - 1] != '-')
  }

  lemma {:induction false} LeftTrimmed(s: string) returns (i: nat)
    ensures i <= |s| && TrimLeft(s) == s[i..] && forall p :: 0 <= p < i ==> s[p] == '-'
  {
    i := 0;
    if s != "" && s[0] == '-' {
      var k := LeftTrimmed(s[1..]);
      i := k + 1;
      assert s[1..][k..] == s[i..];
      assert forall p :: 1 <= p < i ==> s[p] == s[1..][p - 1];
    }
  }

  lemma {:induction false} RightTrimmed(s: string) returns (j: nat)
    ensures j <= |s| && TrimRight(s) == s[..j] && forall p :: j <= p < |s| ==> s[p] == '-'
  {
    j := |s|;
    if s != "" && s[|s| - 1] == '-' {
      var front := s[..|s| - 1];
      j := RightTrimmed(front);
      assert front[..j] == s[..j];
      assert forall p :: j <= p < |front| ==> s[p] == front[p];
    }
  }

  lemma TrimmedIs(s: string)
    ensures TrimmedTo(s, TrimRight(TrimLeft(s)))
  {
    var l := TrimLeft(s);
    var r := TrimRight(l);
    var i := LeftTrimmed(s);
    var k := RightTrimmed(l);
    hide TrimLeft, TrimRight;
    assert r == s[i..][..k] == s[i..i + k];
    assert forall p :: i + k <= p < |s| ==> s[p] == l[p - i];
    assert TrimmedAt(s, r, i, i + k);
  }

  /** The name of a manifest without one: its type, and the last element of its path in lower case with
      dashes for what a name cannot hold, dashes at the ends left out. */
  lemma GeneratedFromPath(m: Manifest, dir: string)
    requires Ordinary(dir) && (EndsIn(m.path, dir) || (m.path != "" && m.path[|m.path| - 1] == '/' && EndsIn(m.path[..|m.path| - 1], dir)))
    ensures var typeName := if m.mtype == "" then "manifest" else m.mtype;
            exists d :: TrimmedTo(MapName(dir), d) && GenerateName(m) == if d == "" then typeName else typeName + "-" + d
    ensures DnsName(dir) ==> GenerateName(m) == (if m.mtype == "" then "manifest" else m.mtype) + "-" + dir
  {
    var d := TrimRight(TrimLeft(MapName(dir)));
    TrimmedIs(MapName(dir));
    PathBase(m.path, dir);
    assert ExtractDirName(m.path) == d by { hide BaseOfClean, MapName, TrimLeft, TrimRight; }
    if DnsName(dir) {
      DnsNameStays(dir);
    }
    hide ExtractDirName, TrimmedTo, MapName, TrimLeft, TrimRight, DnsName;
  }

  lemma PathBase(path: string, dir: string)
    requires Ordinary(dir) && (EndsIn(path, dir) || (path != "" && path[|path| - 1] == '/' && EndsIn(path[..|path| - 1], dir)))
    ensures path != "" && path != "." && BaseOfClean(path) == dir && dir != "/"
  {
    assert dir == "/" ==> '/' in dir;
    hide BaseOfClean;
    if EndsIn(path, dir) {
      LastIsKept(path, dir);
      BaseOfPath(path, dir);
    } else {
      var p := path[..|path| - 1];
      BaseOfPath(p, dir);
      assert path == p + "/";
    }
  }

  lemma DnsNameStays(dir: string)
    requires DnsName(dir)
    ensures TrimRight(TrimLeft(MapName(dir))) == dir
  {
    assert MapName(dir) == dir by {
      assert forall p :: 0 <= p < |dir| ==> dir[p] in dir;
    }
  }

  /** A path without a last element gives the type alone. */
  lemma GeneratedFromNoPath(m: Manifest)
    requires m.path == "" || m.path == "." || m.path == "/"
    ensures GenerateName(m) == if m.mtype == "" then "manifest" else m.mtype
  {
    if m.path == "/" {
      assert m.path[1..] == "";
      assert SplitPath(m.path) == ["", ""];
      assert ["", ""][1..] == [""] && [""][1..] == [];
    }
  }

  // ---------- Numbered names ----------

  function DigitOf(c: char): nat {
    if '0' <= c <= '9' then (c - '0') as nat else 0
  }

  /** The number a text of decimal digits stands for. */
  function NumberOf(s: string): nat {
    if s == "" then 0 else 10 * NumberOf(s[..|s| - 1]) + DigitOf(s[|s| - 1])
  }

  /** Numbers are written in decimal, without leading zeros. */
  lemma {:induction false} ItoaIsDecimal(n: nat)
    ensures NumberOf(Itoa(n)) == n && (n > 0 ==> Itoa(n)[0] != '0')
  {
    var s := Itoa(n);
    if n < 10 {
      assert s[..|s| - 1] == "";
    } else {
      ItoaIsDecimal(n / 10);
      assert s[..|s| - 1] == Itoa(n / 10);
    }
  }

  function Itoa(n: nat): (s: string)
    ensures s != "" && forall c :: c in s ==> '0' <= c <= '9'
  {
    var digit := '0' + (n % 10) as char;
    if n < 10 then [digit] else Itoa(n / 10) + [digit]
  }

  lemma {:induction false} ItoaIsInjective(m: nat, n: nat)
    requires Itoa(m) == Itoa(n)
    ensures m == n
    decreases m
  {
    var s := Itoa(m);
    assert s[|s| - 1] == '0' + (m % 10) as char == '0' + (n % 10) as char;
    assert m % 10 == n % 10;
    assert m >= 10 <==> |Itoa(m)| >= 2;
    assert n >= 10 <==> |Itoa(n)| >= 2;
    if m >= 10 {
      assert Itoa(m / 10) == s[..|s| - 1] == Itoa(n / 10);
      ItoaIsInjective(m / 10, n / 10);
    }
  }

  function Candidate(name: string, i: nat): string {
    name + "-" + Itoa(i)
  }

  lemma CandidatesDiffer(name: string, i: nat, j: nat)
    requires Candidate(name, i) == Candidate(name, j)
    ensures i == j
  {
    assert Candidate(name, i)[|name| + 1..] == Itoa(i);
    assert Candidate(name, j)[|name| + 1..] == Itoa(j);
    hide Itoa;
    ItoaIsInjective(i, j);
  }

  lemma CandidateIsDnsName(name: string, i: nat)
    requires DnsName(name)
    ensures DnsName(Candidate(name, i))
  {
    hide Itoa;
    var d := Itoa(i);
    assert d[0] in d && d[|d| - 1] in d;
    assert DnsName(d);
    DashJoinsNames(name, d);
  }

  /** The name itself if it is free, and otherwise the first free number after it. */
  ghost predicate FirstFree(name: string, used: set<string>, r: string) {
    && r !in used
    && (r == name || (name in used && exists i: nat :: i >= 2 && NumberedFree(name, used, i, r)))
  }

  ghost predicate NumberedFree(name: string, used: set<string>, i: nat, r: string) {
    r == Candidate(name, i) && forall j: nat :: 2 <= j < i ==> Candidate(name, j) in used
  }

  /** `r` is the name, a dash and number `i`, and every smaller number from 2 on gives a used name. */
  ghost predicate TakesNumber(name: string, used: set<string>, i: nat, r: string) {
    i >= 2 && r == name + "-" + Itoa(i) && r !in used && forall j: nat :: 2 <= j < i ==> name + "-" + Itoa(j) in used
  }

  ghost predicate TakesFree(name: string, used: set<string>, r: string) {
    if name !in used then r == name else exists i: nat :: TakesNumber(name, used, i, r)
  }

  /** Free or followed by the first free number, the numbers starting at 2 after a dash. */
  lemma FirstFreeIs(name: string, used: set<string>, r: string)
    ensures FirstFree(name, used, r) <==> TakesFree(name, used, r)
  {
    forall i: nat ensures TakesNumber(name, used, i, r) <==> i >= 2 && r !in used && NumberedFree(name, used, i, r) {
      TakesNumberIs(name, used, i, r);
    }
    hide TakesNumber, NumberedFree;
    if name in used && FirstFree(name, used, r) {
      var i: nat :| i >= 2 && NumberedFree(name, used, i, r);
      assert TakesNumber(name, used, i, r);
    }
  }

  lemma TakesNumberIs(name: string, used: set<string>, i: nat, r: string)
    ensures TakesNumber(name, used, i, r) <==> i >= 2 && r !in used && NumberedFree(name, used, i, r)
  {
    hide Itoa;
    assert forall j: nat :: Candidate(name, j) == name + "-" + Itoa(j);
  }

  /** The search has no bound of its own: it ends because the candidates are all different and only
      finitely many names are used. */
  method EnsureUnique(name: string, usedNames: set<string>) returns (r: string)
    ensures FirstFree(name, usedNames, r)
  {
    if name !in usedNames {
      return name;
    }
    var i := 2;
    ghost var tried: set<string> := {};
    while true
      invariant i >= 2 && |tried| == i - 2 && tried <= usedNames
      invariant forall j: nat :: 2 <= j < i ==> Candidate(name, j) in usedNames
      invariant forall c :: c in tried ==> exists j: nat :: j < i && Candidate(name, j) == c
      decreases |usedNames| - |tried|
    {
      var candidate := Candidate(name, i);
      if candidate !in usedNames {
        assert NumberedFree(name, usedNames, i, candidate);
        return candidate;
      }
      NotTried(name, tried, i);
      tried := tried + {candidate};
      SubsetSize(tried, usedNames);
      i := i + 1;
    }
  }

  lemma NotTried(name: string, tried: set<string>, i: nat)
    requires forall c :: c in tried ==> exists j: nat :: j < i && Candidate(name, j) == c
    ensures Candidate(name, i) !in tried
  {
    if Candidate(name, i) in tried {
      var j: nat :| j < i && Candidate(name, j) == Candidate(name, i);
      CandidatesDiffer(name, i, j);
    }
  }

  // ---------- The fixer ----------

  function ExistingNames(ms: seq<Manifest>): set<string> {
    set i | 0 <= i < |ms| && ms[i].name != "" :: ms[i].name
  }

  predicate Unnamed(m: Manifest) {
    m.name == "" && m.includes == []
  }

  /** The names in use when manifest `i` gets its turn. */
  ghost function UsedAt(before: seq<Manifest>, after: seq<Manifest>, i: nat): set<string>
    requires |after| == |before| && i <= |before|
  {
    ExistingNames(before) + set j | 0 <= j < i && Unnamed(before[j]) :: after[j].name
  }

  /** Only missing names are filled in, each with the first free name its manifest generates. */
  ghost predicate Fixes(before: seq<Manifest>, after: seq<Manifest>, upTo: nat)
    requires |after| == |before| && upTo <= |before|
  {
    forall i :: 0 <= i < |before| ==>
      if i < upTo && Unnamed(before[i]) then
        after[i] == before[i].(name := after[i].name)
        && FirstFree(GenerateName(before[i]), UsedAt(before, after, i), after[i].name)
      else after[i] == before[i]
  }

  /** `used` is every name there was, together with those already given to manifests before `i`. */
  ghost predicate NamesInUse(before: seq<Manifest>, after: seq<Manifest>, i: nat, used: set<string>)
    requires |after| == |before|
  {
    forall n :: n in used <==>
      || (n != "" && exists m :: m in before && m.name == n)
      || exists j :: 0 <= j < i && j < |before| && before[j].name == "" && |before[j].includes| == 0 && after[j].name == n
  }

  /** A manifest with a name, or one that only includes others, is untouched; any other gets the first
      free of its generated name and its numbered forms, and nothing else of it changes. */
  ghost predicate FilledIn(before: seq<Manifest>, after: seq<Manifest>, i: nat)
    requires |after| == |before| && i < |before|
  {
    if before[i].name != "" || |before[i].includes| > 0 then after[i] == before[i]
    else
      && after[i] == before[i].(name := after[i].name)
      && exists used :: NamesInUse(before, after, i, used) && TakesFree(GenerateName(before[i]), used, after[i].name)
  }

  lemma AllFilledIn(before: seq<Manifest>, after: seq<Manifest>)
    requires |after| == |before| && Fixes(before, after, |before|)
    ensures forall i :: 0 <= i < |before| ==> FilledIn(before, after, i)
  {
    forall i | 0 <= i < |before| ensures FilledIn(before, after, i) {
      FixesIs(before, after, i);
    }
  }

  lemma FixesIs(before: seq<Manifest>, after: seq<Manifest>, i: nat)
    requires |after| == |before| && i < |before| && Fixes(before, after, |before|)
    ensures FilledIn(before, after, i)
  {
    hide FirstFree, TakesFree, GenerateName;
    var used := UsedAt(before, after, i);
    FirstFreeIs(GenerateName(before[i]), used, after[i].name);
    UsedAtIs(before, after, i);
    hide UsedAt, NamesInUse;
  }

  lemma UsedAtIs(before: seq<Manifest>, after: seq<Manifest>, i: nat)
    requires |after| == |before| && i <= |before|
    ensures NamesInUse(before, after, i, UsedAt(before, after, i))
  {
    forall n ensures n in ExistingNames(before) <==> n != "" && exists m :: m in before && m.name == n {
      if n != "" && exists m :: m in before && m.name == n {
        var m :| m in before && m.name == n;
        var j :| 0 <= j < |before| && before[j] == m;
        assert before[j].name in ExistingNames(before);
      }
    }
    hide ExistingNames;
  }

  method FixManifestNames(manifests: array<Manifest>)
    modifies manifests
    ensures forall i :: 0 <= i < manifests.Length ==> FilledIn(old(manifests[..]), manifests[..], i)
    ensures Fixes(old(manifests[..]), manifests[..], manifests.Length)
  {
    hide FilledIn, FirstFree, GenerateName;
    ghost var before := manifests[..];
    var usedNames := CollectExistingNames(manifests[..]);
    for i := 0 to manifests.Length
      invariant Fixes(before, manifests[..], i)
      invariant usedNames == UsedAt(before, manifests[..], i)
    {
      ghost var now := manifests[..];
      assert manifests[i] == before[i];
      if |manifests[i].includes| > 0 || manifests[i].name != "" {
        NextTurn(before, now, now, i);
        continue;
      }
      var name := EnsureUnique(GenerateName(manifests[i]), usedNames);
      manifests[i] := manifests[i].(name := name);
      usedNames := usedNames + {name};
      NextTurn(before, now, manifests[..], i);
    }
    AllFilledIn(before, manifests[..]);
  }

  lemma NextTurn(before: seq<Manifest>, now: seq<Manifest>, next: seq<Manifest>, i: nat)
    requires |now| == |before| == |next| && i < |before| && Fixes(before, now, i)
    requires next == now[i := now[i].(name := next[i].name)]
    requires if Unnamed(before[i]) then FirstFree(GenerateName(before[i]), UsedAt(before, now, i), next[i].name) else next == now
    ensures Fixes(before, next, i + 1)
    ensures UsedAt(before, next, i + 1) == UsedAt(before, now, i) + if Unnamed(before[i]) then {next[i].name} else {}
  {
    hide FirstFree, GenerateName;
    forall k: nat | k <= i ensures UsedAt(before, next, k) == UsedAt(before, now, k) {
      assert forall j :: 0 <= j < k ==> next[j] == now[j];
    }
  }

  method CollectExistingNames(ms: seq<Manifest>) returns (names: set<string>)
    ensures names == ExistingNames(ms)
  {
    names := {};
    for i := 0 to |ms|
      invariant names == ExistingNames(ms[..i])
    {
      assert ms[..i + 1] == ms[..i] + [ms[i]];
      ghost var upTo := ms[..i];
      assert ExistingNames(ms[..i + 1]) == ExistingNames(upTo) + (if ms[i].name != "" then {ms[i].name} else {}) by {
        OneMoreName(upTo, ms[i]);
      }
      if ms[i].name != "" {
        names := names + {ms[i].name};
      }
    }
    assert ms[..|ms|] == ms;
  }

  lemma OneMoreName(ms: seq<Manifest>, m: Manifest)
    ensures ExistingNames(ms + [m]) == ExistingNames(ms) + if m.name != "" then {m.name} else {}
  {
    var all := ms + [m];
    forall n | n in ExistingNames(ms) ensures n in ExistingNames(all) {
      var i :| 0 <= i < |ms| && ms[i].name != "" && ms[i].name == n;
      assert all[i].name == n;
    }
    assert m.name != "" ==> all[|ms|].name in ExistingNames(all);
  }

  // ---------- Fixed names are valid ----------

  /** Lists the fixer is run on: nothing left to include, and types the runner knows. */
  predicate Fixable(ms: seq<Manifest>) {
    forall i :: 0 <= i < |ms| ==> ms[i].includes == [] && SupportedType(ms[i].mtype)
  }

  predicate ExistingValid(ms: seq<Manifest>) {
    && (forall i :: 0 <= i < |ms| && ms[i].name != "" ==> NameOk(ms[i].name))
    && forall i, j :: 0 <= i < j < |ms| && ms[i].name != "" ==> ms[i].name != ms[j].name
  }

  lemma FixedNameIsDnsName(before: seq<Manifest>, after: seq<Manifest>, i: nat)
    requires |after| == |before| && i < |before| && Fixes(before, after, |before|) && Fixable(before)
    requires before[i].name == ""
    ensures DnsName(after[i].name)
  {
    var name := GenerateName(before[i]);
    GeneratedIsDnsName(before[i]);
    hide GenerateName, UsedAt, DnsName;
    if after[i].name != name {
      var k: nat :| k >= 2 && NumberedFree(name, UsedAt(before, after, i), k, after[i].name);
      CandidateIsDnsName(name, k);
    }
  }

  /** A generated name differs from every existing name and from every name generated before it. */
  lemma FixedNamesDiffer(before: seq<Manifest>, after: seq<Manifest>, i: nat, j: nat)
    requires |after| == |before| && i < |before| && j < |before| && Fixes(before, after, |before|) && Fixable(before)
    requires before[i].name == "" && (if before[j].name == "" then j < i else true)
    ensures after[i].name != after[j].name
  {
    hide GenerateName;
    assert after[j].name in UsedAt(before, after, i);
  }

  /** The fixer makes the validator accept exactly when the names already there were valid and
      distinct and no generated name came out too long. */
  lemma FixedIsAcceptedIff(before: seq<Manifest>, after: seq<Manifest>)
    requires |after| == |before| && Fixes(before, after, |before|) && Fixable(before)
    ensures Accepted(after) <==>
            ExistingValid(before) && forall i :: 0 <= i < |after| && before[i].name == "" ==> |after[i].name| <= MAX_NAME_LENGTH
  {
    forall i | 0 <= i < |before| && before[i].name == "" ensures DnsName(after[i].name) {
      FixedNameIsDnsName(before, after, i);
    }
    forall i, j | 0 <= i < |before| && 0 <= j < |before| && before[i].name == "" && (before[j].name == "" ==> j < i)
      ensures after[i].name != after[j].name
    {
      FixedNamesDiffer(before, after, i, j);
    }
    hide DnsName, FirstFree;
    assert forall i :: 0 <= i < |before| && before[i].name != "" ==> after[i].name == before[i].name;
    if Accepted(after) {
      assert forall i, j :: 0 <= i < j < |before| && before[i].name != "" ==> after[i].name != after[j].name;
    }
  }
}
