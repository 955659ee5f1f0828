/**
 * The path resolver: a file that already names a path is used as is; a bare
 * application name is looked up in the App Paths registry, the per-user
 * hive before the per-machine hive, first under the name as typed and then
 * with ".exe" appended.
 */
module Resolver {
  import opened Wrappers
  import opened Text

  /** The two registry hives consulted: HKEY_CURRENT_USER, then HKEY_LOCAL_MACHINE. */
  datatype Scope = User | Machine

  /** The App Paths lookup `LookupAppPath(hive, name)`: the key's default
      value, environment variables expanded, or None when the key is missing,
      its value is not a non-empty string, or the registry access fails. */
  type Lookup = (Scope, string) -> Option<string>

  /** One registry query: a candidate name in one hive. */
  datatype Probe = Probe(name: string, scope: Scope)

  const ExeSuffix: string := ".exe"

  /** `Path.DirectorySeparatorChar` and `Path.AltDirectorySeparatorChar` on Windows. */
  predicate IsDirectorySeparator(ch: char) {
    ch == '\\' || ch == '/'
  }

  /** `Path.IsPathRooted` on Windows: a leading separator or a drive letter
      followed by a colon. */
  predicate IsPathRooted(s: string) {
    || (|s| >= 1 && IsDirectorySeparator(s[0]))
    || (|s| >= 2 && (('a' <= s[0] <= 'z') || ('A' <= s[0] <= 'Z')) && s[1] == ':')
  }

  /** A file that is used without registry lookup. */
  predicate IsPathLike(file: string) {
    IsPathRooted(file) || '\\' in file || '/' in file
  }

  /** A name that already carries the executable suffix, in any letter case. */
  predicate EndsWithExe(s: string) {
    EndsWithIgnoreCase(s, ExeSuffix)
  }

  /** The names tried for a bare file: the name as typed, then (unless it
      already ends in ".exe") the name with ".exe" appended. */
  function Candidates(file: string): (cs: seq<string>)
    ensures 1 <= |cs| <= 2 && cs[0] == file
    ensures |cs| == 1 <==> EndsWithExe(file)
    ensures |cs| == 2 ==> cs[1] == file + ExeSuffix
    ensures EndsWithExe(cs[|cs| - 1])
  {
    if EndsWithExe(file) then [file] else [file, file + ExeSuffix]
  }

  /** The registry queries for a list of candidates, candidate-major and
      scope-minor: each candidate in the user hive, then in the machine hive. */
  function Probes(cs: seq<string>): (ps: seq<Probe>)
    ensures |ps| == 2 * |cs|
    ensures forall i :: 0 <= i < |cs| ==>
      ps[2 * i] == Probe(cs[i], User) && ps[2 * i + 1] == Probe(cs[i], Machine)
  {
    if cs == [] then []
    else [Probe(cs[0], User), Probe(cs[0], Machine)] + Probes(cs[1..])
  }

  /** The answer of one query as the resolver sees it: `string.IsNullOrEmpty`
      results count as no answer. */
  function Answer(lookup: Lookup, p: Probe): (r: Option<string>)
    ensures r.Some? ==> r.value != "" && lookup(p.scope, p.name) == r
    ensures lookup(p.scope, p.name).Some? && lookup(p.scope, p.name).value != "" ==> r.Some?
  {
    match lookup(p.scope, p.name)
    case Some(v) => if v == "" then None else Some(v)
    case None => None
  }

  /** The first query in `ps` that gives an answer. */
  function FirstHit(lookup: Lookup, ps: seq<Probe>): (r: Option<string>)
    ensures r.Some? ==> r.value != ""
  {
    if ps == [] then None
    else if Answer(lookup, ps[0]).Some? then Answer(lookup, ps[0])
    else FirstHit(lookup, ps[1..])
  }

  /** `ResolveAppPath` as a specification: None for a blank file, the file
      itself when it names a path, else the first registry answer. */
  function Resolve(lookup: Lookup, file: string): Option<string> {
    if IsNullOrWhiteSpace(file) then None
    else if IsPathLike(file) then Some(file)
    else FirstHit(lookup, Probes(Candidates(file)))
  }

  /** `ResolveAppPath`: the loop over the candidates, asking the user hive and
      then the machine hive for each, and returning the first answer. */
  method ResolveAppPath(lookup: Lookup, file: string) returns (r: Option<string>)
    ensures IsNullOrWhiteSpace(file) ==> r == None
    ensures !IsNullOrWhiteSpace(file) && IsPathLike(file) ==> r == Some(file)
    ensures r == Resolve(lookup, file)
  {
    if IsNullOrWhiteSpace(file) {
      return None;
    }
    if IsPathRooted(file) || '\\' in file || '/' in file {
      return Some(file);
    }
    var candidates := Candidates(file);
    ghost var probes := Probes(candidates);
    for i := 0 to |candidates|
      invariant forall j :: 0 <= j < 2 * i ==> Answer(lookup, probes[j]) == None
    {
      var fromUser := lookup(User, candidates[i]);
      if fromUser.Some? && fromUser.value != "" {
        FirstHitAt(lookup, probes, 2 * i);
        return fromUser;
      }
      var fromLocal := lookup(Machine, candidates[i]);
      if fromLocal.Some? && fromLocal.value != "" {
        FirstHitAt(lookup, probes, 2 * i + 1);
        return fromLocal;
      }
    }
    FirstHitNone(lookup, probes);
    return None;
  }

  /** The first query that answers decides the result, whatever follows it. */
  lemma {:induction false} FirstHitAt(lookup: Lookup, ps: seq<Probe>, k: nat)
    requires k < |ps|
    requires Answer(lookup, ps[k]).Some?
    requires forall j :: 0 <= j < k ==> Answer(lookup, ps[j]) == None
    ensures FirstHit(lookup, ps) == Answer(lookup, ps[k])
  {
    if k > 0 {
      FirstHitAt(lookup, ps[1..], k - 1);
    }
  }

  /** No query answers exactly when the search finds nothing. */
  lemma {:induction false} FirstHitNone(lookup: Lookup, ps: seq<Probe>)
    ensures FirstHit(lookup, ps) == None <==>
      forall j :: 0 <= j < |ps| ==> Answer(lookup, ps[j]) == None
  {
    if ps != [] {
      FirstHitNone(lookup, ps[1..]);
      assert forall j :: 1 <= j < |ps| ==> ps[j] == ps[1..][j - 1];
    }
  }

  /** ".exe" is recognised in any mix of upper and lower case, and only so. */
  lemma ExeSuffixCases(s: string)
    ensures EndsWithExe(s) <==>
      && |s| >= 4 && s[|s| - 4] == '.'
      && s[|s| - 3] in "eE" && s[|s| - 2] in "xX" && s[|s| - 1] in "eE"
  {
    if |s| >= 4 {
      assert ToUpperAscii(s[|s| - 4]) == ToUpperAscii(ExeSuffix[0]) <==> s[|s| - 4] == '.';
      assert ToUpperAscii(s[|s| - 3]) == ToUpperAscii(ExeSuffix[1]) <==> s[|s| - 3] in "eE";
      assert ToUpperAscii(s[|s| - 2]) == ToUpperAscii(ExeSuffix[2]) <==> s[|s| - 2] in "xX";
      assert ToUpperAscii(s[|s| - 1]) == ToUpperAscii(ExeSuffix[3]) <==> s[|s| - 1] in "eE";
    }
  }

  /** The priority order of a bare name, spelled out: the name in the user
      hive, then in the machine hive, then (only when the name lacks ".exe")
      the name with ".exe" in the user hive and in the machine hive; the
      first answer wins and None means no query answered. */
  lemma ResolveOrder(lookup: Lookup, file: string)
    requires !IsNullOrWhiteSpace(file) && !IsPathLike(file)
    ensures Resolve(lookup, file) ==
      if Answer(lookup, Probe(file, User)).Some? then Answer(lookup, Probe(file, User))
      else if Answer(lookup, Probe(file, Machine)).Some? then Answer(lookup, Probe(file, Machine))
      else if EndsWithExe(file) then None
      else if Answer(lookup, Probe(file + ExeSuffix, User)).Some? then Answer(lookup, Probe(file + ExeSuffix, User))
      else Answer(lookup, Probe(file + ExeSuffix, Machine))
  {
    var ps := Probes(Candidates(file));
    var u, m := Probe(file, User), Probe(file, Machine);
    assert Resolve(lookup, file) == FirstHit(lookup, ps);
    assert ps[0] == u && ps[1] == m;
    var rest := ps[1..][1..];
    assert FirstHit(lookup, ps[1..]) ==
      if Answer(lookup, m).Some? then Answer(lookup, m) else FirstHit(lookup, rest);
    if EndsWithExe(file) {
      assert rest == [];
    } else {
      var ux, mx := Probe(file + ExeSuffix, User), Probe(file + ExeSuffix, Machine);
      assert ps[2] == ux && ps[3] == mx;
      assert rest == [ux, mx];
      assert rest[1..] == [mx];
      assert FirstHit(lookup, rest[1..]) == Answer(lookup, mx);
    }
  }

  /** A user-hive answer shadows the machine hive for the same name: when
      two registries differ only in the machine entry of a candidate whose
      user entry answers, the resolver gives the same result for both. */
  lemma MachineShadowed(l1: Lookup, l2: Lookup, file: string, name: string)
    requires !IsNullOrWhiteSpace(file) && !IsPathLike(file)
    requires name in Candidates(file)
    requires Answer(l1, Probe(name, User)).Some?
    requires forall s, n :: (s, n) != (Machine, name) ==> l1(s, n) == l2(s, n)
    ensures Resolve(l1, file) == Resolve(l2, file)
  {
    ResolveOrder(l1, file);
    ResolveOrder(l2, file);
    assert Answer(l1, Probe(file, User)) == Answer(l2, Probe(file, User));
    assert l1(User, file + ExeSuffix) == l2(User, file + ExeSuffix);
    if name != file {
      assert l1(Machine, file) == l2(Machine, file);
    }
  }

  /** A file that names a path resolves to itself, whatever the registry
      holds: the registry is not consulted. */
  lemma PathIgnoresRegistry(l1: Lookup, l2: Lookup, file: string)
    requires !IsNullOrWhiteSpace(file) && IsPathLike(file)
    ensures Resolve(l1, file) == Resolve(l2, file) == Some(file)
  {
  }

  /** A resolved bare name is a value some query actually returned. */
  lemma {:induction false} FirstHitFrom(lookup: Lookup, ps: seq<Probe>)
    requires FirstHit(lookup, ps).Some?
    ensures exists j :: 0 <= j < |ps| && lookup(ps[j].scope, ps[j].name) == FirstHit(lookup, ps)
  {
    if !Answer(lookup, ps[0]).Some? {
      FirstHitFrom(lookup, ps[1..]);
      var j :| 0 <= j < |ps[1..]| && lookup(ps[1..][j].scope, ps[1..][j].name) == FirstHit(lookup, ps[1..]);
      assert ps[1..][j] == ps[j + 1];
    }
  }
}
