/** The metadata store and the library-rule evaluator of
    `src/versions/manager.py`: manifest lookup, the descriptor cache keyed by
    version id and honoured on sha1 equality, and the order-sensitive
    allow/disallow rule evaluation. The network is an oracle parameter. */
module Versions {
  import opened Common
  import opened Models

  // ================================================================ manifest lookup

  /** `versions[k]` is the first entry whose id is `versionId`. */
  predicate FirstWithId(versions: seq<VersionInfo>, versionId: string, k: int) {
    0 <= k < |versions| && versions[k].id == versionId &&
    forall j :: 0 <= j < k ==> versions[j].id != versionId
  }

  /** `get_version_info` on a given manifest: a linear search that returns the
      first entry with the requested id, and nothing when no entry has it. */
  method GetVersionInfo(manifest: VersionManifest, versionId: string) returns (r: Option<VersionInfo>)
    ensures r.None? <==> forall k :: 0 <= k < |manifest.versions| ==> manifest.versions[k].id != versionId
    ensures r.Some? ==> exists k :: FirstWithId(manifest.versions, versionId, k) && manifest.versions[k] == r.value
  {
    var versions := manifest.versions;
    for i := 0 to |versions|
      invariant forall j :: 0 <= j < i ==> versions[j].id != versionId
    {
      if versions[i].id == versionId {
        assert FirstWithId(versions, versionId, i);
        return Some(versions[i]);
      }
    }
    return None;
  }

  // ================================================================ descriptor cache

  /** A cached `<id>.json` document: its top-level `"sha1"` field (absent in
      most real descriptors) and the descriptor it parses to. */
  datatype Document = Document(sha1: Option<string>, metadata: VersionMetadata)

  /** The cached copy is used exactly when the file exists and its `"sha1"`
      field equals the manifest entry's `sha1` (both absent counts as equal). */
  predicate CacheHit(cache: map<string, Document>, info: VersionInfo) {
    info.id in cache && cache[info.id].sha1 == info.sha1
  }

  /** `fetch_version_metadata` on an explicit cache: the returned descriptor
      and the cache afterwards. `fetch` is the HTTP GET of the entry's url,
      including `raise_for_status`. */
  function ResolveDescriptor(cache: map<string, Document>, info: VersionInfo,
                             fetch: string -> Result<Document, Error>): (Result<VersionMetadata, Error>, map<string, Document>)
  {
    if CacheHit(cache, info) then (Ok(cache[info.id].metadata), cache)
    else match fetch(info.url)
      case Err(e) => (Err(e), cache)
      case Ok(doc) => (Ok(doc.metadata), cache[info.id := doc])
  }

  /** A cache hit performs no fetch: whatever the network would answer, the
      cached descriptor is returned and the cache is left as it was. */
  lemma CacheHitIgnoresNetwork(cache: map<string, Document>, info: VersionInfo,
                               f1: string -> Result<Document, Error>, f2: string -> Result<Document, Error>)
    requires CacheHit(cache, info)
    ensures ResolveDescriptor(cache, info, f1) == ResolveDescriptor(cache, info, f2)
    ensures ResolveDescriptor(cache, info, f1).1 == cache
  {
  }

  /** On a miss (no file, or a stale sha1) the fetched document overwrites the
      cache entry and that same document's descriptor is returned; a failed
      fetch leaves the cache alone and reports the failure. */
  lemma CacheMissRefetches(cache: map<string, Document>, info: VersionInfo,
                           fetch: string -> Result<Document, Error>)
    requires !CacheHit(cache, info)
    ensures fetch(info.url).Ok? ==>
      ResolveDescriptor(cache, info, fetch).0 == Ok(fetch(info.url).value.metadata) &&
      ResolveDescriptor(cache, info, fetch).1 == cache[info.id := fetch(info.url).value]
    ensures fetch(info.url).Err? ==>
      ResolveDescriptor(cache, info, fetch) == (Err(fetch(info.url).error), cache)
  {
  }

  /** Warm cache: once a document whose `"sha1"` matches the entry has been
      fetched, resolving the same entry again returns the same descriptor
      without consulting the network. */
  lemma ResolveTwiceIsCached(cache: map<string, Document>, info: VersionInfo,
                             fetch: string -> Result<Document, Error>, later: string -> Result<Document, Error>)
    requires fetch(info.url).Ok? && fetch(info.url).value.sha1 == info.sha1
    ensures var (r1, c1) := ResolveDescriptor(cache, info, fetch);
            CacheHit(c1, info) && ResolveDescriptor(c1, info, later) == (r1, c1)
  {
  }

  /** The descriptor cache: the files `<cache_dir>/<id>.json`, by version id. */
  class VersionManager {
    var cache: map<string, Document>

    constructor (initial: map<string, Document>)
      ensures cache == initial
    {
      cache := initial;
    }

    /** `fetch_version_metadata`. */
    method FetchVersionMetadata(info: VersionInfo, fetch: string -> Result<Document, Error>)
      returns (r: Result<VersionMetadata, Error>)
      modifies this
      ensures (r, cache) == ResolveDescriptor(old(cache), info, fetch)
      ensures r.Ok? && !CacheHit(old(cache), info) ==> cache[info.id].metadata == r.value
    {
      if info.id in cache {
        var data := cache[info.id];
        if data.sha1 == info.sha1 {
          return Ok(data.metadata);
        }
      }
      var fetched := fetch(info.url);
      if fetched.Err? {
        return Err(fetched.error);
      }
      cache := cache[info.id := fetched.value];
      r := Ok(fetched.value.metadata);
    }
  }

  // ================================================================ rule evaluation

  /** `platform.system().lower()`, with darwin reported as `"osx"`. */
  function CurrentOs(system: string): (os: string)
    ensures Lower(system) == "darwin" ==> os == "osx"
    ensures Lower(system) != "darwin" ==> os == Lower(system)
  {
    var s := Lower(system);
    if s == "darwin" then "osx" else s
  }

  /** `_matches_rule`: a rule without an OS filter matches; a non-empty OS
      name must equal the current OS; a non-empty arch must occur inside the
      machine string. (The Java-version argument is never consulted.) */
  predicate MatchesRule(rule: LibraryRule, osName: string, arch: string) {
    match rule.os
    case None => true
    case Some(o) =>
      !(Truthy(o.name) && o.name.value != osName) &&
      !(Truthy(o.arch) && !Contains(arch, o.arch.value))
  }

  /** The three filter conditions, with the arch test read as "occurs at some position". */
  lemma MatchesRuleMeaning(rule: LibraryRule, osName: string, arch: string)
    ensures rule.os.None? ==> MatchesRule(rule, osName, arch)
    ensures rule.os.Some? ==>
      (MatchesRule(rule, osName, arch) <==>
        (!Truthy(rule.os.value.name) || rule.os.value.name.value == osName) &&
        (!Truthy(rule.os.value.arch) || exists i :: OccursAt(arch, rule.os.value.arch.value, i)))
  {
    if rule.os.Some? && Truthy(rule.os.value.arch) {
      ContainsAt(arch, rule.os.value.arch.value);
    }
  }

  /** The inner loop of `filter_applicable_libraries`, run from verdict `allow`
      over `rules`: a matching disallow stops with "exclude"; a matching allow
      sets "include"; a non-matching allow resets to "exclude"; anything else
      leaves the verdict alone. */
  function Verdict(rules: seq<LibraryRule>, allow: bool, osName: string, arch: string): bool
    decreases |rules|
  {
    if rules == [] then allow
    else
      var rule := rules[0];
      if MatchesRule(rule, osName, arch) then
        if rule.action == "disallow" then false
        else Verdict(rules[1..], if rule.action == "allow" then true else allow, osName, arch)
      else
        Verdict(rules[1..], if rule.action == "allow" then false else allow, osName, arch)
  }

  predicate HasMatchingDisallow(rules: seq<LibraryRule>, osName: string, arch: string) {
    exists k :: 0 <= k < |rules| && rules[k].action == "disallow" && MatchesRule(rules[k], osName, arch)
  }

  /** The last rule whose action is `"allow"`, if any. */
  function LastAllow(rules: seq<LibraryRule>): (r: Option<LibraryRule>)
    ensures r.Some? ==> r.value in rules && r.value.action == "allow"
    ensures r.None? ==> forall k :: 0 <= k < |rules| ==> rules[k].action != "allow"
    decreases |rules|
  {
    if rules == [] then None
    else match LastAllow(rules[1..])
      case Some(later) => Some(later)
      case None => if rules[0].action == "allow" then Some(rules[0]) else None
  }

  /** `rules[k]` is an allow rule and no allow rule follows it. */
  predicate IsLastAllowAt(rules: seq<LibraryRule>, k: int) {
    0 <= k < |rules| && rules[k].action == "allow" &&
    forall j :: k < j < |rules| ==> rules[j].action != "allow"
  }

  /** The rule `LastAllow` names sits at an index no allow rule follows. */
  lemma {:induction false} LastAllowIsLast(rules: seq<LibraryRule>)
    ensures LastAllow(rules).Some? ==>
      exists k :: IsLastAllowAt(rules, k) && rules[k] == LastAllow(rules).value
    decreases |rules|
  {
    if rules != [] {
      var rest := rules[1..];
      LastAllowIsLast(rest);
      if LastAllow(rest).Some? {
        var k :| IsLastAllowAt(rest, k) && rest[k] == LastAllow(rest).value;
        assert forall j :: k + 1 < j < |rules| ==> rules[j] == rest[j - 1];
        assert IsLastAllowAt(rules, k + 1) && rules[k + 1] == LastAllow(rules).value;
      } else if rules[0].action == "allow" {
        assert forall j :: 0 < j < |rules| ==> rules[j] == rest[j - 1];
        assert IsLastAllowAt(rules, 0);
      }
    }
  }

  /** Closed form of the order-sensitive evaluation: the library is excluded
      by any matching disallow; otherwise the verdict is whether the LAST
      allow rule matched, or the starting verdict when there is no allow
      rule. Non-matching disallow rules have no effect. */
  lemma {:induction false} VerdictClosedForm(rules: seq<LibraryRule>, allow: bool, osName: string, arch: string)
    ensures Verdict(rules, allow, osName, arch) ==
      (!HasMatchingDisallow(rules, osName, arch) &&
       match LastAllow(rules)
       case None => allow
       case Some(r) => MatchesRule(r, osName, arch))
    decreases |rules|
  {
    if rules != [] {
      var rule, rest := rules[0], rules[1..];
      var next := if MatchesRule(rule, osName, arch)
                  then (if rule.action == "allow" then true else allow)
                  else (if rule.action == "allow" then false else allow);
      VerdictClosedForm(rest, next, osName, arch);
      if rule.action == "disallow" && MatchesRule(rule, osName, arch) {
        assert HasMatchingDisallow(rules, osName, arch);
      } else {
        assert HasMatchingDisallow(rules, osName, arch) <==> HasMatchingDisallow(rest, osName, arch) by {
          if HasMatchingDisallow(rules, osName, arch) {
            var k :| 0 <= k < |rules| && rules[k].action == "disallow" && MatchesRule(rules[k], osName, arch);
            assert k != 0;
            assert rest[k - 1] == rules[k];
          }
          if HasMatchingDisallow(rest, osName, arch) {
            var k :| 0 <= k < |rest| && rest[k].action == "disallow" && MatchesRule(rest[k], osName, arch);
            assert rules[k + 1] == rest[k];
          }
        }
      }
    }
  }

  /** A matching disallow excludes the library whatever the rules around it say. */
  lemma MatchingDisallowExcludes(rules: seq<LibraryRule>, k: int, osName: string, arch: string)
    requires 0 <= k < |rules| && rules[k].action == "disallow" && MatchesRule(rules[k], osName, arch)
    ensures !Verdict(rules, true, osName, arch)
  {
    VerdictClosedForm(rules, true, osName, arch);
  }

  /** `rules` include the library: a non-empty list is evaluated from "include". */
  predicate IsApplicable(lib: Library, osName: string, arch: string) {
    lib.rules.None? || lib.rules.value == [] || Verdict(lib.rules.value, true, osName, arch)
  }

  /** The libraries `filter_applicable_libraries` keeps, in input order. */
  function ApplicableLibraries(libs: seq<Library>, osName: string, arch: string): (r: seq<Library>)
    decreases |libs|
  {
    if libs == [] then []
    else (if IsApplicable(libs[0], osName, arch) then [libs[0]] else []) + ApplicableLibraries(libs[1..], osName, arch)
  }

  /** The result is an order-preserving subsequence of the input holding exactly
      the applicable libraries; a library with absent or empty rules is among them. */
  lemma {:induction false} ApplicableLibrariesSpec(libs: seq<Library>, osName: string, arch: string)
    ensures Subsequence(ApplicableLibraries(libs, osName, arch), libs)
    ensures forall l :: l in ApplicableLibraries(libs, osName, arch) <==> l in libs && IsApplicable(l, osName, arch)
    ensures forall l :: l in libs && (l.rules.None? || l.rules == Some([])) ==> l in ApplicableLibraries(libs, osName, arch)
    decreases |libs|
  {
    if libs != [] {
      ApplicableLibrariesSpec(libs[1..], osName, arch);
      var rest := ApplicableLibraries(libs[1..], osName, arch);
      if IsApplicable(libs[0], osName, arch) {
        assert ApplicableLibraries(libs, osName, arch) == [libs[0]] + rest;
        assert ([libs[0]] + rest)[1..] == rest;
      } else {
        assert ApplicableLibraries(libs, osName, arch) == rest;
        if rest != [] {
          assert Subsequence(rest, libs[1..]);
        }
      }
      assert libs == [libs[0]] + libs[1..];
    }
  }

  /** Filtering keeps every applicable library as often as the input lists
      it, and no other library. */
  lemma {:induction false} ApplicableLibrariesCount(libs: seq<Library>, osName: string, arch: string)
    ensures forall l :: multiset(ApplicableLibraries(libs, osName, arch))[l] ==
                        (if IsApplicable(l, osName, arch) then multiset(libs)[l] else 0)
    decreases |libs|
  {
    if libs != [] {
      ApplicableLibrariesCount(libs[1..], osName, arch);
      assert libs == [libs[0]] + libs[1..];
    }
  }

  /** The common real-world pattern [allow everything, disallow on windows]:
      included on linux, excluded on windows. */
  lemma AllowAllThenDisallowWindows(arch: string)
    ensures var rules := [LibraryRule("allow", None), LibraryRule("disallow", Some(RuleOs(Some("windows"), None, None)))];
            Verdict(rules, true, "linux", arch) && !Verdict(rules, true, "windows", arch)
  {
  }

  /** `filter_applicable_libraries`: the outer loop keeps libraries, the inner
      loop evaluates one library's rules with early exit on a matching disallow.
      Iterating an absent library list raises `TypeError`. */
  method FilterApplicableLibraries(metadata: VersionMetadata, system: string, machine: string)
    returns (r: Result<seq<Library>, Error>)
    ensures metadata.libraries.None? ==> r.Err? && r.error.TypeError?
    ensures metadata.libraries.Some? ==>
      r == Ok(ApplicableLibraries(metadata.libraries.value, CurrentOs(system), Lower(machine)))
  {
    if metadata.libraries.None? {
      return Err(TypeError("None is not iterable"));
    }
    var libs := metadata.libraries.value;
    var osName := CurrentOs(system);
    var arch := Lower(machine);
    var applicable: seq<Library> := [];
    for i := 0 to |libs|
      invariant applicable + ApplicableLibraries(libs[i..], osName, arch) == ApplicableLibraries(libs, osName, arch)
    {
      assert libs[i..][1..] == libs[i + 1..];
      var lib := libs[i];
      if lib.rules.None? || lib.rules.value == [] {
        applicable := applicable + [lib];
        continue;
      }
      var rules := lib.rules.value;
      var allow := true;
      var j := 0;
      while j < |rules|
        invariant 0 <= j <= |rules|
        invariant Verdict(rules[j..], allow, osName, arch) == Verdict(rules, true, osName, arch)
      {
        assert rules[j..][1..] == rules[j + 1..];
        var rule := rules[j];
        if MatchesRule(rule, osName, arch) {
          if rule.action == "disallow" {
            allow := false;
            break;
          } else if rule.action == "allow" {
            allow := true;
          }
        } else {
          if rule.action == "allow" {
            allow := false;
          }
        }
        j := j + 1;
      }
      assert allow == Verdict(rules, true, osName, arch);
      if allow {
        applicable := applicable + [lib];
      }
      assert applicable + ApplicableLibraries(libs[i + 1..], osName, arch) == ApplicableLibraries(libs, osName, arch);
    }
    assert libs[|libs|..] == [];
    assert applicable + [] == applicable;
    return Ok(applicable);
  }
}
