/** Target scope: `_path_matches` and `EngagementConfig.check_url`, from already parsed URLs. */
module Scope {
  import opened Text

  // ---------------------------------------------------------------- path prefixes

  /** `s.rstrip("/")` */
  function StripSlashes(s: string): string {
    if s != "" && s[|s| - 1] == '/' then StripSlashes(s[..|s| - 1]) else s
  }

  function WithSlash(prefix: string): string {
    if "/" <= prefix then prefix else "/" + prefix
  }

  function Normalize(prefix: string): string {
    var stripped := StripSlashes(WithSlash(prefix));
    if stripped == "" then "/" else stripped
  }

  predicate MatchesOne(path: string, prefix: string) {
    var normalized := Normalize(prefix);
    normalized == "/" || path == normalized || normalized + "/" <= path
  }

  predicate MatchesSome(path: string, prefixes: seq<string>) {
    prefixes != [] && (MatchesOne(path, prefixes[0]) || MatchesSome(path, prefixes[1..]))
  }

  predicate PathMatches(path: string, prefixes: seq<string>) {
    prefixes == [] || MatchesSome(path, prefixes)
  }

  predicate IsAbsolute(path: string) { "/" <= path }

  lemma {:induction false} JoinConcat(a: seq<string>, b: seq<string>, c: char)
    requires a != [] && b != []
    ensures Join(a + b, c) == Join(a, c) + [c] + Join(b, c)
  {
    if |a| == 1 {
      assert (a + b)[1..] == b;
    } else {
      JoinConcat(a[1..], b, c);
      assert (a + b)[1..] == a[1..] + b;
      assert a[0] + [c] + (Join(a[1..], c) + [c] + Join(b, c)) == (a[0] + [c] + Join(a[1..], c)) + [c] + Join(b, c);
    }
  }

  /** The string test "equal, or continues after a slash" is the segment-wise prefix relation. */
  lemma StringTestIsSegmentPrefix(path: string, p: string)
    ensures (path == p || p + "/" <= path) <==> Segments(p) <= Segments(path)
  {
    if p + "/" <= path {
      var rest := path[|p| + 1..];
      assert path == p + ['/'] + rest;
      SplitConcat(p, rest, '/');
    }
    if Segments(p) <= Segments(path) {
      JoinSplit(p, '/');
      JoinSplit(path, '/');
      var rest := Segments(path)[|Segments(p)|..];
      assert Segments(path) == Segments(p) + rest;
      if rest != [] {
        JoinConcat(Segments(p), rest, '/');
      } else {
        assert Segments(path) == Segments(p);
      }
    }
  }

  lemma AbsoluteSegments(path: string)
    requires IsAbsolute(path)
    ensures Segments(path)[0] == ""
  {
  }

  /** What one configured prefix means for an absolute path. */
  lemma MatchesOneIsSegmentPrefix(path: string, prefix: string)
    requires IsAbsolute(path)
    ensures MatchesOne(path, prefix) <==> Segments(StripSlashes(WithSlash(prefix))) <= Segments(path)
  {
    var stripped := StripSlashes(WithSlash(prefix));
    StringTestIsSegmentPrefix(path, stripped);
    AbsoluteSegments(path);
    StripSlashesEnds(WithSlash(prefix));
  }

  lemma {:induction false} StripSlashesEnds(s: string)
    ensures StripSlashes(s) <= s
    ensures StripSlashes(s) != "" ==> StripSlashes(s)[|StripSlashes(s)| - 1] != '/'
    ensures StripSlashes(s + "/") == StripSlashes(s)
    ensures StripSlashes(StripSlashes(s)) == StripSlashes(s)
    ensures forall i :: |StripSlashes(s)| <= i < |s| ==> s[i] == '/'
  {
    assert (s + "/")[..|s|] == s;
    if s != "" && s[|s| - 1] == '/' { StripSlashesEnds(s[..|s| - 1]); }
  }

  lemma {:induction false} MatchesSomeIsExists(path: string, prefixes: seq<string>)
    ensures MatchesSome(path, prefixes) <==> exists p :: p in prefixes && MatchesOne(path, p)
  {
    if prefixes != [] { MatchesSomeIsExists(path, prefixes[1..]); }
  }

  /** `_path_matches` on an absolute path: some prefix, stripped of trailing slashes, is a segment-wise prefix. */
  lemma PathMatchesIsSegmentPrefix(path: string, prefixes: seq<string>)
    requires IsAbsolute(path)
    ensures PathMatches(path, prefixes) <==>
      prefixes == [] || exists p :: p in prefixes && Segments(StripSlashes(WithSlash(p))) <= Segments(path)
  {
    MatchesSomeIsExists(path, prefixes);
    forall p ensures MatchesOne(path, p) <==> Segments(StripSlashes(WithSlash(p))) <= Segments(path) {
      MatchesOneIsSegmentPrefix(path, p);
    }
  }

  lemma {:induction false} StrippedIs(core: string, slashes: string)
    requires (forall c :: c in slashes ==> c == '/') && (core != "" ==> core[|core| - 1] != '/')
    ensures StripSlashes(core + slashes) == core
  {
    if slashes == "" {
      assert core + slashes == core;
    } else {
      var n := |slashes| - 1;
      assert slashes[n] in slashes && forall c :: c in slashes[..n] ==> c in slashes;
      assert (core + slashes)[..|core| + n] == core + slashes[..n];
      StrippedIs(core, slashes[..n]);
    }
  }

  /** What a prefix means for an absolute path, by segments: drop the slashes at its end, and put one in front. */
  lemma PrefixInSegments(path: string, prefix: string, core: string, slashes: string)
    requires IsAbsolute(path) && (forall c :: c in slashes ==> c == '/')
    requires (if "/" <= prefix then prefix else "/" + prefix) == core + slashes
    requires core != "" ==> core[|core| - 1] != '/'
    ensures MatchesOne(path, prefix) <==> Segments(core) <= Segments(path)
  {
    StrippedIs(core, slashes);
    MatchesOneIsSegmentPrefix(path, prefix);
  }

  /** Slashes at the ends of a prefix do not change what it admits. */
  lemma SlashSpellingIrrelevant(path: string, prefix: string)
    ensures MatchesOne(path, prefix) <==> MatchesOne(path, prefix + "/")
    ensures !("/" <= prefix) ==> (MatchesOne(path, prefix) <==> MatchesOne(path, "/" + prefix))
  {
    StripSlashesEnds(WithSlash(prefix));
    if prefix == "" {
      assert StripSlashes("/") == "";
    } else {
      assert WithSlash(prefix + "/") == WithSlash(prefix) + "/";
    }
  }

  lemma NormalizeIsAbsolute(prefix: string)
    ensures IsAbsolute(Normalize(prefix))
  {
    StripSlashesEnds(WithSlash(prefix));
  }

  /** A prefix that admits another prefix admits everything the other one admits. */
  lemma MatchingIsTransitive(path: string, narrow: string, wide: string)
    requires IsAbsolute(path)
    requires MatchesOne(path, narrow) && MatchesOne(Normalize(narrow), wide)
    ensures MatchesOne(path, wide)
  {
    NormalizeIsAbsolute(narrow);
    MatchesOneIsSegmentPrefix(Normalize(narrow), wide);
    MatchesOneIsSegmentPrefix(path, wide);
    if Normalize(narrow) == "/" {
      RootOnly(wide);
    } else {
      MatchesOneIsSegmentPrefix(path, narrow);
    }
  }

  /** Only a prefix that is nothing but slashes admits the root. */
  lemma RootOnly(wide: string)
    requires MatchesOne("/", wide)
    ensures Normalize(wide) == "/"
  {
    NormalizeIsAbsolute(wide);
  }

  // ---------------------------------------------------------------- origins

  datatype ScopeOrigin = ScopeOrigin(
    scheme: string, host: string, ports: seq<int>, pathPrefixes: seq<string>, methods: seq<string>)
  {
    predicate Owns(scheme': string, host': string, port: int) {
      scheme' == scheme && host' == host && port in ports
    }

    predicate Permits(verb: string, path: string) {
      verb in methods && PathMatches(path, pathPrefixes)
    }
  }

  /** A target after `urlsplit`, host normalisation and the default port. */
  datatype Target =
    | InvalidUrl
    | ParsedUrl(scheme: string, host: string, port: int, path: string, hasUserinfo: bool, fragment: string)

  datatype ScopeReason =
    | InvalidTarget | UnsupportedScheme | UserinfoPresent | FragmentPresent | HostExcluded
    | MethodNotAllowed | PathNotAllowed | InScope | OriginNotInScope

  datatype ScopeDecision = ScopeDecision(allowed: bool, reason: ScopeReason)

  datatype ScopePolicy = ScopePolicy(allowedOrigins: seq<ScopeOrigin>, excludedHosts: seq<string>)
  {
    /** What `from_dict` guarantees about every origin. */
    predicate Valid() {
      forall o <- allowedOrigins :: o.scheme in {"http", "https"} && o.ports != [] && o.methods != []
    }
  }

  function PathOf(target: Target): string
    requires target.ParsedUrl?
  {
    if target.path == "" then "/" else target.path
  }

  /** The scan over the origins with its early returns. */
  function FirstOrigin(origins: seq<ScopeOrigin>, target: Target, verb: string): ScopeDecision
    requires target.ParsedUrl?
  {
    if origins == [] then ScopeDecision(false, OriginNotInScope)
    else if origins[0].Owns(target.scheme, target.host, target.port) then
      if verb !in origins[0].methods then ScopeDecision(false, MethodNotAllowed)
      else if !PathMatches(PathOf(target), origins[0].pathPrefixes) then ScopeDecision(false, PathNotAllowed)
      else ScopeDecision(true, InScope)
    else FirstOrigin(origins[1..], target, verb)
  }

  function CheckUrl(policy: ScopePolicy, target: Target, verb: string): ScopeDecision {
    if target.InvalidUrl? then ScopeDecision(false, InvalidTarget)
    else if target.scheme !in {"http", "https"} then ScopeDecision(false, UnsupportedScheme)
    else if target.hasUserinfo then ScopeDecision(false, UserinfoPresent)
    else if target.fragment != "" then ScopeDecision(false, FragmentPresent)
    else if target.host in policy.excludedHosts then ScopeDecision(false, HostExcluded)
    else FirstOrigin(policy.allowedOrigins, target, verb)
  }

  /** The order-free reading of a policy: a clean URL on a host that is not excluded, permitted by some origin. */
  ghost predicate SomeOriginPermits(policy: ScopePolicy, target: Target, verb: string) {
    && target.ParsedUrl?
    && !target.hasUserinfo && target.fragment == ""
    && target.host !in policy.excludedHosts
    && (exists o ::
          && o in policy.allowedOrigins
          && o.Owns(target.scheme, target.host, target.port) && o.Permits(verb, PathOf(target)))
  }

  /** Position of the origin whose entry decides for an endpoint; the number of origins when there is none. */
  function FirstOwner(origins: seq<ScopeOrigin>, scheme: string, host: string, port: int): (i: nat)
    ensures i <= |origins|
    ensures forall k :: 0 <= k < i ==> !origins[k].Owns(scheme, host, port)
    ensures i < |origins| ==> origins[i].Owns(scheme, host, port)
  {
    if origins == [] || origins[0].Owns(scheme, host, port) then 0 else 1 + FirstOwner(origins[1..], scheme, host, port)
  }

  lemma {:induction false} FirstOriginDecides(origins: seq<ScopeOrigin>, target: Target, verb: string)
    requires target.ParsedUrl?
    ensures var i := FirstOwner(origins, target.scheme, target.host, target.port);
      var decision := FirstOrigin(origins, target, verb);
      && (decision.allowed <==> i < |origins| && origins[i].Permits(verb, PathOf(target)))
      && (decision.reason == InScope <==> decision.allowed)
      && (decision.reason == OriginNotInScope <==> i == |origins|)
      && (decision.reason == MethodNotAllowed <==> i < |origins| && verb !in origins[i].methods)
      && (decision.reason == PathNotAllowed <==>
            && i < |origins| && verb in origins[i].methods
            && !PathMatches(PathOf(target), origins[i].pathPrefixes))
  {
    if origins != [] && !origins[0].Owns(target.scheme, target.host, target.port) {
      FirstOriginDecides(origins[1..], target, verb);
    }
  }

  /** An allowed target in full: its parts, and the entry that lets it through. */
  lemma AllowedExactly(policy: ScopePolicy, target: Target, verb: string)
    ensures CheckUrl(policy, target, verb).allowed <==>
      && target.ParsedUrl? && (target.scheme == "http" || target.scheme == "https")
      && !target.hasUserinfo && target.fragment == "" && target.host !in policy.excludedHosts
      && exists i :: 0 <= i < |policy.allowedOrigins| && LetsThrough(policy.allowedOrigins, i, target, verb)
  {
    if target.ParsedUrl? {
      var origins := policy.allowedOrigins;
      var i := FirstOwner(origins, target.scheme, target.host, target.port);
      FirstOriginDecides(origins, target, verb);
      forall k: nat | k < |origins| ensures LetsThrough(origins, k, target, verb) <==>
        i == k && origins[i].Permits(verb, PathOf(target))
      {
        LetsThroughFirst(origins, k, target, verb);
      }
      if i < |origins| && origins[i].Permits(verb, PathOf(target)) {
        assert LetsThrough(origins, i, target, verb);
      }
    }
  }

  lemma LetsThroughFirst(origins: seq<ScopeOrigin>, k: nat, target: Target, verb: string)
    requires target.ParsedUrl? && k < |origins|
    ensures LetsThrough(origins, k, target, verb) <==>
      && k == FirstOwner(origins, target.scheme, target.host, target.port)
      && origins[k].Permits(verb, PathOf(target))
  {
    var i := FirstOwner(origins, target.scheme, target.host, target.port);
    assert forall j :: 0 <= j < |origins| ==>
      (At(origins[j], target) <==> origins[j].Owns(target.scheme, target.host, target.port));
    MatchesSomeIsExists(PathOf(target), origins[k].pathPrefixes);
  }

  predicate At(o: ScopeOrigin, target: Target)
    requires target.ParsedUrl?
  {
    o.scheme == target.scheme && o.host == target.host && target.port in o.ports
  }

  /** Entry `i` is the first for the target's scheme, host and port, and names its method and a prefix of its path. */
  ghost predicate LetsThrough(origins: seq<ScopeOrigin>, i: nat, target: Target, verb: string)
    requires target.ParsedUrl? && i < |origins|
  {
    && At(origins[i], target) && (forall k :: 0 <= k < i ==> !At(origins[k], target))
    && verb in origins[i].methods
    && (origins[i].pathPrefixes == [] ||
        exists p :: p in origins[i].pathPrefixes && MatchesOne(if target.path == "" then "/" else target.path, p))
  }

  /** The first complaint about a target, before any entry is looked at. */
  lemma RefusalReasons(policy: ScopePolicy, target: Target, verb: string)
    ensures var reason := CheckUrl(policy, target, verb).reason;
      && (reason == InvalidTarget <==> target.InvalidUrl?)
      && (target.ParsedUrl? ==>
            var web := target.scheme == "http" || target.scheme == "https";
            var clean := !target.hasUserinfo && target.fragment == "";
            && (reason == UnsupportedScheme <==> !web)
            && (reason == UserinfoPresent <==> web && target.hasUserinfo)
            && (reason == FragmentPresent <==> web && !target.hasUserinfo && target.fragment != "")
            && (reason == HostExcluded <==> web && clean && target.host in policy.excludedHosts))
  {
    if target.ParsedUrl? { FirstOriginDecides(policy.allowedOrigins, target, verb); }
  }

  /** An empty prefix list admits every path, like the root prefix. */
  function EffectivePrefixes(o: ScopeOrigin): seq<string> {
    if o.pathPrefixes == [] then ["/"] else o.pathPrefixes
  }

  lemma EffectivePrefixesSame(o: ScopeOrigin, path: string)
    ensures PathMatches(path, o.pathPrefixes) <==> MatchesSome(path, EffectivePrefixes(o))
  {
    assert Normalize("/") == "/";
  }

  /**
   * Decidable on the two entries alone: every method of `b` and the normal form of every prefix of `b` is admitted by
   * `a`.
   */
  predicate Covers(a: ScopeOrigin, b: ScopeOrigin) {
    && (forall m <- b.methods :: m in a.methods)
    && (forall p <- EffectivePrefixes(b) :: MatchesSome(Normalize(p), EffectivePrefixes(a)))
  }

  /** `Covers` is exactly "permits at least as much". */
  lemma CoversIsInclusion(a: ScopeOrigin, b: ScopeOrigin)
    requires b.methods != []
    ensures Covers(a, b) <==> forall m, path :: IsAbsolute(path) && b.Permits(m, path) ==> a.Permits(m, path)
  {
    if Covers(a, b) {
      forall m, path | IsAbsolute(path) && b.Permits(m, path) ensures a.Permits(m, path) {
        CoveredPath(a, b, path);
      }
    }
    if forall m, path :: IsAbsolute(path) && b.Permits(m, path) ==> a.Permits(m, path) {
      forall m | m in b.methods ensures m in a.methods {
        var p := EffectivePrefixes(b)[0];
        PrefixAdmitsItself(b, p);
        assert b.Permits(m, Normalize(p));
      }
      forall p | p in EffectivePrefixes(b) ensures MatchesSome(Normalize(p), EffectivePrefixes(a)) {
        PrefixAdmitsItself(b, p);
        assert b.Permits(b.methods[0], Normalize(p));
        EffectivePrefixesSame(a, Normalize(p));
      }
    }
  }

  lemma CoveredPath(a: ScopeOrigin, b: ScopeOrigin, path: string)
    requires Covers(a, b) && IsAbsolute(path) && PathMatches(path, b.pathPrefixes)
    ensures PathMatches(path, a.pathPrefixes)
  {
    EffectivePrefixesSame(a, path);
    EffectivePrefixesSame(b, path);
    MatchesSomeIsExists(path, EffectivePrefixes(b));
    var narrow :| narrow in EffectivePrefixes(b) && MatchesOne(path, narrow);
    MatchesSomeIsExists(Normalize(narrow), EffectivePrefixes(a));
    var wide :| wide in EffectivePrefixes(a) && MatchesOne(Normalize(narrow), wide);
    MatchingIsTransitive(path, narrow, wide);
    MatchesSomeIsExists(path, EffectivePrefixes(a));
  }

  lemma PrefixAdmitsItself(o: ScopeOrigin, p: string)
    requires p in EffectivePrefixes(o)
    ensures IsAbsolute(Normalize(p)) && PathMatches(Normalize(p), o.pathPrefixes)
  {
    NormalizeIsAbsolute(p);
    assert MatchesOne(Normalize(p), p);
    MatchesSomeIsExists(Normalize(p), EffectivePrefixes(o));
    EffectivePrefixesSame(o, Normalize(p));
  }

  /** No entry is cut short by an earlier entry for the same scheme, host and port. */
  ghost predicate Unshadowed(policy: ScopePolicy) {
    forall b, port :: b in policy.allowedOrigins && port in b.ports && b.host !in policy.excludedHosts ==>
      DeciderCovers(policy.allowedOrigins, b, port)
  }

  predicate DeciderCovers(origins: seq<ScopeOrigin>, b: ScopeOrigin, port: int) {
    var i := FirstOwner(origins, b.scheme, b.host, port);
    i < |origins| && Covers(origins[i], b)
  }

  predicate AbsoluteTarget(target: Target) {
    target.ParsedUrl? && (target.path == "" || IsAbsolute(target.path))
  }

  ghost predicate OrderFree(policy: ScopePolicy) {
    forall target, verb :: AbsoluteTarget(target) ==>
      (CheckUrl(policy, target, verb).allowed <==> SomeOriginPermits(policy, target, verb))
  }

  /** An accepted target is always permitted by some origin, whatever the order of the entries. */
  lemma AllowedIsPermitted(policy: ScopePolicy, target: Target, verb: string)
    requires CheckUrl(policy, target, verb).allowed
    ensures SomeOriginPermits(policy, target, verb)
  {
    FirstOriginDecides(policy.allowedOrigins, target, verb);
    var i := FirstOwner(policy.allowedOrigins, target.scheme, target.host, target.port);
    assert policy.allowedOrigins[i] in policy.allowedOrigins;
  }

  /** The first-match scan agrees with the order-free reading on every target exactly for unshadowed policies. */
  lemma FirstMatchIsSomeMatch(policy: ScopePolicy)
    requires policy.Valid()
    ensures OrderFree(policy) <==> Unshadowed(policy)
  {
    var origins := policy.allowedOrigins;
    if Unshadowed(policy) {
      forall target, verb | AbsoluteTarget(target) && SomeOriginPermits(policy, target, verb)
        ensures CheckUrl(policy, target, verb).allowed
      {
        var b :| b in origins && b.Owns(target.scheme, target.host, target.port) && b.Permits(verb, PathOf(target));
        assert DeciderCovers(origins, b, target.port);
        CoversIsInclusion(origins[FirstOwner(origins, b.scheme, b.host, target.port)], b);
        FirstOriginDecides(origins, target, verb);
      }
      forall target, verb | AbsoluteTarget(target) && CheckUrl(policy, target, verb).allowed
        ensures SomeOriginPermits(policy, target, verb)
      {
        AllowedIsPermitted(policy, target, verb);
      }
    }
    if OrderFree(policy) {
      forall b, port | b in origins && port in b.ports && b.host !in policy.excludedHosts
        ensures DeciderCovers(origins, b, port)
      {
        var i := FirstOwner(origins, b.scheme, b.host, port);
        assert b.Owns(b.scheme, b.host, port);
        forall m, path | IsAbsolute(path) && b.Permits(m, path) ensures i < |origins| && origins[i].Permits(m, path) {
          var target := ParsedUrl(b.scheme, b.host, port, path, false, "");
          assert SomeOriginPermits(policy, target, m);
          assert CheckUrl(policy, target, m).allowed;
          FirstOriginDecides(origins, target, m);
        }
        CoversIsInclusion(origins[i], b);
      }
    }
  }

  /** A split entry for one endpoint: the second line never takes effect. */
  const SPLIT_POLICY := ScopePolicy(
    [ScopeOrigin("https", "shop", [443], ["/api"], ["GET"]),
     ScopeOrigin("https", "shop", [443], ["/admin"], ["GET"])],
    [])

  lemma OrderMatters()
    ensures SPLIT_POLICY.Valid() && !OrderFree(SPLIT_POLICY)
    ensures var admin := ParsedUrl("https", "shop", 443, "/admin", false, "");
      SomeOriginPermits(SPLIT_POLICY, admin, "GET") && !CheckUrl(SPLIT_POLICY, admin, "GET").allowed
  {
    var admin := ParsedUrl("https", "shop", 443, "/admin", false, "");
    var second := SPLIT_POLICY.allowedOrigins[1];
    assert Normalize("/admin") == "/admin" && Normalize("/api") == "/api";
    assert MatchesOne("/admin", "/admin");
    assert ("/api" + "/")[2] == 'p' && "/admin"[2] == 'd';
    assert second in SPLIT_POLICY.allowedOrigins && second.Owns("https", "shop", 443)
      && second.Permits("GET", "/admin");
    assert AbsoluteTarget(admin) && SomeOriginPermits(SPLIT_POLICY, admin, "GET");
  }
}
