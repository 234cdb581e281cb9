/** The configuration document and its validation (config_document.cpp). A document's
    profiles are a map from id; here they are listed in the order of that map. */
module ConfigDocuments {
  import opened Wrappers
  import opened Bytes
  import opened Ordering
  import opened HttpPaths
  import opened RouteTables

  datatype RuleDefinition = RuleDefinition(
    id: Text, enabled: bool, kind: Text, options: map<Text, Text>, storageKey: int)

  datatype ProfileDefinition = ProfileDefinition(
    enabled: bool, protocol: Option<Text>,
    requestPath: Option<Text>, usagePath: Option<Text>,
    baseUrl: Option<Text>, upstreamRequestPath: Option<Text>, upstreamUsagePath: Option<Text>,
    rules: seq<RuleDefinition>, storageKey: int, storagePosition: Option<nat>)

  datatype Named = Named(id: Text, profile: ProfileDefinition)

  datatype ConfigDocument = ConfigDocument(application: Text, profiles: seq<Named>)

  const MAX_PROFILES := 128
  const MAX_ROUTES := 256

  /** The checks this model does not open: application settings; ids, option names, rule
      counts and the syntax of the base URL of a profile. */
  datatype Checks = Checks(settings: Text -> bool, fields: Named -> bool)

  ghost predicate RoutePathOk(path: Text, isLocal: bool) {
    Canonical(path).Ok? && (isLocal ==> !IsReserved(Canonical(path).value))
  }

  ghost predicate PathOk(path: Option<Text>, isLocal: bool) {
    path.Some? ==> RoutePathOk(path.value, isLocal)
  }

  predicate Complete(p: ProfileDefinition) {
    && p.protocol.Some? && p.requestPath.Some? && p.baseUrl.Some? && p.upstreamRequestPath.Some?
    && (p.usagePath.Some? <==> p.upstreamUsagePath.Some?)
  }

  ghost predicate DefinitionOk(checks: Checks, n: Named, requireComplete: bool) {
    && checks.fields(n)
    && PathOk(n.profile.requestPath, true) && PathOk(n.profile.usagePath, true)
    && (n.profile.baseUrl.Some? ==> n.profile.baseUrl.value != [])
    && PathOk(n.profile.upstreamRequestPath, false) && PathOk(n.profile.upstreamUsagePath, false)
    && (requireComplete ==> Complete(n.profile))
  }

  function RouteCount(profiles: seq<Named>): nat {
    if profiles == [] then 0
    else
      var p := profiles[|profiles| - 1].profile;
      RouteCount(profiles[..|profiles| - 1]) + (if p.requestPath.Some? then 1 else 0) + (if p.usagePath.Some? then 1 else 0)
  }

  ghost predicate DefinitionsOk(checks: Checks, profiles: seq<Named>) {
    forall n :: n in profiles ==> DefinitionOk(checks, n, n.profile.enabled)
  }

  ghost predicate DocumentOk(checks: Checks, d: ConfigDocument) {
    && checks.settings(d.application)
    && |d.profiles| <= MAX_PROFILES
    && DefinitionsOk(checks, d.profiles)
    && RouteCount(d.profiles) <= MAX_ROUTES
  }

  /** The profiles with a local request path, and those with a local usage path. */
  function WithRequest(profiles: seq<Named>): set<nat> {
    set i | 0 <= i < |profiles| && profiles[i].profile.requestPath.Some?
  }

  function WithUsage(profiles: seq<Named>): set<nat> {
    set i | 0 <= i < |profiles| && profiles[i].profile.usagePath.Some?
  }

  lemma OneMoreProfile(profiles: seq<Named>, n: Named)
    ensures WithRequest(profiles + [n]) == WithRequest(profiles) + if n.profile.requestPath.Some? then {|profiles|} else {}
    ensures WithUsage(profiles + [n]) == WithUsage(profiles) + if n.profile.usagePath.Some? then {|profiles|} else {}
    ensures |profiles| !in WithRequest(profiles) && |profiles| !in WithUsage(profiles)
  {
    var all := profiles + [n];
    assert forall i :: 0 <= i < |profiles| ==> all[i] == profiles[i];
  }

  lemma {:induction false} RoutesCounted(profiles: seq<Named>)
    ensures RouteCount(profiles) == |WithRequest(profiles)| + |WithUsage(profiles)|
  {
    if profiles != [] {
      var front, last := profiles[..|profiles| - 1], profiles[|profiles| - 1];
      RoutesCounted(front);
      assert profiles == front + [last];
      OneMoreProfile(front, last);
      hide WithRequest, WithUsage;
    } else {
      assert WithRequest(profiles) == {} && WithUsage(profiles) == {};
    }
  }

  /** The limits of a document: 128 profiles, and 256 local paths in all. */
  lemma DocumentLimits(checks: Checks, d: ConfigDocument)
    requires DocumentOk(checks, d)
    ensures |d.profiles| <= 128 && |WithRequest(d.profiles)| + |WithUsage(d.profiles)| <= 256
  {
    RoutesCounted(d.profiles);
  }

  /** What an enabled profile of such a document has: a protocol, a base URL, and local and
      upstream paths in pairs, the local ones outside "/_ccs-trans". */
  lemma EnabledIsComplete(checks: Checks, d: ConfigDocument, n: Named)
    requires DocumentOk(checks, d) && n in d.profiles && n.profile.enabled
    ensures var p := n.profile;
      && p.protocol.Some? && p.baseUrl.Some? && p.baseUrl.value != []
      && p.requestPath.Some? && p.upstreamRequestPath.Some? && Canonical(p.upstreamRequestPath.value).Ok?
      && Canonical(p.requestPath.value).Ok? && Outside(Canonical(p.requestPath.value).value)
      && (p.usagePath.Some? <==> p.upstreamUsagePath.Some?)
      && (p.usagePath.Some? ==>
          && Canonical(p.upstreamUsagePath.value).Ok?
          && Canonical(p.usagePath.value).Ok? && Outside(Canonical(p.usagePath.value).value))
  {
    hide Canonical, Outside;
    if Canonical(n.profile.requestPath.value).Ok? { ReservedPaths(Canonical(n.profile.requestPath.value).value); }
    if n.profile.usagePath.Some? && Canonical(n.profile.usagePath.value).Ok? {
      ReservedPaths(Canonical(n.profile.usagePath.value).value);
    }
  }

  method ValidateRoutePath(path: Option<Text>, isLocal: bool) returns (ok: bool)
    ensures ok <==> PathOk(path, isLocal)
  {
    hide Canonical, IsReserved;
    if path.None? { return true; }
    var canonical := Canonicalize(path.value);
    if canonical.Err? { return false; }
    return !isLocal || !IsReserved(canonical.value);
  }

  method ValidateDefinition(checks: Checks, n: Named, requireComplete: bool) returns (ok: bool)
    ensures ok <==> DefinitionOk(checks, n, requireComplete)
  {
    hide PathOk;
    if !checks.fields(n) { return false; }
    var p := n.profile;
    ok := ValidateRoutePath(p.requestPath, true);
    if !ok { return; }
    ok := ValidateRoutePath(p.usagePath, true);
    if !ok { return; }
    if p.baseUrl.Some? && p.baseUrl.value == [] { return false; }
    ok := ValidateRoutePath(p.upstreamRequestPath, false);
    if !ok { return; }
    ok := ValidateRoutePath(p.upstreamUsagePath, false);
    if !ok { return; }
    return !requireComplete || Complete(p);
  }

  method ValidateDocument(checks: Checks, d: ConfigDocument) returns (ok: bool)
    ensures ok <==> DocumentOk(checks, d)
  {
    hide DefinitionOk;
    if !checks.settings(d.application) || |d.profiles| > MAX_PROFILES { return false; }
    var routeCount := 0;
    for i := 0 to |d.profiles|
      invariant DefinitionsOk(checks, d.profiles[..i]) && routeCount == RouteCount(d.profiles[..i])
    {
      assert d.profiles[..i + 1] == d.profiles[..i] + [d.profiles[i]];
      ok := ValidateDefinition(checks, d.profiles[i], d.profiles[i].profile.enabled);
      if !ok {
        assert d.profiles[i] in d.profiles;
        return;
      }
      assert d.profiles[..i + 1][..i] == d.profiles[..i];
      routeCount := routeCount + if d.profiles[i].profile.requestPath.Some? then 1 else 0;
      routeCount := routeCount + if d.profiles[i].profile.usagePath.Some? then 1 else 0;
    }
    assert d.profiles[..|d.profiles|] == d.profiles;
    return routeCount <= MAX_ROUTES;
  }
}
