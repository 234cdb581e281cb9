/** validate_config_candidate (config_editing_service.cpp), which keeps its own map of
    routes, and what it promises about the compilation that follows. */
module ConfigCandidates {
  import opened Wrappers
  import opened Bytes
  import opened Ordering
  import opened HttpPaths
  import opened RouteTables
  import opened ConfigDocuments
  import opened ProtocolRegistries
  import opened RuntimeCompilers

  datatype ValidationError =
    | InvalidDocument | MissingProtocol | UnknownCandidateProtocol | InvalidProfile | InvalidRules
    | InvalidRoute | RouteCollision | InvalidLogPath | RuntimeCompileFailed

  datatype CandidateRoute = CandidateRoute(profileId: Text, kind: RouteKind)

  /** The key of the candidate map: method, a zero byte, path. */
  function CandidateKey(m: Text, path: Path): Text {
    m + [0] + path
  }

  lemma FirstZero(m: Text, p: Path)
    requires ValidMethod(m)
    ensures CandidateKey(m, p)[|m|] == 0 && forall i :: 0 <= i < |m| ==> CandidateKey(m, p)[i] != 0
  {
    forall i | 0 <= i < |m| ensures CandidateKey(m, p)[i] != 0 {
      assert m[i] in m;
    }
  }

  /** No method contains a zero byte, so the joined key tells methods and paths apart. */
  lemma CandidateKeyIsInjective(m: Text, p: Path, m': Text, p': Path)
    requires ValidMethod(m) && ValidMethod(m') && CandidateKey(m, p) == CandidateKey(m', p')
    ensures m == m' && p == p'
  {
    var k, k' := CandidateKey(m, p), CandidateKey(m', p');
    FirstZero(m, p);
    FirstZero(m', p');
    assert |m| == |m'|;
    assert k[..|m|] == m && k'[..|m|] == m';
    assert k[|m| + 1..] == p && k'[|m| + 1..] == p';
  }

  ghost function CandidateKeyOf(e: RouteEntry): Text {
    CandidateKey(e.method_, RoutePath(e))
  }

  /** The candidate map has the keys of these routes. */
  ghost predicate SameKeys(routes: map<Text, CandidateRoute>, es: seq<RouteEntry>) {
    && (forall i :: 0 <= i < |es| ==> CandidateKeyOf(es[i]) in routes)
    && (forall k :: k in routes ==> exists i :: 0 <= i < |es| && CandidateKeyOf(es[i]) == k)
  }

  /** Both passes see the same collisions. */
  lemma SameCollisions(routes: map<Text, CandidateRoute>, es: seq<RouteEntry>, e: RouteEntry, r: CandidateRoute)
    requires SameKeys(routes, es) && AllAddable(es) && Addable(e) && DistinctKeys(es)
    ensures CandidateKeyOf(e) in routes <==> !DistinctKeys(es + [e])
    ensures SameKeys(routes[CandidateKeyOf(e) := r], es + [e])
  {
    hide CandidateKeyOf, KeyOf, Addable;
    var all := es + [e];
    if CandidateKeyOf(e) in routes {
      var i :| 0 <= i < |es| && CandidateKeyOf(es[i]) == CandidateKeyOf(e);
      SameKeyBothWays(es[i], e);
      assert KeyOf(all[i]) == KeyOf(all[|es|]);
    } else {
      forall i, k | 0 <= i < k < |all| ensures KeyOf(all[i]) != KeyOf(all[k]) {
        assert all[i] == es[i];
        if k < |es| {
          assert all[k] == es[k];
        } else if KeyOf(es[i]) == KeyOf(e) {
          SameKeyBothWays(es[i], e);
          assert false;
        }
      }
    }
    var updated := routes[CandidateKeyOf(e) := r];
    forall k | k in updated ensures exists i :: 0 <= i < |all| && CandidateKeyOf(all[i]) == k {
      if k == CandidateKeyOf(e) {
        assert CandidateKeyOf(all[|es|]) == k;
      } else {
        var i :| 0 <= i < |es| && CandidateKeyOf(es[i]) == k;
        assert CandidateKeyOf(all[i]) == k;
      }
    }
  }

  lemma SameKeyBothWays(d: RouteEntry, e: RouteEntry)
    requires Addable(d) && Addable(e)
    ensures CandidateKeyOf(d) == CandidateKeyOf(e) <==> KeyOf(d) == KeyOf(e)
  {
    hide Canonical, IsReserved, CandidateKey, ValidMethod;
    if CandidateKeyOf(d) == CandidateKeyOf(e) {
      CandidateKeyIsInjective(d.method_, RoutePath(d), e.method_, RoutePath(e));
    }
  }

  method AddCandidateRoute(routes: map<Text, CandidateRoute>, m: Text, path: Text, profileId: Text, kind: RouteKind)
    returns (updated: map<Text, CandidateRoute>, error: Option<ValidationError>)
    ensures error == Some(InvalidRoute) <==> Canonical(path).Err?
    ensures error == Some(RouteCollision) <==> Canonical(path).Ok? && CandidateKey(m, Canonical(path).value) in routes
    ensures error.Some? ==> updated == routes && (error.value.InvalidRoute? || error.value.RouteCollision?)
    ensures error.None? ==> updated == routes[CandidateKey(m, Canonical(path).value) := CandidateRoute(profileId, kind)]
  {
    hide Canonical, CandidateKey;
    var canonical := Canonicalize(path);
    if canonical.Err? { return routes, Some(InvalidRoute); }
    var key := CandidateKey(m, canonical.value);
    if key in routes { return routes, Some(RouteCollision); }
    return routes[key := CandidateRoute(profileId, kind)], None;
  }

  predicate HasEnabledRule(rules: seq<RuleDefinition>) {
    exists r :: r in rules && r.enabled
  }

  /** A disabled profile without enabled rules may be incomplete. */
  predicate Asks(n: Named) {
    n.profile.enabled || exists r :: r in n.profile.rules && r.enabled
  }

  /** What the loop asks of one profile, apart from collisions. */
  ghost predicate Checked(env: Environment, n: Named) {
    (n.profile.enabled || HasEnabledRule(n.profile.rules)) ==>
      && HasHandler(env, n)
      && (n.profile.enabled ==> HandlerAccepts(env, HandlerOf(env, n), n))
      && env.pipelines(n.profile.rules, HandlerOf(env, n)).Some?
  }

  ghost predicate AllChecked(env: Environment, ns: seq<Named>) {
    forall n :: n in ns ==> Checked(env, n)
  }

  lemma CheckedIsRunnable(env: Environment, ns: seq<Named>)
    requires AllChecked(env, ns)
    ensures AllRunnable(env, EnabledOf(ns))
  {
    hide DefinitionOk, EnabledOf;
    forall n | n in EnabledOf(ns) ensures Runnable(env, n) {
      AcceptedIsComplete(env, HandlerOf(env, n), n);
    }
  }

  /** When validation accepts a candidate. */
  ghost predicate Acceptable(env: Environment, d: ConfigDocument) {
    && DocumentOk(env.checks, d)
    && AllChecked(env, d.profiles)
    && AllRunnable(env, EnabledOf(d.profiles))
    && DistinctKeys(Entries(env, EnabledOf(d.profiles)))
    && env.logPath(d.application).Some?
  }

  /** Whatever the profile loop and the log path check accept compiles, as soon as a
      profile is enabled and the root is absolute. */
  lemma AcceptableIsCompilable(env: Environment, d: ConfigDocument)
    requires DocumentOk(env.checks, d) && AllChecked(env, d.profiles) && env.logPath(d.application).Some?
    requires AllRunnable(env, EnabledOf(d.profiles)) ==> DistinctKeys(Entries(env, EnabledOf(d.profiles)))
    requires env.rootIsAbsolute && EnabledOf(d.profiles) != []
    ensures Compilable(env, d, None)
  {
    CheckedIsRunnable(env, d.profiles);
  }

  /** The loop's state after some profiles. */
  ghost predicate Seen(env: Environment, ns: seq<Named>, routes: map<Text, CandidateRoute>) {
    && AllChecked(env, ns)
    && AllRunnable(env, EnabledOf(ns))
    && DistinctKeys(Entries(env, EnabledOf(ns)))
    && SameKeys(routes, Entries(env, EnabledOf(ns)))
  }

  /** The checks of one profile. */
  method CheckProfile(env: Environment, n: Named) returns (error: Option<ValidationError>)
    requires RegistryOk(env.registry)
    ensures error.None? <==> Checked(env, n)
    ensures error.Some? ==> error.value in {MissingProtocol, UnknownCandidateProtocol, InvalidProfile, InvalidRules}
    ensures error == Some(MissingProtocol) <==> Asks(n) && n.profile.protocol.None?
    ensures error == Some(UnknownCandidateProtocol) <==>
      Asks(n) && n.profile.protocol.Some? && n.profile.protocol.value !in env.registry.handlers
    ensures error == Some(InvalidProfile) <==>
      n.profile.enabled && HasHandler(env, n) && !HandlerAccepts(env, HandlerOf(env, n), n)
    ensures error == Some(InvalidRules) <==>
      && Asks(n) && HasHandler(env, n) && (n.profile.enabled ==> HandlerAccepts(env, HandlerOf(env, n), n))
      && env.pipelines(n.profile.rules, HandlerOf(env, n)).None?
  {
    hide HandlerAccepts;
    if !n.profile.enabled && !HasEnabledRule(n.profile.rules) { return None; }
    if n.profile.protocol.None? { return Some(MissingProtocol); }
    if n.profile.protocol.value !in env.registry.handlers { return Some(UnknownCandidateProtocol); }
    var h := HandlerOf(env, n);
    if n.profile.enabled {
      var accepted := ValidateProfile(env, h, n);
      if !accepted { return Some(InvalidProfile); }
    }
    if env.pipelines(n.profile.rules, h).None? { return Some(InvalidRules); }
    return None;
  }

  /** One route of the candidate. */
  method AddEntryCandidate(ghost es: seq<RouteEntry>, e: RouteEntry, id: Text, routes: map<Text, CandidateRoute>)
    returns (updated: map<Text, CandidateRoute>, error: Option<ValidationError>)
    requires AllAddable(es) && Addable(e) && DistinctKeys(es) && SameKeys(routes, es)
    ensures error.None? <==> DistinctKeys(es + [e])
    ensures error.None? ==> SameKeys(updated, es + [e])
    ensures error.Some? ==> error.value == RouteCollision
  {
    AddableRoute(e);
    hide Addable, DistinctKeys, SameKeys, AllAddable, Canonical, CandidateKey;
    SameCollisions(routes, es, e, CandidateRoute(id, e.kind));
    updated, error := AddCandidateRoute(routes, e.method_, e.localPath, id, e.kind);
  }

  lemma AddableRoute(e: RouteEntry)
    requires Addable(e)
    ensures Canonical(e.localPath).Ok? && CandidateKeyOf(e) == CandidateKey(e.method_, Canonical(e.localPath).value)
  {}

  /** The routes of one enabled profile. */
  method AddProfileRoutes(env: Environment, ghost es: seq<RouteEntry>, n: Named, routes: map<Text, CandidateRoute>)
    returns (updated: map<Text, CandidateRoute>, error: Option<ValidationError>)
    requires RegistryOk(env.registry) && Runnable(env, n) && Buildable(env, n)
    requires AllAddable(es) && DistinctKeys(es) && SameKeys(routes, es)
    ensures error.None? <==> DistinctKeys(es + EntriesOf(env, n))
    ensures error.None? ==> SameKeys(updated, es + EntriesOf(env, n))
    ensures error.Some? ==> error.value == RouteCollision
  {
    hide *;
    ghost var all := EntriesOf(env, n);
    EntriesShape(env, n);
    RunnableIsAddable(env, n);
    var request := RequestEntry(env, n);
    assert all[0] == request;
    updated, error := AddEntryCandidate(es, request, n.id, routes);
    if error.Some? {
      assert es + [request] <= es + all;
      if DistinctKeys(es + all) { DistinctPrefix(es + [request], es + all); }
      return;
    }
    if n.profile.usagePath.None? { return; }
    var usage := UsageEntry(env, n);
    assert all[1] == usage;
    MoreAddable(es, request);
    updated, error := AddEntryCandidate(es + [request], usage, n.id, updated);
    assert es + [request] + [usage] == es + all;
  }

  lemma MoreAddable(es: seq<RouteEntry>, e: RouteEntry)
    requires AllAddable(es) && Addable(e)
    ensures AllAddable(es + [e])
  {}

  /** One more profile: skipped when disabled, added when enabled. */
  lemma EnabledNext(env: Environment, ns: seq<Named>, i: nat)
    requires i < |ns|
    ensures EnabledOf(ns[..i + 1]) == EnabledOf(ns[..i]) + if ns[i].profile.enabled then [ns[i]] else []
    ensures EnabledOf(ns[..i + 1]) <= EnabledOf(ns)
  {
    assert ns[..i + 1][..i] == ns[..i];
    EnabledPrefix(ns, i + 1);
  }

  lemma {:induction false} EnabledPrefix(ns: seq<Named>, k: nat)
    requires k <= |ns|
    ensures EnabledOf(ns[..k]) <= EnabledOf(ns)
    decreases |ns|
  {
    if k == |ns| {
      assert ns[..k] == ns;
    } else {
      EnabledPrefix(ns[..|ns| - 1], k);
      assert ns[..|ns| - 1][..k] == ns[..k];
    }
  }

  lemma {:induction false} EntriesConcat(env: Environment, ns: seq<Named>, n: Named)
    requires AllRunnable(env, ns) && Runnable(env, n)
    ensures AllRunnable(env, ns + [n])
    ensures Entries(env, ns + [n]) == Entries(env, ns) + EntriesOf(env, n)
  {
    hide Runnable, EntriesOf;
    assert (ns + [n])[..|ns|] == ns;
  }

  // Main results about the table of a compiled snapshot.

  lemma {:induction false} EntryOrigin(env: Environment, ns: seq<Named>, e: RouteEntry)
    requires AllRunnable(env, ns)
    ensures e in Entries(env, ns) <==> exists n :: n in ns && Runnable(env, n) && e in EntriesOf(env, n)
  {
    hide HandlerAccepts, EntriesOf;
    if ns != [] {
      var front, last := ns[..|ns| - 1], ns[|ns| - 1];
      assert ns == front + [last];
      EntryOrigin(env, front, e);
    }
  }

  /** Each compiled profile is found under its request path, and under its usage path,
      with its own handler, kind and upstream. */
  lemma EveryProfileIsServed(env: Environment, ns: seq<Named>, routes: map<Key, RouteEntry>, n: Named)
    requires Routed(env, ns, routes) && n in ns
    ensures Runnable(env, n)
    ensures var e := RequestEntry(env, n); KeyOf(e) in routes && routes[KeyOf(e)] == StoredForm(e)
    ensures n.profile.usagePath.Some? ==>
      var e := UsageEntry(env, n); KeyOf(e) in routes && routes[KeyOf(e)] == StoredForm(e)
  {
    assert Runnable(env, n);
    EntriesShape(env, n);
    hide HandlerAccepts, KeyOf, StoredForm, Entries, RoutesOf, DistinctKeys, EntriesOf, RequestEntry, UsageEntry;
    Served(env, ns, n, RequestEntry(env, n));
    if n.profile.usagePath.Some? { Served(env, ns, n, UsageEntry(env, n)); }
  }

  lemma Served(env: Environment, ns: seq<Named>, n: Named, e: RouteEntry)
    requires AllRunnable(env, ns) && DistinctKeys(Entries(env, ns)) && n in ns && Runnable(env, n)
    requires e in EntriesOf(env, n)
    ensures KeyOf(e) in RoutesOf(Entries(env, ns)) && RoutesOf(Entries(env, ns))[KeyOf(e)] == StoredForm(e)
  {
    hide HandlerAccepts, KeyOf, StoredForm, Entries, RoutesOf, DistinctKeys, EntriesOf;
    EntryOrigin(env, ns, e);
    RoutesOfKeys(Entries(env, ns));
    var i :| 0 <= i < |Entries(env, ns)| && Entries(env, ns)[i] == e;
  }

  /** And nothing else is found. */
  lemma NothingElseIsServed(env: Environment, ns: seq<Named>, routes: map<Key, RouteEntry>, k: Key)
    requires Routed(env, ns, routes) && k in routes
    ensures exists n, e :: n in ns && Runnable(env, n) && e in EntriesOf(env, n) && KeyOf(e) == k && routes[k] == StoredForm(e)
  {
    hide HandlerAccepts, KeyOf, StoredForm, Entries, RoutesOf, DistinctKeys, EntriesOf;
    var es := Entries(env, ns);
    RoutesOfKeys(es);
    var i :| 0 <= i < |es| && KeyOf(es[i]) == k;
    EntryOrigin(env, ns, es[i]);
  }

  /** The entry leads to this profile: its id, the handler registered for its protocol, its
      own switch, and the pipeline compiled from its rules for that handler. */
  predicate CarriesProfile(env: Environment, n: Named, e: RouteEntry) {
    && e.profile.Some? && n.profile.protocol.Some? && n.profile.protocol.value in env.registry.handlers
    && var handler := env.registry.handlers[n.profile.protocol.value];
    && e.profile.value.id == n.id && e.profile.value.handler == Some(handler)
    && e.profile.value.sourceEnabled == n.profile.enabled
    && Some(e.profile.value.pipeline) == env.pipelines(n.profile.rules, handler)
  }

  /** End to end: whatever spelling of a profile's path a request uses, the table answers
      with that profile, kind and upstream. */
  lemma LookupServesProfile(env: Environment, ns: seq<Named>, routes: map<Key, RouteEntry>, n: Named, path: Path, r: RouteLookup)
    requires Routed(env, ns, routes) && n in ns && Runnable(env, n)
    requires Answers(routes, HandlerOf(env, n).requestMethod, path, r)
    requires Canonical(path).Ok? && Canonical(path) == Canonical(n.profile.requestPath.value)
    ensures r.Matched? && r.entry.profile == Some(Compiled(env, n)) && r.entry.kind == Request
    ensures r.entry.upstream == Upstream(n.profile.baseUrl.value, n.profile.upstreamRequestPath.value)
    ensures CarriesProfile(env, n, r.entry) && Ok(r.entry.localPath) == Canonical(n.profile.requestPath.value)
  {
    hide Canonical, Routed, HandlerAccepts;
    EveryProfileIsServed(env, ns, routes, n);
  }

  lemma LookupServesUsage(env: Environment, ns: seq<Named>, routes: map<Key, RouteEntry>, n: Named, path: Path, r: RouteLookup)
    requires Routed(env, ns, routes) && n in ns && Runnable(env, n) && n.profile.usagePath.Some?
    requires Answers(routes, HandlerOf(env, n).usageMethod, path, r)
    requires Canonical(path).Ok? && Canonical(path) == Canonical(n.profile.usagePath.value)
    ensures r.Matched? && r.entry.profile == Some(Compiled(env, n)) && r.entry.kind == Usage
    ensures r.entry.upstream == Upstream(n.profile.baseUrl.value, n.profile.upstreamUsagePath.value)
    ensures CarriesProfile(env, n, r.entry) && Ok(r.entry.localPath) == Canonical(n.profile.usagePath.value)
  {
    hide Canonical, Routed, HandlerAccepts;
    EveryProfileIsServed(env, ns, routes, n);
  }

  /** The request route of a profile answers this method and path, or its usage route. */
  ghost predicate Serves(env: Environment, n: Named, m: Text, path: Path, e: RouteEntry)
    requires Runnable(env, n)
  {
    && e.profile == Some(Compiled(env, n))
    && match e.kind
       case Request =>
         && m == HandlerOf(env, n).requestMethod && Canonical(path) == Canonical(n.profile.requestPath.value)
         && e.upstream == Upstream(n.profile.baseUrl.value, n.profile.upstreamRequestPath.value)
       case Usage =>
         && n.profile.usagePath.Some?
         && m == HandlerOf(env, n).usageMethod && Canonical(path) == Canonical(n.profile.usagePath.value)
         && e.upstream == Upstream(n.profile.baseUrl.value, n.profile.upstreamUsagePath.value)
  }

  /** Whatever the table matches is the request or usage route of a compiled profile, under
      one of the spellings of its path. */
  lemma LookupServesNothingElse(env: Environment, ns: seq<Named>, routes: map<Key, RouteEntry>, m: Text, path: Path, r: RouteLookup)
    requires RegistryOk(env.registry) && Routed(env, ns, routes)
    requires Answers(routes, m, path, r) && r.Matched?
    ensures exists n :: n in ns && Runnable(env, n) && Serves(env, n, m, path, r.entry) && CarriesProfile(env, n, r.entry)
  {
    hide Canonical, Routed, HandlerAccepts, RegistryOk;
    NothingElseIsServed(env, ns, routes, (m, Canonical(path).value));
    var n, e :| n in ns && Runnable(env, n) && e in EntriesOf(env, n)
      && KeyOf(e) == (m, Canonical(path).value) && r.entry == StoredForm(e);
    RunnableIsAddable(env, n);
    assert Addable(e);
    EntriesShape(env, n);
    assert Serves(env, n, m, path, r.entry) && CarriesProfile(env, n, r.entry);
  }

  // The whole validation.

  method ValidateProfiles(env: Environment, ns: seq<Named>) returns (error: Option<ValidationError>)
    requires RegistryOk(env.registry)
    ensures error.None? <==>
      && AllChecked(env, ns) && AllRunnable(env, EnabledOf(ns)) && DistinctKeys(Entries(env, EnabledOf(ns)))
    ensures error.Some? ==>
      error.value in {MissingProtocol, UnknownCandidateProtocol, InvalidProfile, InvalidRules, RouteCollision}
  {
    var routes: map<Text, CandidateRoute> := map[];
    assert ns[..0] == [] && Seen(env, [], map[]);
    hide Checked, AllRunnable, DistinctKeys, Entries, RegistryOk, EnabledOf, SameKeys;
    for i := 0 to |ns|
      invariant Seen(env, ns[..i], routes)
    {
      var n := ns[i];
      assert n in ns;
      error := CheckProfile(env, n);
      if error.Some? { return; }
      error, routes := SeeProfile(env, ns, i, routes);
      if error.Some? { return; }
    }
    assert ns[..|ns|] == ns;
    return None;
  }

  lemma CheckedNext(env: Environment, ns: seq<Named>, i: nat)
    requires i < |ns| && AllChecked(env, ns[..i]) && Checked(env, ns[i])
    ensures AllChecked(env, ns[..i + 1])
  {
    hide Checked;
    assert ns[..i + 1] == ns[..i] + [ns[i]];
  }

  lemma EnabledCheckedIsRunnable(env: Environment, n: Named)
    requires Checked(env, n) && n.profile.enabled
    ensures Runnable(env, n)
  {
    AcceptedIsComplete(env, HandlerOf(env, n), n);
  }

  /** The rest of the loop body for a profile that passed its checks. */
  method SeeProfile(env: Environment, ns: seq<Named>, i: nat, routes: map<Text, CandidateRoute>)
    returns (error: Option<ValidationError>, updated: map<Text, CandidateRoute>)
    requires RegistryOk(env.registry) && i < |ns| && Checked(env, ns[i])
    requires Seen(env, ns[..i], routes)
    ensures error.None? ==> Seen(env, ns[..i + 1], updated)
    ensures error.Some? ==> error.value == RouteCollision
    ensures error.Some? && AllRunnable(env, EnabledOf(ns)) ==> !DistinctKeys(Entries(env, EnabledOf(ns)))
  {
    hide AllChecked, Checked, AllRunnable, Runnable, DistinctKeys, SameKeys, Entries, EntriesOf, EnabledOf, RegistryOk, AllAddable;
    var n := ns[i];
    CheckedNext(env, ns, i);
    EnabledNext(env, ns, i);
    if !n.profile.enabled {
      assert EnabledOf(ns[..i + 1]) == EnabledOf(ns[..i]);
      return None, routes;
    }
    EnabledCheckedIsRunnable(env, n);
    EntriesConcat(env, EnabledOf(ns[..i]), n);
    EntriesAreAddable(env, EnabledOf(ns[..i]));
    updated, error := AddProfileRoutes(env, Entries(env, EnabledOf(ns[..i])), n, routes);
    if error.None? {
    } else if AllRunnable(env, EnabledOf(ns)) {
      CollidesEnabled(env, EnabledOf(ns), EnabledOf(ns[..i + 1]));
    }
  }

  lemma CollidesEnabled(env: Environment, ns: seq<Named>, prefix: seq<Named>)
    requires AllRunnable(env, ns) && prefix <= ns && AllRunnable(env, prefix) && !DistinctKeys(Entries(env, prefix))
    ensures !DistinctKeys(Entries(env, ns))
  {
    hide HandlerAccepts, DistinctKeys, Entries;
    assert ns[..|prefix|] == prefix;
    EntriesPrefix(env, ns, |prefix|);
    if DistinctKeys(Entries(env, ns)) { DistinctPrefix(Entries(env, prefix), Entries(env, ns)); }
  }

  /** validate_config_candidate. Its last stage, a trial compilation, never fails for an
      absolute root. */
  method Validate(env: Environment, d: ConfigDocument) returns (error: Option<ValidationError>)
    requires RegistryOk(env.registry)
    ensures error.None? <==> Acceptable(env, d) && (env.rootIsAbsolute || EnabledOf(d.profiles) == [])
    ensures error == Some(InvalidDocument) <==> !DocumentOk(env.checks, d)
    ensures error == Some(InvalidLogPath) <==>
      && DocumentOk(env.checks, d) && env.logPath(d.application).None?
      && AllChecked(env, d.profiles) && AllRunnable(env, EnabledOf(d.profiles))
      && DistinctKeys(Entries(env, EnabledOf(d.profiles)))
    ensures error == Some(RuntimeCompileFailed) <==>
      Acceptable(env, d) && !env.rootIsAbsolute && EnabledOf(d.profiles) != []
    ensures error.None? && EnabledOf(d.profiles) != [] ==> Compilable(env, d, None)
  {
    hide DocumentOk, Checked, AllRunnable, DistinctKeys, Entries, RegistryOk, EnabledOf;
    var documentOk := ValidateDocument(env.checks, d);
    if !documentOk { return Some(InvalidDocument); }
    error := ValidateProfiles(env, d.profiles);
    if error.Some? { return; }
    if env.logPath(d.application).None? { return Some(InvalidLogPath); }
    if EnabledOf(d.profiles) != [] {
      if env.rootIsAbsolute { AcceptableIsCompilable(env, d); }
      var compiled := Compile(env, d, None);
      if compiled.Err? { return Some(RuntimeCompileFailed); }
    }
    return None;
  }
}
