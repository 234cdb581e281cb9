/** Validation and compilation of a configuration: validate_config_candidate
    (config_editing_service.cpp) and RuntimeCompiler::compile (runtime_compiler.cpp), two
    separate passes that must agree. */
module RuntimeCompilers {
  import opened Wrappers
  import opened Bytes
  import opened Ordering
  import opened HttpPaths
  import opened RouteTables
  import opened ConfigDocuments
  import opened ProtocolRegistries

  /** What both passes run against. The rule compiler and the log path resolver are
      functions of their inputs. */
  datatype Environment = Environment(
    checks: Checks,
    registry: Registry,
    pipelines: (seq<RuleDefinition>, Handler) -> Option<Text>,
    logPath: Text -> Option<Text>,
    rootIsAbsolute: bool)

  predicate SupportsRules(env: Environment, h: Handler, rules: seq<RuleDefinition>) {
    forall r :: r in rules && r.enabled && r.kind in env.registry.specialized ==> r.kind in h.specializedRules
  }

  /** validate_profile of the registry and of the handler. */
  ghost predicate HandlerAccepts(env: Environment, h: Handler, n: Named) {
    && DefinitionOk(env.checks, n, true)
    && n.profile.protocol == Some(h.id)
    && (n.profile.usagePath.Some? ==> h.supportsUsage)
    && SupportsRules(env, h, n.profile.rules)
  }

  predicate HasHandler(env: Environment, n: Named) {
    n.profile.protocol.Some? && n.profile.protocol.value in env.registry.handlers
  }

  function HandlerOf(env: Environment, n: Named): Handler
    requires HasHandler(env, n)
  {
    env.registry.handlers[n.profile.protocol.value]
  }

  predicate Buildable(env: Environment, n: Named) {
    HasHandler(env, n) && env.pipelines(n.profile.rules, HandlerOf(env, n)).Some? && Complete(n.profile)
  }

  ghost predicate Runnable(env: Environment, n: Named) {
    Buildable(env, n) && HandlerAccepts(env, HandlerOf(env, n), n)
  }

  /** What makes a profile runnable: a complete definition, a registered protocol whose
      handler has a usage route if the profile does and takes each of its enabled rules that
      some handler specializes in, and rules that compile for it. */
  lemma RunnableMeans(env: Environment, n: Named)
    requires RegistryOk(env.registry) && SpecializedOk(env.registry)
    ensures Runnable(env, n) <==>
      && DefinitionOk(env.checks, n, true)
      && n.profile.protocol.Some? && n.profile.protocol.value in env.registry.handlers
      && var h := env.registry.handlers[n.profile.protocol.value];
      && (n.profile.usagePath.Some? ==> h.supportsUsage)
      && env.pipelines(n.profile.rules, h).Some?
      && forall r, id | r in n.profile.rules && r.enabled && id in env.registry.handlers ::
        r.kind in env.registry.handlers[id].specializedRules ==> r.kind in h.specializedRules
  {
    if HasHandler(env, n) {
      var h := HandlerOf(env, n);
      hide PathOk, Canonical;
      if SupportsRules(env, h, n.profile.rules) {
        forall r, id | r in n.profile.rules && r.enabled && id in env.registry.handlers
                       && r.kind in env.registry.handlers[id].specializedRules
          ensures r.kind in h.specializedRules
        {
          assert r.kind in env.registry.specialized;
        }
      }
    }
  }

  ghost predicate AllRunnable(env: Environment, ns: seq<Named>) {
    forall n :: n in ns ==> Runnable(env, n)
  }

  // The routes a document asks for.

  function Compiled(env: Environment, n: Named): RuntimeProfile
    requires Buildable(env, n)
  {
    RuntimeProfile(n.id, Some(HandlerOf(env, n)), n.profile.enabled,
                   env.pipelines(n.profile.rules, HandlerOf(env, n)).value)
  }

  function RequestEntry(env: Environment, n: Named): RouteEntry
    requires Buildable(env, n)
  {
    RouteEntry(Some(Compiled(env, n)), Request, HandlerOf(env, n).requestMethod, n.profile.requestPath.value,
               Upstream(n.profile.baseUrl.value, n.profile.upstreamRequestPath.value))
  }

  function UsageEntry(env: Environment, n: Named): RouteEntry
    requires Buildable(env, n) && n.profile.usagePath.Some?
  {
    RouteEntry(Some(Compiled(env, n)), Usage, HandlerOf(env, n).usageMethod, n.profile.usagePath.value,
               Upstream(n.profile.baseUrl.value, n.profile.upstreamUsagePath.value))
  }

  function EntriesOf(env: Environment, n: Named): seq<RouteEntry>
    requires Buildable(env, n)
  {
    [RequestEntry(env, n)] + if n.profile.usagePath.Some? then [UsageEntry(env, n)] else []
  }

  ghost function Entries(env: Environment, ns: seq<Named>): seq<RouteEntry>
    requires AllRunnable(env, ns)
  {
    if ns == [] then []
    else
      assert ns[|ns| - 1] in ns;
      Entries(env, ns[..|ns| - 1]) + EntriesOf(env, ns[|ns| - 1])
  }

  ghost predicate AllAddable(es: seq<RouteEntry>) {
    forall e :: e in es ==> Addable(e)
  }

  ghost predicate DistinctKeys(es: seq<RouteEntry>) {
    forall i, k :: 0 <= i < k < |es| ==> KeyOf(es[i]) != KeyOf(es[k])
  }

  ghost function RoutesOf(es: seq<RouteEntry>): map<Key, RouteEntry> {
    if es == [] then map[]
    else RoutesOf(es[..|es| - 1])[KeyOf(es[|es| - 1]) := StoredForm(es[|es| - 1])]
  }

  /** Every route a runnable profile asks for can be added: what the second pass checks
      about one route, the first has already checked. */
  lemma RunnableIsAddable(env: Environment, n: Named)
    requires RegistryOk(env.registry) && Runnable(env, n)
    ensures AllAddable(EntriesOf(env, n))
    ensures Addable(RequestEntry(env, n)) && (n.profile.usagePath.Some? ==> Addable(UsageEntry(env, n)))
  {
    hide Canonical, IsReserved, ValidMethod;
    assert HandlerOk(HandlerOf(env, n));
    PathsAreNotEmpty(n.profile.upstreamRequestPath);
    PathsAreNotEmpty(n.profile.upstreamUsagePath);
  }

  lemma PathsAreNotEmpty(path: Option<Text>)
    requires PathOk(path, false)
    ensures path.Some? ==> path.value != []
  {}

  lemma {:induction false} EntriesAreAddable(env: Environment, ns: seq<Named>)
    requires RegistryOk(env.registry) && AllRunnable(env, ns)
    ensures AllAddable(Entries(env, ns))
  {
    hide HandlerAccepts, Addable, EntriesOf, RegistryOk;
    if ns != [] {
      EntriesAreAddable(env, ns[..|ns| - 1]);
      RunnableIsAddable(env, ns[|ns| - 1]);
    }
  }

  lemma {:induction false} EntriesPrefix(env: Environment, ns: seq<Named>, k: nat)
    requires AllRunnable(env, ns) && k <= |ns|
    ensures Entries(env, ns[..k]) <= Entries(env, ns)
    decreases |ns|
  {
    hide HandlerAccepts, EntriesOf;
    if k == |ns| {
      assert ns[..k] == ns;
    } else {
      EntriesPrefix(env, ns[..|ns| - 1], k);
      assert ns[..|ns| - 1][..k] == ns[..k];
    }
  }

  lemma EntriesNext(env: Environment, ns: seq<Named>, i: nat)
    requires i < |ns| && AllRunnable(env, ns[..i]) && Runnable(env, ns[i])
    ensures AllRunnable(env, ns[..i + 1])
    ensures Entries(env, ns[..i + 1]) == Entries(env, ns[..i]) + EntriesOf(env, ns[i])
  {
    hide HandlerAccepts, EntriesOf;
    assert ns[..i + 1] == ns[..i] + [ns[i]];
    assert ns[..i + 1][..i] == ns[..i];
  }

  /** The map has exactly the keys of the entries, and the entry under each. */
  lemma {:induction false} RoutesOfKeys(es: seq<RouteEntry>)
    ensures forall k :: k in RoutesOf(es) <==> exists i :: 0 <= i < |es| && KeyOf(es[i]) == k
    ensures DistinctKeys(es) ==> forall i :: 0 <= i < |es| ==>
      KeyOf(es[i]) in RoutesOf(es) && RoutesOf(es)[KeyOf(es[i])] == StoredForm(es[i])
  {
    hide Addable, KeyOf, StoredForm;
    if es != [] {
      var front, last := es[..|es| - 1], |es| - 1;
      RoutesOfKeys(front);
      assert forall i :: 0 <= i < last ==> front[i] == es[i];
      forall k | k in RoutesOf(es) ensures exists i :: 0 <= i < |es| && KeyOf(es[i]) == k {
        if k == KeyOf(es[last]) {
        } else {
          assert k in RoutesOf(front);
          var i :| 0 <= i < |front| && KeyOf(front[i]) == k;
          assert KeyOf(es[i]) == k;
        }
      }
    }
  }

  lemma DistinctStep(es: seq<RouteEntry>, e: RouteEntry)
    requires DistinctKeys(es)
    ensures DistinctKeys(es + [e]) <==> KeyOf(e) !in RoutesOf(es)
    ensures RoutesOf(es + [e]) == RoutesOf(es)[KeyOf(e) := StoredForm(e)]
  {
    hide Addable, KeyOf, StoredForm;
    RoutesOfKeys(es);
    assert (es + [e])[..|es|] == es;
    var all := es + [e];
    if KeyOf(e) in RoutesOf(es) {
      var i :| 0 <= i < |es| && KeyOf(es[i]) == KeyOf(e);
      assert KeyOf(all[i]) == KeyOf(all[|es|]);
    } else {
      forall i, k | 0 <= i < k < |all| ensures KeyOf(all[i]) != KeyOf(all[k]) {
        assert all[i] == es[i];
        if k < |es| { assert all[k] == es[k]; }
      }
    }
  }

  lemma DistinctPrefix(es: seq<RouteEntry>, all: seq<RouteEntry>)
    requires es <= all && DistinctKeys(all)
    ensures DistinctKeys(es)
  {
    hide KeyOf;
  }

  // compile.

  datatype CompileError =
    | RootNotAbsolute | BadDocument | UnknownSelection | SelectionIncomplete | NothingEnabled
    | BadLogPath | UnknownProtocol | ProfileRejected | RulesRejected | RouteRejected(reason: AddError)

  datatype RuntimeSnapshot = RuntimeSnapshot(logPath: Text, profiles: map<Text, RuntimeProfile>, routes: RouteTable)

  function EnabledOf(ns: seq<Named>): (r: seq<Named>)
    ensures forall n :: n in r <==> n in ns && n.profile.enabled
  {
    if ns == [] then []
    else EnabledOf(ns[..|ns| - 1]) + if ns[|ns| - 1].profile.enabled then [ns[|ns| - 1]] else []
  }

  function Find(ns: seq<Named>, id: Text): (r: Option<Named>)
    ensures r.Some? ==> r.value in ns && r.value.id == id
    ensures r.None? ==> forall n :: n in ns ==> n.id != id
  {
    if ns == [] then None else if ns[0].id == id then Some(ns[0]) else Find(ns[1..], id)
  }

  function Selected(d: ConfigDocument, selection: Option<Text>): seq<Named> {
    if selection.None? then EnabledOf(d.profiles)
    else
      var found := Find(d.profiles, selection.value);
      if found.Some? then [found.value] else []
  }

  /** When compile succeeds. */
  ghost predicate Compilable(env: Environment, d: ConfigDocument, selection: Option<Text>) {
    var selected := Selected(d, selection);
    && env.rootIsAbsolute
    && DocumentOk(env.checks, d)
    && selected != []
    && env.logPath(d.application).Some?
    && AllRunnable(env, selected)
    && DistinctKeys(Entries(env, selected))
  }

  /** The table holds exactly the routes the profiles ask for. */
  ghost predicate Routed(env: Environment, ns: seq<Named>, routes: map<Key, RouteEntry>) {
    && AllRunnable(env, ns)
    && DistinctKeys(Entries(env, ns))
    && routes == RoutesOf(Entries(env, ns))
  }

  /** The profiles of a snapshot, by id. */
  ghost predicate Published(env: Environment, ns: seq<Named>, profiles: map<Text, RuntimeProfile>) {
    && AllRunnable(env, ns)
    && (forall n :: n in ns ==> n.id in profiles)
    && (forall id :: id in profiles ==> exists n :: n in ns && n.id == id && profiles[id] == Compiled(env, n))
  }

  ghost predicate DistinctIds(ns: seq<Named>) {
    forall m, n :: m in ns && n in ns && m.id == n.id ==> m == n
  }

  /** With the distinct ids of a document, each profile is published under its own. */
  lemma PublishedUnderItsId(env: Environment, ns: seq<Named>, profiles: map<Text, RuntimeProfile>, n: Named)
    requires Published(env, ns, profiles) && DistinctIds(ns) && n in ns
    ensures n.id in profiles && profiles[n.id] == Compiled(env, n)
  {
    hide HandlerAccepts;
    var m :| m in ns && m.id == n.id && profiles[n.id] == Compiled(env, m);
  }

  lemma PublishedNext(env: Environment, ns: seq<Named>, i: nat, profiles: map<Text, RuntimeProfile>)
    requires i < |ns| && Published(env, ns[..i], profiles) && Runnable(env, ns[i])
    ensures Published(env, ns[..i + 1], if ns[i].id in profiles then profiles else profiles[ns[i].id := Compiled(env, ns[i])])
  {
    hide HandlerAccepts, Compiled;
    assert ns[..i + 1] == ns[..i] + [ns[i]];
    assert ns[i] in ns[..i + 1];
  }

  method ValidateProfile(env: Environment, h: Handler, n: Named) returns (ok: bool)
    ensures ok <==> HandlerAccepts(env, h, n)
  {
    hide DefinitionOk;
    ok := ValidateDefinition(env.checks, n, true);
    if !ok { return; }
    if n.profile.protocol != Some(h.id) { return false; }
    if n.profile.usagePath.Some? && !h.supportsUsage { return false; }
    return SupportsRules(env, h, n.profile.rules);
  }

  method AddEntry(ghost es: seq<RouteEntry>, e: RouteEntry, table: RouteTable) returns (r: Option<AddError>)
    requires Addable(e) && DistinctKeys(es)
    requires table.Valid() && table.routes == RoutesOf(es)
    modifies table
    ensures table.Valid()
    ensures r.None? <==> DistinctKeys(es + [e])
    ensures r.Some? ==> r == Some(Collision)
    ensures r.None? ==> table.routes == RoutesOf(es + [e])
  {
    hide Addable, DistinctKeys, RoutesOf, KeyOf, StoredForm;
    DistinctStep(es, e);
    r := table.Add(e);
  }

  /** The routes of one profile; the end of the loop body of compile. */
  method AddRoutes(env: Environment, ghost es: seq<RouteEntry>, n: Named, table: RouteTable) returns (r: Option<AddError>)
    requires RegistryOk(env.registry) && Runnable(env, n) && Buildable(env, n)
    requires table.Valid() && DistinctKeys(es) && table.routes == RoutesOf(es)
    modifies table
    ensures table.Valid()
    ensures r.None? <==> DistinctKeys(es + EntriesOf(env, n))
    ensures r.Some? ==> r == Some(Collision)
    ensures r.None? ==> table.routes == RoutesOf(es + EntriesOf(env, n))
  {
    hide *;
    ghost var all := EntriesOf(env, n);
    EntriesShape(env, n);
    RunnableIsAddable(env, n);
    var request := RequestEntry(env, n);
    assert all[0] == request;
    r := AddEntry(es, request, table);
    if r.Some? {
      assert es + [request] <= es + all;
      if DistinctKeys(es + all) { DistinctPrefix(es + [request], es + all); }
      return;
    }
    if n.profile.usagePath.None? {
      return;
    }
    var usage := UsageEntry(env, n);
    assert all[1] == usage;
    r := AddEntry(es + [request], usage, table);
    assert es + [request] + [usage] == es + all;
  }

  lemma EntriesShape(env: Environment, n: Named)
    requires Buildable(env, n)
    ensures n.profile.usagePath.None? ==> EntriesOf(env, n) == [RequestEntry(env, n)]
    ensures n.profile.usagePath.Some? ==> EntriesOf(env, n) == [RequestEntry(env, n), UsageEntry(env, n)]
  {}

  /** Two equal keys among the first routes are two equal keys among all. */
  lemma Collides(env: Environment, ns: seq<Named>, i: nat, es: seq<RouteEntry>)
    requires AllRunnable(env, ns) && i < |ns|
    requires es <= Entries(env, ns[..i + 1]) && !DistinctKeys(es)
    ensures !DistinctKeys(Entries(env, ns))
  {
    hide HandlerAccepts, KeyOf, EntriesOf, DistinctKeys, Entries;
    EntriesPrefix(env, ns, i + 1);
    if DistinctKeys(Entries(env, ns)) { DistinctPrefix(es, Entries(env, ns)); }
  }

  ghost predicate IncompleteSelection(env: Environment, d: ConfigDocument, selection: Option<Text>) {
    && selection.Some? && Selected(d, selection) != []
    && !DefinitionOk(env.checks, Selected(d, selection)[0], true)
  }

  ghost predicate HasProfiles(env: Environment, d: ConfigDocument, selection: Option<Text>) {
    && env.rootIsAbsolute && DocumentOk(env.checks, d)
    && Selected(d, selection) != [] && !IncompleteSelection(env, d, selection)
  }

  /** The profiles to compile. */
  method Select(env: Environment, d: ConfigDocument, selection: Option<Text>)
    returns (r: Result<seq<Named>, CompileError>)
    ensures r.Ok? ==> r.value == Selected(d, selection) && r.value != []
    ensures r.Err? ==> Selected(d, selection) == [] || !AllRunnable(env, Selected(d, selection))
    ensures r == Err(UnknownSelection) <==> selection.Some? && Selected(d, selection) == []
    ensures r == Err(NothingEnabled) <==> selection.None? && Selected(d, selection) == []
    ensures r == Err(SelectionIncomplete) <==> IncompleteSelection(env, d, selection)
    ensures r.Err? ==> r.error in {UnknownSelection, NothingEnabled, SelectionIncomplete}
  {
    hide DefinitionOk, HandlerAccepts, EnabledOf, Find;
    var selected := Selected(d, selection);
    if selection.Some? {
      if selected == [] { return Err(UnknownSelection); }
      var complete := ValidateDefinition(env.checks, selected[0], true);
      if !complete {
        NotAccepted(env, selected[0]);
        return Err(SelectionIncomplete);
      }
    }
    if selected == [] { return Err(NothingEnabled); }
    return Ok(selected);
  }

  ghost predicate RefusedForRules(env: Environment, n: Named) {
    HasHandler(env, n) && HandlerAccepts(env, HandlerOf(env, n), n) && env.pipelines(n.profile.rules, HandlerOf(env, n)).None?
  }

  /** The checks of one profile, up to its pipeline. */
  method CompileProfile(env: Environment, n: Named) returns (r: Result<RuntimeProfile, CompileError>)
    requires RegistryOk(env.registry)
    ensures r.Ok? <==> Runnable(env, n)
    ensures r.Ok? ==> r.value == Compiled(env, n)
    ensures r == Err(UnknownProtocol) <==> !HasHandler(env, n)
    ensures r == Err(ProfileRejected) <==> HasHandler(env, n) && !HandlerAccepts(env, HandlerOf(env, n), n)
    ensures r == Err(RulesRejected) <==> RefusedForRules(env, n)
    ensures r.Err? ==> r.error in {UnknownProtocol, ProfileRejected, RulesRejected}
  {
    if n.profile.protocol.None? || n.profile.protocol.value !in env.registry.handlers { return Err(UnknownProtocol); }
    var h := HandlerOf(env, n);
    var accepted := ValidateProfile(env, h, n);
    if !accepted { return Err(ProfileRejected); }
    AcceptedIsComplete(env, h, n);
    hide HandlerAccepts;
    if env.pipelines(n.profile.rules, h).None? { return Err(RulesRejected); }
    return Ok(Compiled(env, n));
  }

  lemma AcceptedIsComplete(env: Environment, h: Handler, n: Named)
    requires HandlerAccepts(env, h, n)
    ensures Complete(n.profile)
  {}

  /** What is wrong with a profile that is not runnable. */
  ghost predicate ProfileFault(env: Environment, n: Named, error: CompileError) {
    && (error == UnknownProtocol <==> !HasHandler(env, n))
    && (error == ProfileRejected <==> HasHandler(env, n) && !HandlerAccepts(env, HandlerOf(env, n), n))
    && (error == RulesRejected <==> RefusedForRules(env, n))
    && error in {UnknownProtocol, ProfileRejected, RulesRejected}
  }

  /** The loop of compile stops at the first profile that is refused or whose routes collide
      with those before it. */
  ghost predicate StopsAt(env: Environment, selected: seq<Named>, i: nat, error: CompileError)
    requires i < |selected|
  {
    && AllRunnable(env, selected[..i]) && DistinctKeys(Entries(env, selected[..i]))
    && (Runnable(env, selected[i]) ==>
        error == RouteRejected(Collision) && AllRunnable(env, selected[..i + 1]) && !DistinctKeys(Entries(env, selected[..i + 1])))
    && (!Runnable(env, selected[i]) ==> ProfileFault(env, selected[i], error))
  }

  /** The loop of compile. */
  method CompileProfiles(env: Environment, selected: seq<Named>, table: RouteTable)
    returns (r: Result<map<Text, RuntimeProfile>, CompileError>)
    requires RegistryOk(env.registry)
    requires table.Valid() && table.routes == map[]
    modifies table
    ensures r.Ok? <==> AllRunnable(env, selected) && DistinctKeys(Entries(env, selected))
    ensures r.Ok? ==> table.Valid() && Routed(env, selected, table.routes) && Published(env, selected, r.value)
    ensures r.Err? ==> exists i | 0 <= i < |selected| :: StopsAt(env, selected, i, r.error)
  {
    assert Published(env, [], map[]) && Routed(env, [], map[]);
    hide Runnable, DistinctKeys, Entries, RegistryOk, Published, HandlerAccepts, HasHandler, RefusedForRules;
    var profiles: map<Text, RuntimeProfile> := map[];
    assert selected[..0] == [];
    for i := 0 to |selected|
      invariant table.Valid() && Routed(env, selected[..i], table.routes) && Published(env, selected[..i], profiles)
    {
      var n := selected[i];
      assert n in selected;
      var compiled := CompileProfile(env, n);
      if compiled.Err? {
        assert ProfileFault(env, n, compiled.error);
        assert StopsAt(env, selected, i, compiled.error);
        return Err(compiled.error);
      }
      PublishedNext(env, selected, i, profiles);
      if n.id !in profiles { profiles := profiles[n.id := compiled.value]; }
      var error := ExtendRoutes(env, selected, i, table);
      if error.Some? {
        assert StopsAt(env, selected, i, RouteRejected(error.value));
        return Err(RouteRejected(error.value));
      }
    }
    assert selected[..|selected|] == selected;
    return Ok(profiles);
  }

  method ExtendRoutes(env: Environment, selected: seq<Named>, i: nat, table: RouteTable) returns (r: Option<AddError>)
    requires RegistryOk(env.registry) && i < |selected| && Runnable(env, selected[i])
    requires table.Valid() && Routed(env, selected[..i], table.routes)
    modifies table
    ensures table.Valid()
    ensures r.None? ==> Routed(env, selected[..i + 1], table.routes)
    ensures r.Some? ==> r == Some(Collision) && AllRunnable(env, selected[..i + 1]) && !DistinctKeys(Entries(env, selected[..i + 1]))
    ensures r.Some? && AllRunnable(env, selected) ==> !DistinctKeys(Entries(env, selected))
  {
    hide HandlerAccepts, DistinctKeys, Entries, EntriesOf, RegistryOk, RoutesOf;
    EntriesNext(env, selected, i);
    r := AddRoutes(env, Entries(env, selected[..i]), selected[i], table);
    if r.Some? {
      if AllRunnable(env, selected) { Collides(env, selected, i, Entries(env, selected[..i + 1])); }
    } else {
    }
  }

  method Compile(env: Environment, d: ConfigDocument, selection: Option<Text>)
    returns (r: Result<RuntimeSnapshot, CompileError>)
    requires RegistryOk(env.registry)
    ensures r.Ok? <==> Compilable(env, d, selection)
    ensures r.Ok? ==> fresh(r.value.routes) && r.value.routes.Valid()
    ensures r.Ok? ==> Routed(env, Selected(d, selection), r.value.routes.routes)
    ensures r.Ok? ==> Published(env, Selected(d, selection), r.value.profiles)
    ensures r.Ok? ==> Some(r.value.logPath) == env.logPath(d.application)
    ensures r == Err(RootNotAbsolute) <==> !env.rootIsAbsolute
    ensures r == Err(BadDocument) <==> env.rootIsAbsolute && !DocumentOk(env.checks, d)
    ensures env.rootIsAbsolute && DocumentOk(env.checks, d) ==>
      && (r == Err(UnknownSelection) <==> selection.Some? && Selected(d, selection) == [])
      && (r == Err(NothingEnabled) <==> selection.None? && Selected(d, selection) == [])
      && (r == Err(SelectionIncomplete) <==> IncompleteSelection(env, d, selection))
    ensures r == Err(BadLogPath) <==> HasProfiles(env, d, selection) && env.logPath(d.application).None?
    ensures r.Err? && HasProfiles(env, d, selection) && env.logPath(d.application).Some? ==>
      exists i | 0 <= i < |Selected(d, selection)| :: StopsAt(env, Selected(d, selection), i, r.error)
  {
    hide DocumentOk, HandlerAccepts, Routed, Published, DistinctKeys, Entries, RegistryOk, Selected;
    if !env.rootIsAbsolute { return Err(RootNotAbsolute); }
    var documentOk := ValidateDocument(env.checks, d);
    if !documentOk { return Err(BadDocument); }
    var selected := Select(env, d, selection);
    if selected.Err? { return Err(selected.error); }
    var logPath := env.logPath(d.application);
    if logPath.None? { return Err(BadLogPath); }
    var table := new RouteTable();
    var profiles := CompileProfiles(env, selected.value, table);
    if profiles.Err? { return Err(profiles.error); }
    return Ok(RuntimeSnapshot(logPath.value, profiles.value, table));
  }

  lemma NotAccepted(env: Environment, n: Named)
    requires !DefinitionOk(env.checks, n, true)
    ensures !Runnable(env, n)
  {}
}
