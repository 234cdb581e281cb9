/** RouteTable (route_table.cpp): routes by canonical path, then by method. */
module RouteTables {
  import opened Wrappers
  import opened Bytes
  import opened Ordering
  import opened HttpPaths

  datatype Handler = Handler(
    id: Text, requestMethod: Text, usageMethod: Text, supportsUsage: bool, specializedRules: set<Text>)

  datatype RuntimeProfile = RuntimeProfile(
    id: Text, handler: Option<Handler>, sourceEnabled: bool, pipeline: Text)

  datatype RouteKind = Request | Usage

  datatype Upstream = Upstream(baseUrl: Text, path: Text)

  datatype RouteEntry = RouteEntry(
    profile: Option<RuntimeProfile>, kind: RouteKind, method_: Text, localPath: Path, upstream: Upstream)

  datatype AddError =
    | NoProfile | NoHandler | BadMethod | BadPath(reason: PathError) | Reserved | Incomplete | Collision

  datatype RouteLookup =
    | Matched(entry: RouteEntry)
    | MethodNotAllowed(allowed: seq<Text>)
    | NotFound
    | InvalidPath(reason: PathError)

  predicate ValidMethod(m: Text) {
    1 <= |m| <= 32 && forall b :: b in m ==> 0x41 <= b <= 0x5A || 0x30 <= b <= 0x39 || b == 0x2D
  }

  /** "/_ccs-trans". */
  const RESERVED: Path := [0x2F, 0x5F, 0x63, 0x63, 0x73, 0x2D, 0x74, 0x72, 0x61, 0x6E, 0x73]

  predicate IsReserved(canonical: Path) {
    canonical == RESERVED || RESERVED + [SLASH] <= canonical
  }

  predicate ReadsAs(p: seq<Byte>, text: string) {
    |p| == |text| && forall i :: 0 <= i < |p| ==> p[i] as char == text[i]
  }

  /** Neither the reserved path itself nor anything below it. */
  predicate Outside(p: Path) {
    !ReadsAs(p, "/_ccs-trans") && !(|p| >= 12 && ReadsAs(p[..12], "/_ccs-trans/"))
  }

  lemma ReservedPaths(p: Path)
    ensures IsReserved(p) <==> !Outside(p)
  {
    assert ReadsAs(RESERVED, "/_ccs-trans") && ReadsAs(RESERVED + [SLASH], "/_ccs-trans/");
    if |p| >= 12 && RESERVED + [SLASH] <= p { assert p[..12] == RESERVED + [SLASH]; }
    if |p| >= 12 && ReadsAs(p[..12], "/_ccs-trans/") { assert p[..12] == RESERVED + [SLASH]; }
  }

  /** A method is up to 32 capital letters, digits and hyphens. */
  lemma MethodBytes(m: Text)
    ensures ValidMethod(m) <==> m != [] && |m| <= 32 && forall b :: b in m ==> IsMethodChar(b as char)
  {}

  predicate IsMethodChar(c: char) { 'A' <= c <= 'Z' || '0' <= c <= '9' || c == '-' }

  ghost predicate Addable(e: RouteEntry) {
    && e.profile.Some? && e.profile.value.handler.Some?
    && ValidMethod(e.method_)
    && Canonical(e.localPath).Ok? && !IsReserved(Canonical(e.localPath).value)
    && e.upstream.baseUrl != [] && e.upstream.path != []
  }

  /** The first check that a route which cannot be added fails. */
  ghost function Refusal(e: RouteEntry): (r: Option<AddError>)
    ensures r.None? <==> Addable(e)
    ensures r == Some(NoProfile) <==> e.profile.None?
    ensures r == Some(NoHandler) <==> e.profile.Some? && e.profile.value.handler.None?
    ensures r == Some(BadMethod) <==> e.profile.Some? && e.profile.value.handler.Some? && !ValidMethod(e.method_)
    ensures forall reason :: r == Some(BadPath(reason)) ==> Canonical(e.localPath) == Err(reason)
    ensures r == Some(Reserved) ==> Canonical(e.localPath).Ok? && IsReserved(Canonical(e.localPath).value)
    ensures r == Some(Incomplete) ==> e.upstream.baseUrl == [] || e.upstream.path == []
  {
    if e.profile.None? then Some(NoProfile)
    else if e.profile.value.handler.None? then Some(NoHandler)
    else if !ValidMethod(e.method_) then Some(BadMethod)
    else if Canonical(e.localPath).Err? then Some(BadPath(Canonical(e.localPath).error))
    else if IsReserved(Canonical(e.localPath).value) then Some(Reserved)
    else if e.upstream.baseUrl == [] || e.upstream.path == [] then Some(Incomplete)
    else None
  }

  type Key = (Text, Path)

  /** The canonical path of a route; of one that cannot be added, nothing. */
  ghost function RoutePath(e: RouteEntry): Path {
    if Canonical(e.localPath).Ok? then Canonical(e.localPath).value else []
  }

  ghost function KeyOf(e: RouteEntry): Key {
    (e.method_, RoutePath(e))
  }

  ghost function StoredForm(e: RouteEntry): RouteEntry {
    e.(localPath := RoutePath(e))
  }

  /** What looking up a method and a path in these routes has to answer. */
  ghost predicate Answers(routes: map<Key, RouteEntry>, m: Text, path: Path, r: RouteLookup) {
    match r
    case InvalidPath(reason) => Canonical(path) == Err(reason)
    case Matched(entry) => Canonical(path).Ok? && (m, Canonical(path).value) in routes && entry == routes[(m, Canonical(path).value)]
    case MethodNotAllowed(allowed) =>
      && Canonical(path).Ok? && (m, Canonical(path).value) !in routes
      && StrictlySorted(allowed) && allowed != []
      && forall x :: x in allowed <==> (x, Canonical(path).value) in routes
    case NotFound => Canonical(path).Ok? && forall x :: (x, Canonical(path).value) !in routes
  }

  // The sorted list of allowed methods.

  ghost predicate StrictlySorted(methods: seq<Text>) {
    forall i, k :: 0 <= i < k < |methods| ==> LexLess(methods[i], methods[k])
  }

  /** push_back and sort. */
  function InsertMethod(methods: seq<Text>, m: Text): (r: seq<Text>)
    ensures forall x :: x in r <==> x == m || x in methods
  {
    if methods == [] then [m]
    else if LexLeq(methods[0], m) then [methods[0]] + InsertMethod(methods[1..], m)
    else [m] + methods
  }

  lemma {:induction false} InsertKeepsSorted(methods: seq<Text>, m: Text)
    requires StrictlySorted(methods) && m !in methods
    ensures StrictlySorted(InsertMethod(methods, m))
  {
    if methods != [] {
      LexTotal(methods[0], m);
      if LexLeq(methods[0], m) {
        InsertKeepsSorted(methods[1..], m);
        var rest := InsertMethod(methods[1..], m);
        forall x | x in rest ensures LexLess(methods[0], x) {
          if x != m { assert x in methods[1..]; }
        }
      } else {
        forall x | x in methods ensures LexLess(m, x) {
          if x != methods[0] { LessTransitive(m, methods[0], x); }
        }
      }
    }
  }

  datatype PathRoutes = PathRoutes(byMethod: map<Text, RouteEntry>, allowed: seq<Text>)

  ghost predicate PathRoutesOk(p: PathRoutes) {
    StrictlySorted(p.allowed) && forall m :: m in p.allowed <==> m in p.byMethod
  }

  /** The nested maps hold exactly these routes. */
  ghost predicate Holds(nested: map<Path, PathRoutes>, routes: map<Key, RouteEntry>) {
    && (forall p :: p in nested ==> PathRoutesOk(nested[p]) && nested[p].allowed != [])
    && (forall p, m :: p in nested && m in nested[p].byMethod ==>
          (m, p) in routes && routes[(m, p)] == nested[p].byMethod[m])
    && (forall k :: k in routes ==> k.1 in nested && k.0 in nested[k.1].byMethod)
  }

  lemma AllowedAdded(at: PathRoutes, m: Text, e: RouteEntry)
    requires PathRoutesOk(at) && m !in at.byMethod
    ensures PathRoutesOk(PathRoutes(at.byMethod[m := e], InsertMethod(at.allowed, m)))
  {
    InsertKeepsSorted(at.allowed, m);
  }

  function At(nested: map<Path, PathRoutes>, p: Path): PathRoutes {
    if p in nested then nested[p] else PathRoutes(map[], [])
  }

  lemma HoldsAdded(nested: map<Path, PathRoutes>, routes: map<Key, RouteEntry>, p: Path, m: Text, e: RouteEntry)
    requires Holds(nested, routes) && (m, p) !in routes
    ensures m !in At(nested, p).byMethod
    ensures Holds(nested[p := PathRoutes(At(nested, p).byMethod[m := e], InsertMethod(At(nested, p).allowed, m))],
                  routes[(m, p) := e])
  {
    assert PathRoutesOk(PathRoutes(map[], []));
    hide InsertMethod, StrictlySorted, PathRoutesOk;
    var at := At(nested, p);
    assert PathRoutesOk(at);
    assert m !in at.byMethod;
    AllowedAdded(at, m, e);
    var added := PathRoutes(at.byMethod[m := e], InsertMethod(at.allowed, m));
    assert m in added.allowed;
    var nested', routes' := nested[p := added], routes[(m, p) := e];
    forall q, k | q in nested' && k in nested'[q].byMethod
      ensures (k, q) in routes' && routes'[(k, q)] == nested'[q].byMethod[k]
    {
      if (k, q) != (m, p) { assert q in nested && k in nested[q].byMethod; }
    }
    forall k | k in routes' ensures k.1 in nested' && k.0 in nested'[k.1].byMethod {
      if k != (m, p) { assert k in routes; }
    }
  }

  class RouteTable {
    var routesByPath: map<Path, PathRoutes>
    var size: nat
    ghost var routes: map<Key, RouteEntry>

    ghost predicate Valid()
      reads this
    {
      Holds(routesByPath, routes) && size == |routes|
    }

    constructor ()
      ensures Valid() && routes == map[]
    {
      routesByPath, size, routes := map[], 0, map[];
    }

    method Add(entry: RouteEntry) returns (r: Option<AddError>)
      requires Valid()
      modifies this
      ensures Valid()
      ensures r.None? <==> Addable(entry) && KeyOf(entry) !in old(routes)
      ensures r.None? ==> routes == old(routes)[KeyOf(entry) := StoredForm(entry)] && size == old(size) + 1
      ensures r.Some? ==> routes == old(routes) && size == old(size)
      ensures r == Some(Collision) <==> Addable(entry) && KeyOf(entry) in old(routes)
      ensures r.Some? && r != Some(Collision) ==> r == Refusal(entry)
    {
      hide Canonical, ValidMethod, IsReserved, Holds, InsertMethod, StrictlySorted;
      if entry.profile.None? { return Some(NoProfile); }
      if entry.profile.value.handler.None? { return Some(NoHandler); }
      if !ValidMethod(entry.method_) { return Some(BadMethod); }
      var canonical := Canonicalize(entry.localPath);
      if canonical.Err? { return Some(BadPath(canonical.error)); }
      var path := canonical.value;
      if IsReserved(path) { return Some(Reserved); }
      if entry.upstream.baseUrl == [] || entry.upstream.path == [] { return Some(Incomplete); }
      var at := At(routesByPath, path);
      if entry.method_ in at.byMethod {
        HasRoute(path, entry.method_);
        return Some(Collision);
      }
      NoRoute(path, entry.method_);
      ghost var stored := entry.(localPath := path);
      HoldsAdded(routesByPath, routes, path, entry.method_, stored);
      routesByPath := routesByPath[path := PathRoutes(
        at.byMethod[entry.method_ := entry.(localPath := path)], InsertMethod(at.allowed, entry.method_))];
      routes := routes[(entry.method_, path) := stored];
      size := size + 1;
      return None;
    }

    lemma HasRoute(p: Path, m: Text)
      requires Valid() && p in routesByPath && m in routesByPath[p].byMethod
      ensures (m, p) in routes
    {}

    lemma NoRoute(p: Path, m: Text)
      requires Valid() && (p !in routesByPath || m !in routesByPath[p].byMethod)
      ensures (m, p) !in routes
    {}

    method Lookup(m: Text, path: Path) returns (r: RouteLookup)
      requires Valid()
      ensures Answers(routes, m, path, r)
    {
      hide Canonical;
      var canonical := Canonicalize(path);
      if canonical.Err? { return InvalidPath(canonical.error); }
      if canonical.value !in routesByPath { return NotFound; }
      var at := routesByPath[canonical.value];
      if m in at.byMethod { return Matched(at.byMethod[m]); }
      return MethodNotAllowed(at.allowed);
    }
  }
}
