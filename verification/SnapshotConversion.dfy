/** Stored profiles to configuration document and back (configuration_snapshot.cpp). The
    document is a map from id, so the stored order survives only through the positions. */
module SnapshotConversions {
  import opened Wrappers
  import opened Bytes
  import opened Ordering
  import opened ConfigDocuments

  datatype StoredRule = StoredRule(key: int, ruleId: Text, enabled: bool, kind: Text, optionsJson: Text)

  datatype StoredProfile = StoredProfile(
    key: int, profileId: Text, enabled: bool, protocol: Option<Text>,
    localRequestPath: Option<Text>, localUsagePath: Option<Text>,
    upstreamBaseUrl: Option<Text>, upstreamRequestPath: Option<Text>, upstreamUsagePath: Option<Text>,
    rules: seq<StoredRule>)

  /** The JSON library on option objects: parse refuses what is not an object, dump what
      is not valid UTF-8. Nothing is assumed about how they relate. */
  datatype Codec = Codec(parse: Text -> Option<map<Text, Text>>, dump: map<Text, Text> -> Option<Text>)

  datatype ConversionError = BadRule | DuplicateId | BadDocument

  const NO_POSITION := 0xFFFF_FFFF_FFFF_FFFF

  // Rules.

  function RuleOf(codec: Codec, stored: StoredRule): Option<RuleDefinition> {
    var options := codec.parse(stored.optionsJson);
    if options.None? || codec.dump(options.value) != Some(stored.optionsJson) then None
    else Some(RuleDefinition(stored.ruleId, stored.enabled, stored.kind, options.value, stored.key))
  }

  function StoredRuleOf(codec: Codec, rule: RuleDefinition): Option<StoredRule> {
    var text := codec.dump(rule.options);
    if text.None? then None
    else Some(StoredRule(rule.storageKey, rule.id, rule.enabled, rule.kind, text.value))
  }

  function RulesOf(codec: Codec, stored: seq<StoredRule>): Option<seq<RuleDefinition>> {
    if stored == [] then Some([])
    else
      var front, last := RulesOf(codec, stored[..|stored| - 1]), RuleOf(codec, stored[|stored| - 1]);
      if front.None? || last.None? then None else Some(front.value + [last.value])
  }

  function StoredRulesOf(codec: Codec, rules: seq<RuleDefinition>): Option<seq<StoredRule>> {
    if rules == [] then Some([])
    else
      var front, last := StoredRulesOf(codec, rules[..|rules| - 1]), StoredRuleOf(codec, rules[|rules| - 1]);
      if front.None? || last.None? then None else Some(front.value + [last.value])
  }

  /** Rule order, keys and option text survive. */
  lemma {:induction false} RulesRoundTrip(codec: Codec, stored: seq<StoredRule>)
    requires RulesOf(codec, stored).Some?
    ensures StoredRulesOf(codec, RulesOf(codec, stored).value) == Some(stored)
  {
    if stored != [] {
      var front := stored[..|stored| - 1];
      RulesRoundTrip(codec, front);
      var rules := RulesOf(codec, stored).value;
      assert rules[..|rules| - 1] == RulesOf(codec, front).value;
      assert front + [stored[|stored| - 1]] == stored;
    }
  }

  // Profiles.

  function DefinitionOf(codec: Codec, p: StoredProfile, position: nat): Option<Named> {
    var rules := RulesOf(codec, p.rules);
    if rules.None? then None
    else
      Some(Named(p.profileId, ProfileDefinition(
        p.enabled, p.protocol, p.localRequestPath, p.localUsagePath,
        p.upstreamBaseUrl, p.upstreamRequestPath, p.upstreamUsagePath,
        rules.value, p.key, Some(position))))
  }

  function StoredOf(codec: Codec, n: Named): Option<StoredProfile> {
    var rules := StoredRulesOf(codec, n.profile.rules);
    if rules.None? then None
    else
      Some(StoredProfile(
        n.profile.storageKey, n.id, n.profile.enabled, n.profile.protocol,
        n.profile.requestPath, n.profile.usagePath,
        n.profile.baseUrl, n.profile.upstreamRequestPath, n.profile.upstreamUsagePath,
        rules.value))
  }

  lemma ProfileRoundTrip(codec: Codec, p: StoredProfile, position: nat)
    requires DefinitionOf(codec, p, position).Some?
    ensures StoredOf(codec, DefinitionOf(codec, p, position).value) == Some(p)
    ensures Position(DefinitionOf(codec, p, position).value) == position
  {
    RulesRoundTrip(codec, p.rules);
  }

  /** A stored rule becomes a definition exactly when its option text is an object that
      prints as it stands; then every field is carried over. */
  lemma RuleCarries(codec: Codec, s: StoredRule)
    ensures RuleOf(codec, s).Some? <==>
      codec.parse(s.optionsJson).Some? && codec.dump(codec.parse(s.optionsJson).value) == Some(s.optionsJson)
    ensures RuleOf(codec, s).Some? ==>
      var r := RuleOf(codec, s).value;
      && r.id == s.ruleId && r.enabled == s.enabled && r.kind == s.kind && r.storageKey == s.key
      && Some(r.options) == codec.parse(s.optionsJson)
  {}

  /** Every field of a stored profile goes to its own field of the definition. */
  lemma DefinitionCarries(codec: Codec, p: StoredProfile, position: nat)
    ensures DefinitionOf(codec, p, position).Some? <==> RulesOf(codec, p.rules).Some?
    ensures DefinitionOf(codec, p, position).Some? ==>
      var n := DefinitionOf(codec, p, position).value;
      && n.id == p.profileId && n.profile.enabled == p.enabled && n.profile.protocol == p.protocol
      && n.profile.requestPath == p.localRequestPath && n.profile.usagePath == p.localUsagePath
      && n.profile.baseUrl == p.upstreamBaseUrl
      && n.profile.upstreamRequestPath == p.upstreamRequestPath && n.profile.upstreamUsagePath == p.upstreamUsagePath
      && Some(n.profile.rules) == RulesOf(codec, p.rules)
      && n.profile.storageKey == p.key && n.profile.storagePosition == Some(position)
  {}

  /** Rules keep their places. */
  lemma {:induction false} RulesInPlace(codec: Codec, stored: seq<StoredRule>)
    ensures RulesOf(codec, stored).Some? <==> forall i :: 0 <= i < |stored| ==> RuleOf(codec, stored[i]).Some?
    ensures RulesOf(codec, stored).Some? ==>
      && |RulesOf(codec, stored).value| == |stored|
      && forall i :: 0 <= i < |stored| ==> RuleOf(codec, stored[i]) == Some(RulesOf(codec, stored).value[i])
  {
    hide RuleOf;
    if stored != [] { RulesInPlace(codec, stored[..|stored| - 1]); }
  }

  function Position(n: Named): nat {
    if n.profile.storagePosition.Some? then n.profile.storagePosition.value else NO_POSITION
  }

  // The ordered map from id.

  ghost predicate ById(ns: seq<Named>) {
    forall i, k :: 0 <= i < k < |ns| ==> LexLess(ns[i].id, ns[k].id)
  }

  ghost predicate HasId(ns: seq<Named>, id: Text) {
    exists n :: n in ns && n.id == id
  }

  /** The place of an id in the map: everything before it is smaller. */
  method FindPlace(ns: seq<Named>, id: Text) returns (place: nat, present: bool)
    requires ById(ns)
    ensures place <= |ns|
    ensures present <==> HasId(ns, id)
    ensures !present ==> forall i :: 0 <= i < place ==> LexLess(ns[i].id, id)
    ensures !present ==> forall i :: place <= i < |ns| ==> LexLess(id, ns[i].id)
  {
    place := 0;
    while place < |ns| && LexLess(ns[place].id, id)
      invariant 0 <= place <= |ns|
      invariant forall i :: 0 <= i < place ==> LexLess(ns[i].id, id)
    {
      place := place + 1;
    }
    present := place < |ns| && ns[place].id == id;
    Above(ns, place, id);
    if !present {
      forall n | n in ns ensures n.id != id {}
    } else {
      assert ns[place] in ns;
    }
  }

  lemma Above(ns: seq<Named>, place: nat, id: Text)
    requires ById(ns) && place <= |ns|
    requires place < |ns| ==> !LexLess(ns[place].id, id)
    ensures forall i :: place <= i < |ns| && ns[place].id != id ==> LexLess(id, ns[i].id)
  {
    if place < |ns| && ns[place].id != id {
      LexTotal(ns[place].id, id);
      forall i | place <= i < |ns| ensures LexLess(id, ns[i].id) {
        if i > place { LessTransitive(id, ns[place].id, ns[i].id); }
      }
    }
  }

  lemma PlacedMembers(ns: seq<Named>, place: nat, n: Named)
    requires place <= |ns|
    ensures multiset(ns[..place] + [n] + ns[place..]) == multiset(ns) + multiset{n}
  {
    assert ns == ns[..place] + ns[place..];
  }

  lemma PlacedById(ns: seq<Named>, place: nat, n: Named)
    requires ById(ns) && place <= |ns|
    requires forall i :: 0 <= i < place ==> LexLess(ns[i].id, n.id)
    requires forall i :: place <= i < |ns| ==> LexLess(n.id, ns[i].id)
    ensures ById(ns[..place] + [n] + ns[place..])
    ensures multiset(ns[..place] + [n] + ns[place..]) == multiset(ns) + multiset{n}
  {
    hide LexLess;
    PlacedMembers(ns, place, n);
    var all := ns[..place] + [n] + ns[place..];
    forall i, k | 0 <= i < k < |all| ensures LexLess(all[i].id, all[k].id) {
      assert all[i] == if i < place then ns[i] else if i == place then n else ns[i - 1];
      assert all[k] == if k < place then ns[k] else if k == place then n else ns[k - 1];
    }
  }

  // From stored profiles to the document.

  ghost predicate Convertible(codec: Codec, ps: seq<StoredProfile>) {
    && (forall i :: 0 <= i < |ps| ==> DefinitionOf(codec, ps[i], i).Some?)
    && (forall i, k :: 0 <= i < k < |ps| ==> ps[i].profileId != ps[k].profileId)
  }

  function DefinitionsOf(codec: Codec, ps: seq<StoredProfile>): seq<Named> {
    if ps == [] then []
    else
      var last := DefinitionOf(codec, ps[|ps| - 1], |ps| - 1);
      DefinitionsOf(codec, ps[..|ps| - 1]) + if last.Some? then [last.value] else []
  }

  /** The document holds the definitions of the stored profiles, keyed by id. */
  ghost predicate Represents(codec: Codec, ps: seq<StoredProfile>, ns: seq<Named>) {
    Convertible(codec, ps) && ById(ns) && multiset(ns) == multiset(DefinitionsOf(codec, ps))
  }

  lemma {:induction false} DefinitionsAt(codec: Codec, ps: seq<StoredProfile>)
    requires Convertible(codec, ps)
    ensures |DefinitionsOf(codec, ps)| == |ps|
    ensures forall i :: 0 <= i < |ps| ==> Some(DefinitionsOf(codec, ps)[i]) == DefinitionOf(codec, ps[i], i)
  {
    hide DefinitionOf;
    if ps != [] {
      DefinitionsAt(codec, ps[..|ps| - 1]);
    }
  }

  lemma RepresentsNext(codec: Codec, ps: seq<StoredProfile>, p: StoredProfile, ns: seq<Named>, ns': seq<Named>)
    requires Represents(codec, ps, ns) && DefinitionOf(codec, p, |ps|).Some?
    requires !HasId(ns, p.profileId) && ById(ns')
    requires multiset(ns') == multiset(ns) + multiset{DefinitionOf(codec, p, |ps|).value}
    ensures Represents(codec, ps + [p], ns')
  {
    assert (ps + [p])[..|ps|] == ps;
    assert DefinitionsOf(codec, ps + [p]) == DefinitionsOf(codec, ps) + [DefinitionOf(codec, p, |ps|).value];
    hide ById, DefinitionsOf, DefinitionOf;
    ConvertibleNext(codec, ps, p, ns);
  }

  lemma ConvertibleNext(codec: Codec, ps: seq<StoredProfile>, p: StoredProfile, ns: seq<Named>)
    requires Represents(codec, ps, ns) && DefinitionOf(codec, p, |ps|).Some?
    requires !HasId(ns, p.profileId)
    ensures Convertible(codec, ps + [p])
  {
    hide ById, DefinitionsOf, DefinitionOf;
    DefinitionsAt(codec, ps);
    forall i | 0 <= i < |ps| ensures ps[i].profileId != p.profileId {
      var n := DefinitionsOf(codec, ps)[i];
      IdOfDefinition(codec, ps[i], i);
      assert n in multiset(DefinitionsOf(codec, ps));
      assert n in multiset(ns) && n in ns;
    }
  }

  lemma DuplicateIsNotConvertible(codec: Codec, ps: seq<StoredProfile>, i: nat, ns: seq<Named>)
    requires i < |ps| && Represents(codec, ps[..i], ns) && HasId(ns, ps[i].profileId)
    ensures !Convertible(codec, ps) && exists k :: 0 <= k < i && ps[k].profileId == ps[i].profileId
  {
    hide ById;
    DefinitionsAt(codec, ps[..i]);
    var n :| n in ns && n.id == ps[i].profileId;
    assert n in multiset(ns) && n in DefinitionsOf(codec, ps[..i]);
    var k :| 0 <= k < i && DefinitionsOf(codec, ps[..i])[k] == n;
    assert ps[..i][k] == ps[k];
  }

  /** configuration_snapshot_to_config_document. */
  method ToDocument(codec: Codec, checks: Checks, application: Text, ps: seq<StoredProfile>)
    returns (r: Result<ConfigDocument, ConversionError>)
    ensures r.Ok? ==> r.value.application == application && Represents(codec, ps, r.value.profiles)
    ensures r.Ok? ==> DocumentOk(checks, r.value)
    ensures r.Err? && !r.error.BadDocument? ==> !Convertible(codec, ps)
    ensures r == Err(BadRule) ==> exists i :: 0 <= i < |ps| && DefinitionOf(codec, ps[i], i).None?
    ensures r == Err(DuplicateId) ==> exists i, k :: 0 <= i < k < |ps| && ps[i].profileId == ps[k].profileId
    ensures r == Err(BadDocument) ==> exists ns ::
      Represents(codec, ps, ns) && !DocumentOk(checks, ConfigDocument(application, ns))
  {
    hide DocumentOk, ById, HasId, DefinitionOf, LexLess;
    var ns := [];
    NothingStored(codec);
    assert ps[..0] == [];
    for i := 0 to |ps|
      invariant Represents(codec, ps[..i], ns)
    {
      assert ps[..i + 1] == ps[..i] + [ps[i]];
      var definition := DefinitionOf(codec, ps[i], i);
      if definition.None? { return Err(BadRule); }
      var place, present := FindPlace(ns, ps[i].profileId);
      if present {
        DuplicateIsNotConvertible(codec, ps, i, ns);
        return Err(DuplicateId);
      }
      IdOfDefinition(codec, ps[i], i);
      PlacedById(ns, place, definition.value);
      ghost var before := ns;
      ns := ns[..place] + [definition.value] + ns[place..];
      RepresentsNext(codec, ps[..i], ps[i], before, ns);
    }
    assert ps[..|ps|] == ps;
    var d := ConfigDocument(application, ns);
    var ok := ValidateDocument(checks, d);
    if !ok { return Err(BadDocument); }
    return Ok(d);
  }

  lemma NothingStored(codec: Codec)
    ensures Represents(codec, [], [])
  {}

  lemma IdOfDefinition(codec: Codec, p: StoredProfile, i: nat)
    requires DefinitionOf(codec, p, i).Some?
    ensures DefinitionOf(codec, p, i).value.id == p.profileId
  {}

  // From the document back to stored profiles.

  function InsertStable(n: Named, ns: seq<Named>): seq<Named> {
    if ns == [] then [n]
    else if Position(n) <= Position(ns[0]) then [n] + ns
    else [ns[0]] + InsertStable(n, ns[1..])
  }

  /** std::stable_sort by position. */
  function StableSort(ns: seq<Named>): seq<Named> {
    if ns == [] then [] else InsertStable(ns[0], StableSort(ns[1..]))
  }

  predicate Before(a: Named, b: Named) {
    Position(a) < Position(b) || (Position(a) == Position(b) && LexLess(a.id, b.id))
  }

  ghost predicate InOrder(ns: seq<Named>) {
    forall i, k :: 0 <= i < k < |ns| ==> Before(ns[i], ns[k])
  }

  lemma InOrderTail(ns: seq<Named>)
    requires InOrder(ns) && ns != []
    ensures InOrder(ns[1..]) && forall m :: m in ns[1..] ==> Before(ns[0], m)
  {
    hide Before;
  }

  lemma InOrderCons(n: Named, ns: seq<Named>)
    requires InOrder(ns) && forall m :: m in ns ==> Before(n, m)
    ensures InOrder([n] + ns)
  {
    hide Before;
  }

  lemma BeforeAll(n: Named, ns: seq<Named>)
    requires ns != [] && InOrder(ns) && Position(n) <= Position(ns[0])
    requires forall m :: m in ns ==> LexLess(n.id, m.id)
    ensures forall m :: m in ns ==> Before(n, m)
  {
    hide LexLess, Position;
    forall m | m in ns ensures Before(n, m) {
      var i :| 0 <= i < |ns| && ns[i] == m;
      if i > 0 { assert Before(ns[0], ns[i]); }
    }
  }

  lemma {:induction false} InsertedMembers(n: Named, ns: seq<Named>)
    ensures multiset(InsertStable(n, ns)) == multiset(ns) + multiset{n}
    ensures forall m :: m in InsertStable(n, ns) ==> m == n || m in ns
  {
    hide Position;
    if ns != [] {
      assert ns == [ns[0]] + ns[1..];
      InsertedMembers(n, ns[1..]);
    }
  }

  lemma {:induction false} InsertStableOrder(n: Named, ns: seq<Named>)
    requires InOrder(ns) && forall m :: m in ns ==> LexLess(n.id, m.id)
    ensures InOrder(InsertStable(n, ns))
  {
    assert InOrder([n]);
    hide LexLess, Position, InOrder;
    if ns == [] {
    } else if Position(n) <= Position(ns[0]) {
      BeforeAll(n, ns);
      InOrderCons(n, ns);
    } else {
      InOrderTail(ns);
      InsertStableOrder(n, ns[1..]);
      InsertedMembers(n, ns[1..]);
      InOrderCons(ns[0], InsertStable(n, ns[1..]));
    }
  }

  /** The sorted list: by position, and by id among equal positions. */
  lemma {:induction false} StableSortOrder(ns: seq<Named>)
    requires ById(ns)
    ensures InOrder(StableSort(ns)) && multiset(StableSort(ns)) == multiset(ns)
  {
    hide LexLess;
    if ns != [] {
      StableSortOrder(ns[1..]);
      assert ns == [ns[0]] + ns[1..];
      forall m | m in StableSort(ns[1..]) ensures LexLess(ns[0].id, m.id) {
        assert m in multiset(StableSort(ns[1..]));
        assert m in ns[1..];
      }
      InsertStableOrder(ns[0], StableSort(ns[1..]));
      InsertedMembers(ns[0], StableSort(ns[1..]));
    }
  }

  /** Profiles without a position come after all that have one, in the order of their
      ids. */
  lemma UnpositionedComeLast(ns: seq<Named>, i: nat, k: nat)
    requires ById(ns) && i < k < |StableSort(ns)|
    requires forall n :: n in ns && n.profile.storagePosition.Some? ==> n.profile.storagePosition.value < NO_POSITION
    requires StableSort(ns)[i].profile.storagePosition.None?
    ensures StableSort(ns)[k].profile.storagePosition.None?
    ensures LexLess(StableSort(ns)[i].id, StableSort(ns)[k].id)
  {
    StableSortOrder(ns);
    var sorted := StableSort(ns);
    assert sorted[k] in multiset(sorted);
    assert sorted[k] in ns;
    assert Before(sorted[i], sorted[k]);
  }

  function AllStored(codec: Codec, ns: seq<Named>): Option<seq<StoredProfile>> {
    if ns == [] then Some([])
    else
      var front, last := AllStored(codec, ns[..|ns| - 1]), StoredOf(codec, ns[|ns| - 1]);
      if front.None? || last.None? then None else Some(front.value + [last.value])
  }

  /** config_document_to_stored_profiles. The source converts first and sorts the pairs of
      position and result; here the definitions are sorted and converted in that order. */
  method ToStored(codec: Codec, checks: Checks, d: ConfigDocument)
    returns (r: Result<seq<StoredProfile>, ConversionError>)
    ensures r.Ok? <==> DocumentOk(checks, d) && AllStored(codec, StableSort(d.profiles)).Some?
    ensures r.Ok? ==> Some(r.value) == AllStored(codec, StableSort(d.profiles))
    ensures r == Err(BadDocument) <==> !DocumentOk(checks, d)
    ensures r.Err? ==> r.error in {BadDocument, BadRule}
  {
    hide DocumentOk, StoredOf, StableSort;
    var ok := ValidateDocument(checks, d);
    if !ok { return Err(BadDocument); }
    var ordered := StableSort(d.profiles);
    var converted := [];
    assert ordered[..0] == [];
    for i := 0 to |ordered|
      invariant AllStored(codec, ordered[..i]) == Some(converted)
    {
      assert ordered[..i + 1][..i] == ordered[..i];
      var stored := StoredOf(codec, ordered[i]);
      if stored.None? {
        NoneStays(codec, ordered, i + 1);
        return Err(BadRule);
      }
      converted := converted + [stored.value];
    }
    assert ordered[..|ordered|] == ordered;
    return Ok(converted);
  }

  lemma {:induction false} NoneStays(codec: Codec, ns: seq<Named>, k: nat)
    requires k <= |ns| && AllStored(codec, ns[..k]).None?
    ensures AllStored(codec, ns).None?
    decreases |ns|
  {
    hide StoredOf;
    if k < |ns| {
      assert ns[..|ns| - 1][..k] == ns[..k];
      NoneStays(codec, ns[..|ns| - 1], k);
    } else {
      assert ns[..k] == ns;
    }
  }

  // The round trip.

  /** Strictly rising positions that are all below the length are 0, 1, 2, ... */
  lemma {:induction false} PositionsAreIndexes(ns: seq<Named>, bound: nat)
    requires |ns| == bound
    requires forall i, k :: 0 <= i < k < |ns| ==> Position(ns[i]) < Position(ns[k])
    requires forall i :: 0 <= i < |ns| ==> Position(ns[i]) < bound
    ensures forall i :: 0 <= i < |ns| ==> Position(ns[i]) == i
  {
    hide Position;
    forall i | 0 <= i < |ns| ensures Position(ns[i]) == i {
      Rises(ns, i);
      Leaves(ns, i, bound);
    }
  }

  lemma {:induction false} Rises(ns: seq<Named>, i: nat)
    requires forall i, k :: 0 <= i < k < |ns| ==> Position(ns[i]) < Position(ns[k])
    requires i < |ns|
    ensures Position(ns[i]) >= i
  {
    hide Position;
    if i > 0 {
      Rises(ns, i - 1);
      assert Position(ns[i - 1]) < Position(ns[i]);
    }
  }

  lemma {:induction false} Leaves(ns: seq<Named>, i: nat, bound: nat)
    requires forall i, k :: 0 <= i < k < |ns| ==> Position(ns[i]) < Position(ns[k])
    requires i < |ns| == bound && forall i :: 0 <= i < |ns| ==> Position(ns[i]) < bound
    ensures Position(ns[i]) + (|ns| - i) <= bound
    decreases |ns| - i
  {
    hide Position;
    if i + 1 < |ns| {
      Leaves(ns, i + 1, bound);
      assert Position(ns[i]) < Position(ns[i + 1]);
    }
  }

  /** Sorting the document by position restores the order of the stored profiles. */
  lemma SortRestoresOrder(codec: Codec, ps: seq<StoredProfile>, ns: seq<Named>)
    requires Represents(codec, ps, ns)
    ensures StableSort(ns) == DefinitionsOf(codec, ps)
  {
    hide StableSort, DefinitionsOf, DefinitionOf, LexLess;
    var sorted, defs := StableSort(ns), DefinitionsOf(codec, ps);
    StableSortOrder(ns);
    DefinitionsAt(codec, ps);
    SameSize(sorted, defs);
    forall k | 0 <= k < |sorted| ensures Position(sorted[k]) < |ps| && defs[Position(sorted[k])] == sorted[k] {
      assert sorted[k] in multiset(sorted) && sorted[k] in defs;
      var i :| 0 <= i < |defs| && defs[i] == sorted[k];
      PositionOfDefinition(codec, ps[i], i);
    }
    forall i, k | 0 <= i < k < |sorted| ensures Position(sorted[i]) < Position(sorted[k]) {
      assert Before(sorted[i], sorted[k]);
      if Position(sorted[i]) == Position(sorted[k]) {
        assert sorted[i] == sorted[k];
        NotLess(sorted[i].id);
      }
    }
    PositionsAreIndexes(sorted, |ps|);
  }

  lemma NotLess(id: Text)
    ensures !LexLess(id, id)
  {}

  lemma SameSize(a: seq<Named>, b: seq<Named>)
    requires multiset(a) == multiset(b)
    ensures |a| == |b|
  {
    assert |multiset(a)| == |a| && |multiset(b)| == |b|;
  }

  lemma PositionOfDefinition(codec: Codec, p: StoredProfile, i: nat)
    requires DefinitionOf(codec, p, i).Some?
    ensures Position(DefinitionOf(codec, p, i).value) == i
  {}

  lemma {:induction false} AllRoundTrip(codec: Codec, ps: seq<StoredProfile>)
    requires Convertible(codec, ps)
    ensures AllStored(codec, DefinitionsOf(codec, ps)) == Some(ps)
  {
    if ps != [] {
      hide DefinitionOf, StoredOf, Convertible;
      var front, last := ps[..|ps| - 1], |ps| - 1;
      ConvertibleFront(codec, ps);
      AllRoundTrip(codec, front);
      ProfileRoundTrip(codec, ps[last], last);
      DefinitionsAt(codec, front);
      var defs := DefinitionsOf(codec, front) + [DefinitionOf(codec, ps[last], last).value];
      assert DefinitionsOf(codec, ps) == defs && defs[..last] == DefinitionsOf(codec, front);
      assert front + [ps[last]] == ps;
    }
  }

  lemma ConvertibleFront(codec: Codec, ps: seq<StoredProfile>)
    requires Convertible(codec, ps) && ps != []
    ensures Convertible(codec, ps[..|ps| - 1]) && DefinitionOf(codec, ps[|ps| - 1], |ps| - 1).Some?
  {
    hide DefinitionOf;
  }

  /** Stored profiles that convert to a document come back unchanged: order, storage keys,
      rule order and option text. */
  lemma StoredRoundTrip(codec: Codec, checks: Checks, ps: seq<StoredProfile>, d: ConfigDocument)
    requires Represents(codec, ps, d.profiles) && DocumentOk(checks, d)
    ensures AllStored(codec, StableSort(d.profiles)) == Some(ps)
  {
    hide DocumentOk;
    SortRestoresOrder(codec, ps, d.profiles);
    AllRoundTrip(codec, ps);
  }
}
