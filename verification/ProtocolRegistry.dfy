/** The protocol registry (protocol_registry.cpp): the handlers by id, and the rule types
    that some of them specialize in. */
module ProtocolRegistries {
  import opened Ordering
  import opened RouteTables

  datatype Registry = Registry(handlers: map<Text, Handler>, specialized: set<Text>)

  ghost predicate RegistryOk(r: Registry) {
    forall id :: id in r.handlers ==> HandlerOk(r.handlers[id]) && r.handlers[id].id == id
  }

  predicate HandlerOk(h: Handler) {
    ValidMethod(h.requestMethod) && (h.supportsUsage ==> ValidMethod(h.usageMethod))
  }

  /** The specialized rules are those of the registered handlers, no more and no fewer. */
  ghost predicate SpecializedOk(r: Registry) {
    forall kind :: kind in r.specialized <==> exists id :: id in r.handlers && kind in r.handlers[id].specializedRules
  }

  function Registered(r: Registry, h: Handler): Registry {
    Registry(r.handlers[h.id := h], r.specialized + h.specializedRules)
  }

  lemma RegisteredIsOk(r: Registry, h: Handler)
    requires RegistryOk(r) && SpecializedOk(r) && HandlerOk(h) && h.id !in r.handlers
    ensures RegistryOk(Registered(r, h)) && SpecializedOk(Registered(r, h))
  {
    hide HandlerOk;
    var t := Registered(r, h);
    forall kind | kind in t.specialized
      ensures exists id :: id in t.handlers && kind in t.handlers[id].specializedRules
    {
      if kind in h.specializedRules {
        assert kind in t.handlers[h.id].specializedRules;
      } else {
        var id :| id in r.handlers && kind in r.handlers[id].specializedRules;
        assert kind in t.handlers[id].specializedRules;
      }
    }
  }

  class ProtocolRegistry {
    var handlers: map<Text, Handler>
    var specialized: set<Text>

    ghost function Contents(): Registry
      reads this
    {
      Registry(handlers, specialized)
    }

    constructor ()
      ensures Contents() == Registry(map[], {})
    {
      handlers, specialized := map[], {};
    }

    /** register_handler. */
    method RegisterHandler(h: Handler) returns (ok: bool)
      modifies this
      ensures ok <==> HandlerOk(h) && h.id !in old(handlers)
      ensures Contents() == if ok then Registered(old(Contents()), h) else old(Contents())
      ensures old(RegistryOk(Contents()) && SpecializedOk(Contents())) ==> RegistryOk(Contents()) && SpecializedOk(Contents())
    {
      hide HandlerOk, RegistryOk, SpecializedOk;
      if !HandlerOk(h) || h.id in handlers { return false; }
      ghost var before := Contents();
      handlers := handlers[h.id := h];
      specialized := specialized + h.specializedRules;
      if RegistryOk(before) && SpecializedOk(before) { RegisteredIsOk(before, h); }
      return true;
    }
  }

  function Ids(hs: seq<Handler>): set<Text> {
    if hs == [] then {} else Ids(hs[..|hs| - 1]) + {hs[|hs| - 1].id}
  }

  /** Every handler is sound and has an id of its own. */
  predicate Registrable(hs: seq<Handler>) {
    || hs == []
    || (Registrable(hs[..|hs| - 1]) && HandlerOk(hs[|hs| - 1]) && hs[|hs| - 1].id !in Ids(hs[..|hs| - 1]))
  }

  lemma {:induction false} RegistrablePrefix(hs: seq<Handler>, n: nat)
    requires n <= |hs| && Registrable(hs)
    ensures Registrable(hs[..n])
  {
    if n == |hs| {
      assert hs[..n] == hs;
    } else {
      RegistrablePrefix(hs[..|hs| - 1], n);
      assert hs[..|hs| - 1][..n] == hs[..n];
    }
  }

  /** The registry finds exactly these handlers, each under its own id. */
  ghost predicate Holds(r: Registry, hs: seq<Handler>) {
    r.handlers.Keys == Ids(hs) && forall i :: 0 <= i < |hs| ==> hs[i].id in r.handlers && r.handlers[hs[i].id] == hs[i]
  }

  lemma HoldsOneMore(r: Registry, hs: seq<Handler>, h: Handler)
    requires Holds(r, hs)
    ensures Registrable(hs + [h]) <==> Registrable(hs) && HandlerOk(h) && h.id !in r.handlers
    ensures h.id !in r.handlers ==> Holds(Registered(r, h), hs + [h])
  {
    hide HandlerOk;
    assert (hs + [h])[..|hs|] == hs;
  }

  /** builtin_protocol_registry, for any handlers: it succeeds exactly when each can be
      registered, and then finds each under its own id, and nothing else. */
  method BuildRegistry(hs: seq<Handler>) returns (ok: bool, r: ProtocolRegistry)
    ensures fresh(r) && RegistryOk(r.Contents()) && SpecializedOk(r.Contents())
    ensures ok <==> Registrable(hs)
    ensures ok ==> Holds(r.Contents(), hs)
  {
    r := new ProtocolRegistry();
    assert RegistryOk(r.Contents()) && SpecializedOk(r.Contents()) && Holds(r.Contents(), hs[..0]);
    hide HandlerOk, RegistryOk, SpecializedOk, Holds, Registered, Ids;
    for i := 0 to |hs|
      invariant fresh(r) && RegistryOk(r.Contents()) && SpecializedOk(r.Contents())
      invariant Holds(r.Contents(), hs[..i]) && Registrable(hs[..i])
    {
      HoldsOneMore(r.Contents(), hs[..i], hs[i]);
      assert hs[..i + 1] == hs[..i] + [hs[i]];
      ok := r.RegisterHandler(hs[i]);
      if !ok {
        if Registrable(hs) { RegistrablePrefix(hs, i + 1); }
        return;
      }
    }
    assert hs[..|hs|] == hs;
    return true, r;
  }
}
