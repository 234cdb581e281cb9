/** The three compiled rules as functions on JSON trees, and their laws. */
module Rules {
  import opened Wrappers
  import opened Json

  datatype ToolLayout = Responses | Chat | Messages

  datatype Rule =
    | SetField(pointer: seq<string>, value: Json)
    | RemoveField(container: seq<string>, token: string)
    | RemoveTool(layout: ToolLayout, tool: string)

  datatype Note = ValueUnchanged | FieldSet | FieldRemoved | ToolsAbsent | ToolsNotArray | ToolNotFound | ToolRemoved

  /** RuleApplyResult, with the tree the rule leaves behind. */
  datatype Applied = Applied(body: Json, matched: bool, modified: bool, note: Note, affected: nat)

  predicate StringFieldEquals(value: Json, name: string, expected: string) {
    value.Obj? && name in value.fields && value.fields[name] == Str(expected)
  }

  /** matches_tool. */
  predicate MatchesTool(candidate: Json, layout: ToolLayout, tool: string) {
    && candidate.Obj?
    && match layout
       case Responses => StringFieldEquals(candidate, "name", tool) || StringFieldEquals(candidate, "namespace", tool)
       case Chat => "function" in candidate.fields && StringFieldEquals(candidate.fields["function"], "name", tool)
       case Messages => StringFieldEquals(candidate, "name", tool)
  }

  /** The tools that stay, in their order. */
  function Kept(tools: seq<Json>, layout: ToolLayout, tool: string): seq<Json> {
    if tools == [] then []
    else
      var rest := Kept(tools[..|tools| - 1], layout, tool);
      var last := tools[|tools| - 1];
      if MatchesTool(last, layout, tool) then rest else rest + [last]
  }

  function ApplySetField(pointer: seq<string>, value: Json, body: Json): Result<Applied, Reason> {
    var target := Resolve(body, pointer);
    if target.Err? then Err(target.error)
    else if Equal(target.value, value) then Ok(Applied(body, true, false, ValueUnchanged, 0))
    else Ok(Applied(Set(body, pointer, value), true, true, FieldSet, 1))
  }

  function ApplyRemoveTool(layout: ToolLayout, tool: string, body: Json): Result<Applied, Reason> {
    if !body.Obj? then Err(InvalidRootType)
    else if "tools" !in body.fields then Ok(Applied(body, false, false, ToolsAbsent, 0))
    else if !body.fields["tools"].Arr? then Ok(Applied(body, false, false, ToolsNotArray, 0))
    else
      var tools := body.fields["tools"].items;
      var kept := Kept(tools, layout, tool);
      KeptIsShorter(tools, layout, tool);
      if |kept| == |tools| then Ok(Applied(body, false, false, ToolNotFound, 0))
      else Ok(Applied(Obj(body.fields["tools" := Arr(kept)]), true, true, ToolRemoved, |tools| - |kept|))
  }

  /** CompiledRule::apply; an error is a RuleRuntimeError. */
  function ApplyRule(rule: Rule, body: Json): Result<Applied, Reason> {
    match rule
    case SetField(pointer, value) => ApplySetField(pointer, value, body)
    case RemoveField(container, token) =>
      var removed := Remove(body, container, token);
      if removed.Err? then Err(removed.error) else Ok(Applied(removed.value, true, true, FieldRemoved, 1))
    case RemoveTool(layout, tool) => ApplyRemoveTool(layout, tool, body)
  }

  lemma {:induction false} KeptIsShorter(tools: seq<Json>, layout: ToolLayout, tool: string)
    ensures |Kept(tools, layout, tool)| <= |tools|
    ensures |Kept(tools, layout, tool)| == |tools| ==> Kept(tools, layout, tool) == tools
    ensures forall t :: t in Kept(tools, layout, tool) <==> t in tools && !MatchesTool(t, layout, tool)
  {
    if tools != [] {
      KeptIsShorter(tools[..|tools| - 1], layout, tool);
      assert tools == tools[..|tools| - 1] + [tools[|tools| - 1]];
    }
  }

  /** Which entries are the tool, by pointers: its own name, or namespace, or the name
      inside its function. */
  lemma MatchesToolByPointer(candidate: Json, tool: string)
    ensures MatchesTool(candidate, Messages, tool) <==> Resolve(candidate, ["name"]) == Ok(Str(tool))
    ensures MatchesTool(candidate, Responses, tool) <==>
      Resolve(candidate, ["name"]) == Ok(Str(tool)) || Resolve(candidate, ["namespace"]) == Ok(Str(tool))
    ensures MatchesTool(candidate, Chat, tool) <==> Resolve(candidate, ["function", "name"]) == Ok(Str(tool))
  {
    assert !CanonicalDecimal("name") && !CanonicalDecimal("namespace") && !CanonicalDecimal("function") by {
      assert !IsDigit("name"[0]) && !IsDigit("namespace"[0]) && !IsDigit("function"[0]);
    }
    ResolveOne(candidate, "name");
    ResolveOne(candidate, "namespace");
    ResolveSplits(candidate, ["function"], ["name"]);
    assert ["function"] + ["name"] == ["function", "name"];
    ResolveOne(candidate, "function");
    if Child(candidate, "function").Ok? { ResolveOne(Child(candidate, "function").value, "name"); }
  }

  /** What stays is decided entry by entry, in order and with repetitions. */
  lemma {:induction false} KeptOfParts(a: seq<Json>, b: seq<Json>, layout: ToolLayout, tool: string)
    ensures Kept(a + b, layout, tool) == Kept(a, layout, tool) + Kept(b, layout, tool)
  {
    if b == [] {
      assert a + b == a;
    } else {
      hide MatchesTool;
      var front, last := b[..|b| - 1], b[|b| - 1];
      KeptOfParts(a, front, layout, tool);
      assert (a + b)[..|a + b| - 1] == a + front;
    }
  }

  lemma KeptOfOne(candidate: Json, layout: ToolLayout, tool: string)
    ensures Kept([candidate], layout, tool) == if MatchesTool(candidate, layout, tool) then [] else [candidate]
  {
    assert [candidate][..0] == [];
  }

  // What the three rules do and report, and when they fail.

  lemma SetFieldReports(pointer: seq<string>, value: Json, body: Json)
    ensures var target, r := Resolve(body, pointer), ApplyRule(SetField(pointer, value), body);
      if target.Err? then r == Err(target.error)
      else if Equal(target.value, value) then r == Ok(Applied(body, true, false, ValueUnchanged, 0))
      else r == Ok(Applied(Set(body, pointer, value), true, true, FieldSet, 1))
  {}

  lemma RemoveFieldReports(container: seq<string>, token: string, body: Json)
    ensures var target, r := Resolve(body, container + [token]), ApplyRule(RemoveField(container, token), body);
      if target.Err? then r == Err(target.error)
      else r.Ok? && r.value == Applied(r.value.body, true, true, FieldRemoved, 1) && Remove(body, container, token) == Ok(r.value.body)
  {
    RemoveSucceedsIffPresent(body, container, token);
  }

  lemma RemoveToolReports(layout: ToolLayout, tool: string, body: Json)
    ensures var tools, r := Resolve(body, ["tools"]), ApplyRule(RemoveTool(layout, tool), body);
      if !body.Obj? then r == Err(InvalidRootType)
      else if tools.Err? then r == Ok(Applied(body, false, false, ToolsAbsent, 0))
      else if !tools.value.Arr? then r == Ok(Applied(body, false, false, ToolsNotArray, 0))
      else if Kept(tools.value.items, layout, tool) == tools.value.items then r == Ok(Applied(body, false, false, ToolNotFound, 0))
      else
        var kept := Kept(tools.value.items, layout, tool);
        && |kept| < |tools.value.items|
        && r == Ok(Applied(Set(body, ["tools"], Arr(kept)), true, true, ToolRemoved, |tools.value.items| - |kept|))
  {
    hide Kept, MatchesTool, Resolve, Set;
    ResolveOne(body, "tools");
    if body.Obj? && "tools" in body.fields && body.fields["tools"].Arr? {
      var kept := Kept(body.fields["tools"].items, layout, tool);
      KeptIsShorter(body.fields["tools"].items, layout, tool);
      SetOne(body, "tools", Arr(kept));
    }
  }

  lemma {:induction false} KeepingNothingOut(tools: seq<Json>, layout: ToolLayout, tool: string)
    requires forall t :: t in tools ==> !MatchesTool(t, layout, tool)
    ensures Kept(tools, layout, tool) == tools
  {
    if tools != [] {
      KeepingNothingOut(tools[..|tools| - 1], layout, tool);
      assert tools == tools[..|tools| - 1] + [tools[|tools| - 1]];
    }
  }

  /** A rule that reports no modification has left the tree exactly as it was. */
  lemma UnmodifiedIsUnchanged(rule: Rule, body: Json)
    requires ApplyRule(rule, body).Ok? && !ApplyRule(rule, body).value.modified
    ensures ApplyRule(rule, body).value.body == body
  {}

  /** After set_field the pointer resolves to the value, up to nlohmann equality; exactly
      to the value when the rule reports a modification. */
  lemma SetFieldEstablishesValue(pointer: seq<string>, value: Json, body: Json)
    requires ApplySetField(pointer, value, body).Ok?
    ensures var r := ApplySetField(pointer, value, body).value;
      && Resolve(r.body, pointer).Ok? && Equal(Resolve(r.body, pointer).value, value)
      && (r.modified ==> Resolve(r.body, pointer) == Ok(value))
  {
    ResolveAfterSet(body, pointer, value, pointer);
    EqualIsReflexive(value);
  }

  /** set_field does not touch what its pointer neither leads through nor to. */
  lemma SetFieldIsLocal(pointer: seq<string>, value: Json, body: Json, other: seq<string>)
    requires ApplySetField(pointer, value, body).Ok? && Incomparable(pointer, other)
    ensures Resolve(ApplySetField(pointer, value, body).value.body, other) == Resolve(body, other)
  {
    ResolveAfterSet(body, pointer, value, other);
  }

  /** The value is not always stored exactly: 1 and 1.0 compare equal, so the rule keeps
      the number that is there. */
  lemma SetFieldMayKeepAnEqualNumber()
    ensures var body := Obj(map["n" := Num(Unsigned(1))]);
      var r := ApplySetField(["n"], Num(Float(1.0)), body);
      r == Ok(Applied(body, true, false, ValueUnchanged, 0)) && Resolve(body, ["n"]) != Ok(Num(Float(1.0)))
  {
    var body := Obj(map["n" := Num(Unsigned(1))]);
    ResolveOne(body, "n");
  }

  /** The exact condition: the stored value is the configured one if and only if the old
      target was not a different but equal value. */
  lemma SetFieldIsExactIff(pointer: seq<string>, value: Json, body: Json)
    requires Resolve(body, pointer).Ok?
    ensures Resolve(ApplySetField(pointer, value, body).value.body, pointer) == Ok(value) <==>
      (Equal(Resolve(body, pointer).value, value) ==> Resolve(body, pointer).value == value)
  {
    ResolveAfterSet(body, pointer, value, pointer);
  }

  /** remove_tool leaves no matching tool, and a second application finds nothing to do. */
  lemma RemoveToolIsIdempotent(layout: ToolLayout, tool: string, body: Json)
    requires ApplyRemoveTool(layout, tool, body).Ok?
    ensures var once := ApplyRemoveTool(layout, tool, body).value;
      var twice := ApplyRemoveTool(layout, tool, once.body);
      twice.Ok? && twice.value.body == once.body && !twice.value.modified
  {
    var once := ApplyRemoveTool(layout, tool, body).value;
    if once.modified {
      var tools := body.fields["tools"].items;
      KeptIsShorter(tools, layout, tool);
      KeepingNothingOut(Kept(tools, layout, tool), layout, tool);
    }
  }

  datatype Failure = Failure(index: nat, reason: Reason)

  /** The rules applied from left to right, with whether any of them modified the tree. */
  function Fold(rules: seq<Rule>, body: Json): Result<(Json, bool), Failure> {
    if rules == [] then Ok((body, false))
    else
      var front := Fold(rules[..|rules| - 1], body);
      if front.Err? then front
      else
        var last := ApplyRule(rules[|rules| - 1], front.value.0);
        if last.Err? then Err(Failure(|rules| - 1, last.error))
        else Ok((last.value.body, front.value.1 || last.value.modified))
  }

  lemma {:induction false} FoldUnmodifiedIsUnchanged(rules: seq<Rule>, body: Json)
    requires Fold(rules, body).Ok? && !Fold(rules, body).value.1
    ensures Fold(rules, body).value.0 == body
  {
    if rules != [] {
      FoldUnmodifiedIsUnchanged(rules[..|rules| - 1], body);
      UnmodifiedIsUnchanged(rules[|rules| - 1], Fold(rules[..|rules| - 1], body).value.0);
    }
  }

  /** Same outcome, whichever rule a failure is attributed to. */
  predicate SameOutcome(a: Result<(Json, bool), Failure>, b: Result<(Json, bool), Failure>) {
    if a.Ok? then b == a else b.Err?
  }

  lemma SetFieldsCommute(p: seq<string>, u: Json, q: seq<string>, v: Json, body: Json)
    requires Incomparable(p, q)
    ensures var a, b := ApplySetField(p, u, body), ApplySetField(q, v, body);
      && (a.Ok? && b.Ok? ==>
          var ab, ba := ApplySetField(q, v, a.value.body), ApplySetField(p, u, b.value.body);
          && ab.Ok? && ba.Ok? && ab.value.body == ba.value.body
          && ab.value.modified == b.value.modified && ba.value.modified == a.value.modified)
      && (a.Ok? && b.Err? ==> ApplySetField(q, v, a.value.body).Err?)
      && (a.Err? && b.Ok? ==> ApplySetField(p, u, b.value.body).Err?)
  {
    hide Set, Resolve, Equal, ApplySetField;
    if ApplySetField(p, u, body).Ok? { SetFieldIsUnseen(p, u, q, v, body); }
    if ApplySetField(q, v, body).Ok? { SetFieldIsUnseen(q, v, p, u, body); }
    if ApplySetField(p, u, body).Ok? && ApplySetField(q, v, body).Ok? { SetFieldBodiesCommute(p, u, q, v, body); }
  }

  /** A set_field rule does as well and reports the same after one at an incomparable
      pointer. */
  lemma SetFieldIsUnseen(p: seq<string>, u: Json, q: seq<string>, v: Json, body: Json)
    requires Incomparable(p, q) && ApplySetField(p, u, body).Ok?
    ensures var alone, after := ApplySetField(q, v, body), ApplySetField(q, v, ApplySetField(p, u, body).value.body);
      && (alone.Ok? <==> after.Ok?)
      && (alone.Ok? ==> alone.value.modified == after.value.modified)
  {
    hide Set, Resolve, Equal;
    ResolveAfterSet(body, p, u, q);
  }

  lemma SetFieldBodiesCommute(p: seq<string>, u: Json, q: seq<string>, v: Json, body: Json)
    requires Incomparable(p, q) && ApplySetField(p, u, body).Ok? && ApplySetField(q, v, body).Ok?
    ensures var ab := ApplySetField(q, v, ApplySetField(p, u, body).value.body);
      var ba := ApplySetField(p, u, ApplySetField(q, v, body).value.body);
      ab.Ok? && ba.Ok? && ab.value.body == ba.value.body
  {
    hide Set, Resolve, Equal;
    ResolveAfterSet(body, p, u, q);
    ResolveAfterSet(body, q, v, p);
    SetsCommute(body, p, u, q, v);
  }

  /** Two neighbouring set_field rules at incomparable pointers can change places in any
      pipeline. */
  lemma {:induction false} NeighboursCommute(front: seq<Rule>, a: Rule, b: Rule, back: seq<Rule>, body: Json)
    requires a.SetField? && b.SetField? && Incomparable(a.pointer, b.pointer)
    ensures SameOutcome(Fold(front + [a, b] + back, body), Fold(front + [b, a] + back, body))
    decreases |back|
  {
    hide ApplySetField;
    var x, y := front + [a, b] + back, front + [b, a] + back;
    if back == [] {
      assert x[..|x| - 1][..|x| - 2] == front == y[..|y| - 1][..|y| - 2];
      assert x[..|x| - 1][|x| - 2] == a && x[|x| - 1] == b;
      assert y[..|y| - 1][|y| - 2] == b && y[|y| - 1] == a;
      var start := Fold(front, body);
      if start.Ok? { SetFieldsCommute(a.pointer, a.value, b.pointer, b.value, start.value.0); }
    } else {
      assert x[..|x| - 1] == front + [a, b] + back[..|back| - 1];
      assert y[..|y| - 1] == front + [b, a] + back[..|back| - 1];
      NeighboursCommute(front, a, b, back[..|back| - 1], body);
    }
  }
}
