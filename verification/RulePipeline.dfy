/** CompiledPipeline::apply: one candidate tree, mutated by the rules in order. */
module RulePipeline {
  import opened Wrappers
  import opened Json
  import opened Rules

  /** The nodes on the way from the root to the target of a pointer. */
  predicate Chain(nodes: seq<Json>, tokens: seq<string>) {
    && |nodes| == |tokens| + 1
    && forall i :: 0 <= i < |tokens| ==> Child(nodes[i], tokens[i]) == Ok(nodes[i + 1])
  }

  /** resolve_child, token by token. */
  method Walk(root: Json, tokens: seq<string>) returns (nodes: seq<Json>, failure: Option<Reason>)
    ensures failure.Some? ==> Resolve(root, tokens) == Err(failure.value)
    ensures failure.None? ==> Chain(nodes, tokens) && nodes[0] == root && Resolve(root, tokens) == Ok(nodes[|tokens|])
  {
    nodes := [root];
    assert tokens[0..] == tokens;
    for i := 0 to |tokens|
      invariant |nodes| == i + 1 && nodes[0] == root
      invariant forall k :: 0 <= k < i ==> Child(nodes[k], tokens[k]) == Ok(nodes[k + 1])
      invariant Resolve(root, tokens) == Resolve(nodes[i], tokens[i..])
    {
      assert tokens[i..][1..] == tokens[i + 1..];
      var child := Child(nodes[i], tokens[i]);
      if child.Err? { return nodes, Some(child.error); }
      nodes := nodes + [child.value];
    }
    return nodes, None;
  }

  /** Overwriting the node at the end of the chain, seen from the root: each node on the
      way changes in the one child that leads on. */
  method Overwrite(nodes: seq<Json>, tokens: seq<string>, value: Json) returns (root: Json)
    requires Chain(nodes, tokens)
    ensures Resolve(nodes[0], tokens).Ok? && root == Set(nodes[0], tokens, value)
  {
    root := value;
    assert tokens[|tokens|..] == [];
    for i := |tokens| downto 0
      invariant Resolve(nodes[i], tokens[i..]).Ok? && root == Set(nodes[i], tokens[i..], value)
    {
      assert tokens[i..][0] == tokens[i] && tokens[i..][1..] == tokens[i + 1..];
      SetStep(nodes[i], tokens[i..], value);
      root := SetChild(nodes[i], tokens[i], root);
    }
    assert tokens[0..] == tokens;
  }

  /** The candidate tree that the rules rewrite. */
  class Candidate {
    var root: Json

    constructor (root: Json)
      ensures this.root == root
    {
      this.root := root;
    }

    /** SetFieldRule::apply. */
    method SetField(pointer: seq<string>, value: Json) returns (r: Result<Applied, Reason>)
      modifies this
      ensures r == ApplySetField(pointer, value, old(root))
      ensures root == if r.Ok? then r.value.body else old(root)
    {
      var nodes, failure := Walk(root, pointer);
      if failure.Some? { return Err(failure.value); }
      if Equal(nodes[|pointer|], value) { return Ok(Applied(root, true, false, ValueUnchanged, 0)); }
      root := Overwrite(nodes, pointer, value);
      return Ok(Applied(root, true, true, FieldSet, 1));
    }

    /** RemoveFieldRule::apply. */
    method RemoveField(container: seq<string>, token: string) returns (r: Result<Applied, Reason>)
      modifies this
      ensures r == ApplyRule(Rule.RemoveField(container, token), old(root))
      ensures root == if r.Ok? then r.value.body else old(root)
    {
      var nodes, failure := Walk(root, container);
      if failure.Some? { return Err(failure.value); }
      match nodes[|container|] {
        case Obj(fields) =>
          if token !in fields { return Err(TargetMissing); }
          root := Overwrite(nodes, container, Obj(fields - {token}));
        case Arr(items) =>
          var index := ArrayIndex(token, |items|);
          if index.Err? { return Err(index.error); }
          root := Overwrite(nodes, container, Arr(items[..index.value] + items[index.value + 1..]));
        case _ => return Err(TypeConflict);
      }
      return Ok(Applied(root, true, true, FieldRemoved, 1));
    }

    /** RemoveToolRule::apply. */
    method RemoveTool(layout: ToolLayout, tool: string) returns (r: Result<Applied, Reason>)
      modifies this
      ensures r == ApplyRemoveTool(layout, tool, old(root))
      ensures root == if r.Ok? then r.value.body else old(root)
    {
      if !root.Obj? { return Err(InvalidRootType); }
      if "tools" !in root.fields { return Ok(Applied(root, false, false, ToolsAbsent, 0)); }
      if !root.fields["tools"].Arr? { return Ok(Applied(root, false, false, ToolsNotArray, 0)); }
      var items := root.fields["tools"].items;
      var tools := new Json[|items|](i requires 0 <= i < |items| => items[i]);
      assert tools[..] == items;
      var retained, removed := RemoveIf(tools, layout, tool);
      KeptIsShorter(items, layout, tool);
      if removed == 0 { return Ok(Applied(root, false, false, ToolNotFound, 0)); }
      root := Obj(root.fields["tools" := Arr(tools[..retained])]);
      return Ok(Applied(root, true, true, ToolRemoved, removed));
    }

    method ApplyOne(rule: Rule) returns (r: Result<Applied, Reason>)
      modifies this
      ensures r == ApplyRule(rule, old(root))
      ensures root == if r.Ok? then r.value.body else old(root)
    {
      match rule
      case SetField(pointer, value) => r := SetField(pointer, value);
      case RemoveField(container, token) => r := RemoveField(container, token);
      case RemoveTool(layout, tool) => r := RemoveTool(layout, tool);
    }
  }

  /** std::remove_if on the tools array, counting what it drops. */
  method RemoveIf(tools: array<Json>, layout: ToolLayout, tool: string) returns (retained: nat, removed: nat)
    modifies tools
    ensures retained <= tools.Length && removed == tools.Length - retained
    ensures tools[..retained] == Kept(old(tools[..]), layout, tool)
  {
    retained, removed := 0, 0;
    ghost var before := tools[..];
    for i := 0 to tools.Length
      invariant retained <= i && removed == i - retained
      invariant tools[..retained] == Kept(before[..i], layout, tool)
      invariant tools[i..] == before[i..]
    {
      assert before[..i + 1][..i] == before[..i] && tools[i] == tools[i..][0] == before[i];
      assert tools[i + 1..] == tools[i..][1..];
      if MatchesTool(tools[i], layout, tool) {
        removed := removed + 1;
      } else {
        tools[retained] := tools[i];
        retained := retained + 1;
      }
    }
    assert before[..tools.Length] == before;
  }

  /** What can interrupt the pipeline besides the rules themselves. */
  datatype Interrupt = BudgetExhausted | Unexpected

  /** What parsing yields: a tree, a syntax error, or another failure of the parser, such
      as a number that is out of range. */
  datatype Parse = Parsed(tree: Json) | Malformed | Unparsable

  /** Parsing and printing of request bodies, and the interruptions the environment causes. */
  datatype Environment = Environment(
    parse: string -> Parse,
    dump: Json -> string,
    atParse: Option<Interrupt>,
    atRule: nat -> Option<Interrupt>,
    atDump: Option<Interrupt>)

  datatype Error =
    | InvalidJson
    | JsonParseFailed
    | ParseInterrupted(interrupt: Interrupt)
    | NullCompiledRule
    | RuleInterrupted(index: nat, interrupt: Interrupt)
    | RuleFailed(index: nat, reason: Reason)
    | DumpInterrupted(interrupt: Interrupt)

  function StatusCode(e: Error): int {
    match e
    case InvalidJson => 400
    case JsonParseFailed => 400
    case RuleFailed(_, _) => 400
    case ParseInterrupted(i) => if i.BudgetExhausted? then 503 else 500
    case RuleInterrupted(_, i) => if i.BudgetExhausted? then 503 else 500
    case DumpInterrupted(i) => if i.BudgetExhausted? then 503 else 500
    case NullCompiledRule => 500
  }

  datatype Trace = Trace(matched: bool, modified: bool, note: Option<Note>, affected: nat)

  datatype PipelineResult = PipelineResult(
    ok: bool, modified: bool, parseCount: nat, serializeCount: nat, outputSize: nat,
    rewritten: Option<string>, traces: seq<Trace>, error: Option<Error>)

  /** How far the rules get on a parsed tree; a null rule stops the pipeline. */
  datatype Progress = Progress(body: Json, modified: bool, traces: seq<Trace>, error: Option<Error>)

  function Advance(p: Progress, index: nat, rule: Option<Rule>, interrupt: Option<Interrupt>): Progress {
    if p.error.Some? then p
    else if rule.None? then p.(error := Some(NullCompiledRule))
    else if interrupt.Some? then
      p.(error := Some(RuleInterrupted(index, interrupt.value)), traces := p.traces + [Trace(false, false, None, 0)])
    else
      var r := ApplyRule(rule.value, p.body);
      if r.Err? then p.(error := Some(RuleFailed(index, r.error)), traces := p.traces + [Trace(false, false, None, 0)])
      else
        var a := r.value;
        Progress(a.body, p.modified || a.modified, p.traces + [Trace(a.matched, a.modified, Some(a.note), a.affected)], None)
  }

  function Run(rules: seq<Option<Rule>>, body: Json, env: Environment): Progress {
    if rules == [] then Progress(body, false, [], None)
    else Advance(Run(rules[..|rules| - 1], body, env), |rules| - 1, rules[|rules| - 1], env.atRule(|rules| - 1))
  }

  lemma {:induction false} RunStopsAtError(rules: seq<Option<Rule>>, n: nat, body: Json, env: Environment)
    requires n <= |rules| && Run(rules[..n], body, env).error.Some?
    ensures Run(rules, body, env) == Run(rules[..n], body, env)
  {
    if n < |rules| {
      assert rules[..|rules| - 1][..n] == rules[..n];
      RunStopsAtError(rules[..|rules| - 1], n, body, env);
    } else {
      assert rules[..n] == rules;
    }
  }

  /** apply. */
  method Apply(rules: seq<Option<Rule>>, body: string, env: Environment) returns (r: PipelineResult)
    ensures r == Outcome(rules, body, env)
  {
    if rules == [] { return PipelineResult(true, false, 0, 0, |body|, None, [], None); }
    if env.atParse.Some? { return Rejected(body, [], 0, ParseInterrupted(env.atParse.value)); }
    var parsed := env.parse(body);
    if parsed.Malformed? { return Rejected(body, [], 0, InvalidJson); }
    if parsed.Unparsable? { return Rejected(body, [], 0, JsonParseFailed); }
    var candidate := new Candidate(parsed.tree);
    var modified, traces := false, [];
    for i := 0 to |rules|
      invariant fresh(candidate)
      invariant Run(rules[..i], parsed.tree, env) == Progress(candidate.root, modified, traces, None)
    {
      assert rules[..i + 1][..i] == rules[..i];
      if rules[i].None? {
        RunStopsAtError(rules, i + 1, parsed.tree, env);
        return Rejected(body, traces, 0, NullCompiledRule);
      }
      var interrupt := env.atRule(i);
      if interrupt.Some? {
        RunStopsAtError(rules, i + 1, parsed.tree, env);
        return Rejected(body, traces + [Trace(false, false, None, 0)], 0, RuleInterrupted(i, interrupt.value));
      }
      var applied := candidate.ApplyOne(rules[i].value);
      if applied.Err? {
        RunStopsAtError(rules, i + 1, parsed.tree, env);
        return Rejected(body, traces + [Trace(false, false, None, 0)], 0, RuleFailed(i, applied.error));
      }
      var a := applied.value;
      modified := modified || a.modified;
      traces := traces + [Trace(a.matched, a.modified, Some(a.note), a.affected)];
    }
    assert rules[..|rules|] == rules;
    if !modified { return PipelineResult(true, false, 1, 0, |body|, None, traces, None); }
    if env.atDump.Some? { return Rejected(body, traces, 1, DumpInterrupted(env.atDump.value)); }
    var serialized := env.dump(candidate.root);
    return PipelineResult(true, true, 1, 1, |serialized|, Some(serialized), traces, None);
  }

  function Rejected(body: string, traces: seq<Trace>, serializeCount: nat, error: Error): PipelineResult {
    PipelineResult(false, false, 1, serializeCount, |body|, None, traces, Some(error))
  }

  function Outcome(rules: seq<Option<Rule>>, body: string, env: Environment): PipelineResult {
    if rules == [] then PipelineResult(true, false, 0, 0, |body|, None, [], None)
    else if env.atParse.Some? then Rejected(body, [], 0, ParseInterrupted(env.atParse.value))
    else if env.parse(body).Malformed? then Rejected(body, [], 0, InvalidJson)
    else if env.parse(body).Unparsable? then Rejected(body, [], 0, JsonParseFailed)
    else
      var run := Run(rules, env.parse(body).tree, env);
      if run.error.Some? then Rejected(body, run.traces, 0, run.error.value)
      else if !run.modified then PipelineResult(true, false, 1, 0, |body|, None, run.traces, None)
      else if env.atDump.Some? then Rejected(body, run.traces, 1, DumpInterrupted(env.atDump.value))
      else PipelineResult(true, true, 1, 1, |env.dump(run.body)|, Some(env.dump(run.body)), run.traces, None)
  }

  predicate Uninterrupted(env: Environment, n: nat) {
    env.atParse.None? && env.atDump.None? && forall i :: 0 <= i < n ==> env.atRule(i).None?
  }

  function Present(rules: seq<Rule>): seq<Option<Rule>> {
    seq(|rules|, i requires 0 <= i < |rules| => Some(rules[i]))
  }

  /** The trace a rule leaves: what it reported on the tree it found, or nothing at all when
      it was interrupted or failed. */
  function TraceOf(rule: Rule, body: Json, interrupt: Option<Interrupt>): (t: Trace)
    ensures interrupt.Some? || ApplyRule(rule, body).Err? ==> !t.matched && !t.modified && t.note == None && t.affected == 0
    ensures interrupt.None? && ApplyRule(rule, body).Ok? ==>
      var a := ApplyRule(rule, body).value;
      (t.matched, t.modified, t.note, t.affected) == (a.matched, a.modified, Some(a.note), a.affected)
  {
    if interrupt.Some? || ApplyRule(rule, body).Err? then Trace(false, false, None, 0)
    else
      var a := ApplyRule(rule, body).value;
      Trace(a.matched, a.modified, Some(a.note), a.affected)
  }

  lemma AdvanceAddsTrace(p: Progress, index: nat, rule: Option<Rule>, interrupt: Option<Interrupt>)
    ensures var q := Advance(p, index, rule, interrupt);
      && (p.error.Some? ==> q == p)
      && (p.error.None? && rule.None? ==> q == p.(error := Some(NullCompiledRule)))
      && (p.error.None? && rule.Some? ==>
          && q.traces == p.traces + [TraceOf(rule.value, p.body, interrupt)]
          && (q.modified <==> p.modified || TraceOf(rule.value, p.body, interrupt).modified)
          && (q.error.Some? ==> (q.error.value.RuleFailed? || q.error.value.RuleInterrupted?) && q.error.value.index == index))
  {}

  /** One trace per rule that was tried, in order; a failing rule leaves the last one. */
  lemma {:induction false} TracesPerRule(rules: seq<Option<Rule>>, tree: Json, env: Environment)
    ensures var run := Run(rules, tree, env);
      && |run.traces| <= |rules|
      && (run.error.None? ==> |run.traces| == |rules|)
      && (run.error.Some? ==>
          var e := run.error.value;
          && (e.RuleFailed? || e.RuleInterrupted? || e.NullCompiledRule?)
          && (e.NullCompiledRule? ==> |run.traces| < |rules| && rules[|run.traces|].None?)
          && (!e.NullCompiledRule? ==> |run.traces| == e.index + 1))
  {
    if rules != [] {
      var n := |rules| - 1;
      TracesPerRule(rules[..n], tree, env);
      AdvanceAddsTrace(Run(rules[..n], tree, env), n, rules[n], env.atRule(n));
      hide Advance, TraceOf;
    }
  }

  /** Each trace is about the tree its predecessors left. */
  lemma {:induction false} TracesAreReports(rules: seq<Option<Rule>>, tree: Json, env: Environment, i: nat)
    requires i < |Run(rules, tree, env).traces| && i < |rules|
    ensures rules[i].Some? && Run(rules[..i], tree, env).error.None?
    ensures Run(rules, tree, env).traces[i] == TraceOf(rules[i].value, Run(rules[..i], tree, env).body, env.atRule(i))
  {
    var n := |rules| - 1;
    var before, run := Run(rules[..n], tree, env), Run(rules, tree, env);
    assert run == Advance(before, n, rules[n], env.atRule(n));
    hide Run, Advance, TraceOf;
    AdvanceAddsTrace(before, n, rules[n], env.atRule(n));
    TracesPerRule(rules[..n], tree, env);
    if i < |before.traces| {
      assert rules[..n][..i] == rules[..i];
      TracesAreReports(rules[..n], tree, env, i);
      assert run.traces[i] == before.traces[i];
    } else {
      assert i == n && run.traces[i] == TraceOf(rules[n].value, before.body, env.atRule(n));
    }
  }

  /** The run has modified the tree exactly when one of the rules says so. */
  lemma {:induction false} ModifiedByTrace(rules: seq<Option<Rule>>, tree: Json, env: Environment)
    ensures var run := Run(rules, tree, env);
      run.modified <==> exists i :: 0 <= i < |run.traces| && run.traces[i].modified
  {
    if rules != [] {
      var n := |rules| - 1;
      var before, run := Run(rules[..n], tree, env), Run(rules, tree, env);
      ModifiedByTrace(rules[..n], tree, env);
      AdvanceAddsTrace(before, n, rules[n], env.atRule(n));
      assert run == Advance(before, n, rules[n], env.atRule(n));
      hide Advance, TraceOf, Run;
      if before.modified {
        var i :| 0 <= i < |before.traces| && before.traces[i].modified;
        assert run.traces[i] == before.traces[i];
      } else if run.modified {
        assert run.traces[|before.traces|].modified;
      }
    }
  }

  /** What a result counts, and which failure it names when no rule is at fault. */
  lemma OutcomeCounts(rules: seq<Option<Rule>>, body: string, env: Environment)
    ensures var r := Outcome(rules, body, env);
      && r.parseCount == (if rules == [] then 0 else 1)
      && r.serializeCount == (if r.modified || (r.error.Some? && r.error.value.DumpInterrupted?) then 1 else 0)
      && (rules != [] && env.atParse.Some? ==> r.error == Some(ParseInterrupted(env.atParse.value)) && r.traces == [])
      && (rules != [] && env.atParse.None? && env.parse(body).Malformed? ==> r.error == Some(InvalidJson) && r.traces == [])
      && (rules != [] && env.atParse.None? && env.parse(body).Unparsable? ==> r.error == Some(JsonParseFailed) && r.traces == [])
      && (rules != [] && env.atParse.None? && env.parse(body).Parsed? ==>
          var run := Run(rules, env.parse(body).tree, env);
          && r.traces == run.traces
          && (run.error.Some? ==> r.error == run.error)
          && (run.error.None? && run.modified && env.atDump.Some? ==> r.error == Some(DumpInterrupted(env.atDump.value))))
  {
    hide Run;
    if rules != [] && env.parse(body).Parsed? { TracesPerRule(rules, env.parse(body).tree, env); }
  }

  /** 503 for an exhausted budget, 400 for what the request or its rules are to blame for,
      500 for the rest. */
  lemma StatusCodes(e: Error)
    ensures StatusCode(e) == 503 <==>
      e in {ParseInterrupted(BudgetExhausted), DumpInterrupted(BudgetExhausted)} || (e.RuleInterrupted? && e.interrupt == BudgetExhausted)
    ensures StatusCode(e) == 400 <==> e.InvalidJson? || e.JsonParseFailed? || e.RuleFailed?
    ensures StatusCode(e) in {400, 500, 503}
  {}

  /** Without interruptions the loop computes the left-to-right fold of the rules. */
  lemma {:induction false} RunIsFold(rules: seq<Rule>, body: Json, env: Environment)
    requires forall i :: 0 <= i < |rules| ==> env.atRule(i).None?
    ensures var run, fold := Run(Present(rules), body, env), Fold(rules, body);
      && (fold.Ok? ==> run.error.None? && (run.body, run.modified) == fold.value)
      && (fold.Err? ==> run.error == Some(RuleFailed(fold.error.index, fold.error.reason)))
  {
    if rules != [] {
      RunIsFold(rules[..|rules| - 1], body, env);
      assert Present(rules)[..|rules| - 1] == Present(rules[..|rules| - 1]);
    }
  }

  /** All or nothing: a rewritten body exists exactly when every rule succeeded and one of
      them modified the tree, and it prints the fold; otherwise the original body stands,
      and it stands unchanged in meaning when the pipeline reports success. */
  lemma ApplyIsAllOrNothing(rules: seq<Rule>, body: string, env: Environment)
    requires Uninterrupted(env, |rules|) && rules != []
    ensures var r := Outcome(Present(rules), body, env);
      var fold := if env.parse(body).Parsed? then Fold(rules, env.parse(body).tree) else Err(Failure(0, TypeConflict));
      && (r.rewritten.Some? <==> fold.Ok? && fold.value.1)
      && (r.rewritten.Some? ==> r.rewritten == Some(env.dump(fold.value.0)) && r.outputSize == |r.rewritten.value|)
      && (r.rewritten.None? ==> r.outputSize == |body|)
      && r.ok == fold.Ok? && r.modified == r.rewritten.Some?
      && (r.ok && r.rewritten.None? ==> fold.value.0 == env.parse(body).tree)
  {
    if env.parse(body).Parsed? {
      RunIsFold(rules, env.parse(body).tree, env);
      if Fold(rules, env.parse(body).tree).Ok? && !Fold(rules, env.parse(body).tree).value.1 {
        FoldUnmodifiedIsUnchanged(rules, env.parse(body).tree);
      }
    }
  }

  /** Whatever interrupts the pipeline, a failed result carries no rewritten body, an
      error, and the original size. */
  lemma FailureKeepsOriginal(rules: seq<Option<Rule>>, body: string, env: Environment)
    ensures var r := Outcome(rules, body, env);
      && (r.ok <==> r.error.None?) && (r.rewritten.Some? <==> r.modified)
      && (!r.ok ==> r.rewritten.None? && !r.modified && r.outputSize == |body|)
      && (r.ok ==> |r.traces| == |rules|)
      && (r.error.Some? ==> StatusCode(r.error.value) in {400, 500, 503})
  {
    if rules != [] && env.parse(body).Parsed? { TracesPerRule(rules, env.parse(body).tree, env); }
  }
}
