/** What holds of every tree the parser returns and of every plan made from text. */
module CelBounds {
  import opened Text
  import opened CelAst
  import opened CelLexer
  import opened CelPrinter
  import opened CelPlanner
  import opened CelRoundTrip

  // ---- The plugins a tree imports and a plan loads ----

  function PipelineImports(p: CelPipeline): set<string> {
    set op | op in p.ops && op.ImportPlugin? :: op.name
  }

  function Imports(a: CelAst): set<string>
    decreases a
  {
    ImportsAll(a.statements)
  }

  function ImportsAll(ss: seq<CelStatement>): set<string>
    decreases ss
  {
    if ss == [] then {} else ImportsOf(ss[0]) + ImportsAll(ss[1..])
  }

  function ImportsOf(s: CelStatement): set<string>
    decreases s
  {
    match s
    case Expression(p) => PipelineImports(p)
    case Assignment(_, p) => PipelineImports(p)
    case IfElse(_, ifBlock, elseBlock) =>
      Imports(ifBlock) + (match elseBlock case None => {} case Some(b) => Imports(b))
    case Foreach(_, _, block) => Imports(block)
  }

  function PipelineLoads(p: PipelinePlan): set<string> {
    set step | step in p.steps && step.LoadPlugin? :: step.plugin
  }

  function Loads(plan: ExecutionPlan): set<string>
    decreases plan
  {
    LoadsAll(plan.blocks)
  }

  function LoadsAll(bs: seq<PlanBlock>): set<string>
    decreases bs
  {
    if bs == [] then {} else LoadsOf(bs[0]) + LoadsAll(bs[1..])
  }

  function LoadsOf(b: PlanBlock): set<string>
    decreases b
  {
    match b
    case PipelineBlock(p) => PipelineLoads(p)
    case AssignmentBlock(_, p) => PipelineLoads(p)
    case IfElseBlock(_, ifPlan, elsePlan) =>
      Loads(ifPlan) + (match elsePlan case None => {} case Some(e) => Loads(e))
    case ForeachBlock(_, _, plan) => Loads(plan)
  }

  lemma {:induction false} LoadsAreImports(plan: ExecutionPlan)
    ensures Loads(plan) == Imports(Decompile(plan))
    decreases plan
  {
    LoadsAllAreImports(plan.blocks);
  }

  lemma {:induction false} LoadsAllAreImports(bs: seq<PlanBlock>)
    ensures LoadsAll(bs) == ImportsAll(DecompileBlocks(bs))
    decreases bs
  {
    if bs != [] {
      LoadsOfAreImports(bs[0]);
      LoadsAllAreImports(bs[1..]);
      assert DecompileBlocks(bs)[1..] == DecompileBlocks(bs[1..]);
    }
  }

  lemma {:induction false} LoadsOfAreImports(b: PlanBlock)
    ensures LoadsOf(b) == ImportsOf(DecompileBlock(b))
    decreases b
  {
    match b
    case PipelineBlock(p) => PipelineLoadsAreImports(p);
    case AssignmentBlock(_, p) => PipelineLoadsAreImports(p);
    case IfElseBlock(_, ifPlan, elsePlan) =>
      LoadsAreImports(ifPlan);
      if elsePlan.Some? { LoadsAreImports(elsePlan.value); }
    case ForeachBlock(_, _, plan) => LoadsAreImports(plan);
  }

  lemma PipelineLoadsAreImports(p: PipelinePlan)
    ensures PipelineLoads(p) == PipelineImports(DecompilePipeline(p))
  {
    var q := DecompilePipeline(p);
    forall name ensures name in PipelineLoads(p) <==> name in PipelineImports(q) {
      if name in PipelineLoads(p) {
        var i :| 0 <= i < |p.steps| && p.steps[i].LoadPlugin? && p.steps[i].plugin == name;
        assert q.ops[i] == ImportPlugin(name);
      }
      if name in PipelineImports(q) {
        var i :| 0 <= i < |q.ops| && q.ops[i] == ImportPlugin(name);
        assert p.steps[i] == LoadPlugin(name);
      }
    }
  }

  // ---- What the parser lets through ----

  predicate Checked(names: set<string>) {
    forall name :: name in names ==> ValidatePluginName(name).Ok?
  }

  predicate CheckedOp(op: CelOp) {
    op.ImportPlugin? ==> ValidatePluginName(op.name).Ok?
  }

  lemma {:induction false} FiltersAreNoImports(parts: seq<string>)
    ensures var r := ParseFilterParts(parts); r.Ok? && r.value != [] ==> r.value[0].Filter?
  {
    if parts != [] {
      FiltersAreNoImports(parts[1..]);
    }
  }

  lemma SegmentChecked(segment: string)
    ensures var r := ParseSegment(segment); r.Ok? && r.value.Some? ==> CheckedOp(r.value.value)
  {
    if "filter " <= segment {
      var input := segment[|"filter "|..];
      FiltersAreNoImports(Split(Trim(input), ","));
    }
  }

  lemma {:induction false} SegmentsChecked(segments: seq<string>)
    ensures var r := ParseSegments(segments); r.Ok? ==> forall op :: op in r.value ==> CheckedOp(op)
  {
    if segments != [] {
      SegmentChecked(segments[0]);
      SegmentsChecked(segments[1..]);
    }
  }

  lemma PipelineChecked(input: string)
    ensures var r := ParsePipeline(input); r.Ok? ==> Checked(PipelineImports(r.value))
  {
    var segments := TrimAll(Split(input, "->"));
    SegmentsChecked(segments);
    var directive := EngineDirective(segments);
    if directive.Ok? && directive.value.Some? {
      DirectiveIsNoImport(segments);
    }
  }

  lemma DirectiveIsNoImport(segments: seq<string>)
    requires |segments| >= 1
    ensures var r := EngineDirective(segments); r.Ok? && r.value.Some? ==> !r.value.value.ImportPlugin?
  {
  }

  /** Nesting counted from `depth` within the limit, and all imported names checked. */
  predicate Bounded(depth: nat, levels: nat, names: set<string>) {
    depth + levels <= MAX_PARSE_DEPTH && Checked(names)
  }

  lemma {:induction false} ParseInnerBounded(input: string, depth: nat)
    ensures var r := ParseInner(input, depth); r.Ok? ==> Bounded(depth, Nesting(r.value), Imports(r.value))
    decreases |input|, 2, 0
  {
    if depth <= MAX_PARSE_DEPTH {
      ParseAllBounded(SplitStatements(input), depth, |input|);
    }
  }

  lemma {:induction false} ParseAllBounded(pieces: seq<string>, depth: nat, bound: nat)
    requires depth <= MAX_PARSE_DEPTH && forall i :: 0 <= i < |pieces| ==> |pieces[i]| <= bound
    ensures var r := ParseAll(pieces, depth, bound);
            r.Ok? ==> Bounded(depth, NestingAll(r.value), ImportsAll(r.value))
    decreases bound, 1, |pieces|
  {
    if pieces != [] {
      ParseStatementBounded(Trim(pieces[0]), depth);
      ParseAllBounded(pieces[1..], depth, bound);
      var text := Trim(pieces[0]);
      var r := ParseAll(pieces, depth, bound);
      if text != "" && r.Ok? {
        assert r.value[1..] == ParseAll(pieces[1..], depth, bound).value;
      }
    }
  }

  lemma {:induction false} ParseStatementBounded(s: string, depth: nat)
    requires depth <= MAX_PARSE_DEPTH
    ensures var r := ParseStatement(s, depth); r.Ok? ==> Bounded(depth, NestingOf(r.value), ImportsOf(r.value))
    decreases |s|, 0, 1
  {
    if "let " <= s {
      LetBounded(s, depth);
    } else if "if " <= s {
      ParseIfBounded(s, depth);
    } else if "foreach " <= s {
      ParseForeachBounded(s, depth);
    } else {
      PipelineChecked(s);
    }
  }

  lemma LetBounded(s: string, depth: nat)
    requires depth <= MAX_PARSE_DEPTH
    ensures var r := ParseLet(s); r.Ok? ==> Bounded(depth, NestingOf(r.value), ImportsOf(r.value))
  {
    if ParseLet(s).Ok? {
      LetParts(s);
      SourceBounded(ParseLet(s).value, Trim(s[FindChar(s, '=').value + 1..]), depth);
    }
  }

  lemma SourceBounded(statement: CelStatement, text: string, depth: nat)
    requires depth <= MAX_PARSE_DEPTH && statement.Assignment? && ParsePipeline(text) == Ok(statement.source)
    ensures Bounded(depth, NestingOf(statement), ImportsOf(statement))
  {
    PipelineChecked(text);
  }

  lemma LetParts(s: string)
    requires ParseLet(s).Ok?
    ensures FindChar(s, '=').Some? && ParseLet(s).value.Assignment?
    ensures ParsePipeline(Trim(s[FindChar(s, '=').value + 1..])) == Ok(ParseLet(s).value.source)
  {
  }

  lemma {:induction false} ParseForeachBounded(s: string, depth: nat)
    requires depth <= MAX_PARSE_DEPTH
    ensures var r := ParseForeach(s, depth); r.Ok? ==> Bounded(depth, NestingOf(r.value), ImportsOf(r.value))
    decreases |s|, 0, 0
  {
    var body := BracedBody(s);
    if body.Ok? {
      ParseInnerBounded(body.value.0, depth + 1);
    }
  }

  lemma {:induction false} ParseIfBounded(s: string, depth: nat)
    requires depth <= MAX_PARSE_DEPTH
    ensures var r := ParseIf(s, depth); r.Ok? ==> Bounded(depth, NestingOf(r.value), ImportsOf(r.value))
    decreases |s|, 0, 0
  {
    var body := BracedBody(s);
    if ParenClause(s).Ok? && body.Ok? {
      var ifBlock := ParseInner(body.value.0, depth + 1);
      ParseInnerBounded(body.value.0, depth + 1);
      var remainder := Trim(body.value.1);
      if ifBlock.Ok? && "else" <= remainder {
        ParseBlockBounded(remainder, depth);
      }
    }
  }

  lemma {:induction false} ParseBlockBounded(s: string, depth: nat)
    requires depth <= MAX_PARSE_DEPTH
    ensures var r := ParseBlock(s, depth); r.Ok? ==> Bounded(depth + 1, Nesting(r.value), Imports(r.value))
    decreases |s|, 0, 0
  {
    var body := BracedBody(s);
    if body.Ok? {
      ParseInnerBounded(body.value.0, depth + 1);
    }
  }

  /** Every tree that parses nests at most 32 levels and imports only names that pass the check. */
  lemma ParseBounded(input: string)
    ensures var r := Parse(input); r.Ok? ==> Nesting(r.value) <= 32 && Checked(Imports(r.value))
  {
    ParseInnerBounded(Trim(input), 0);
  }

  /** Every plan made from text is well formed, is the plan of the parsed tree and no other, and
      loads only plugins whose names pass the check. */
  lemma ParseCelSound(input: string)
    ensures var r := ParseCel(input);
            r.Ok? ==> GoodPlan(r.value) && Parse(input) == Ok(Decompile(r.value)) && Checked(Loads(r.value))
    ensures ParseCel(input).Ok? <==> Parse(input).Ok? && Plannable(Parse(input).value)
  {
    var ast := Parse(input);
    if ast.Ok? {
      ParseBounded(input);
      BuildFaithful(ast.value);
      var plan := BuildPlan(ast.value);
      if plan.Ok? {
        LoadsAreImports(plan.value);
      }
    }
  }

  /** Printing what was parsed and parsing it again changes nothing, for every text
      whose tree is printable. */
  lemma Reformat(input: string)
    ensures var r := Parse(input); r.Ok? && Printable(r.value) ==> Parse(Print(r.value)) == r
  {
    ParseBounded(input);
    var r := Parse(input);
    if r.Ok? && Printable(r.value) {
      RoundTrip(r.value);
    }
  }
}
