/** The planner that lowers a CEL tree to an execution plan, and its inverse. */
module CelPlanner {
  import opened Text
  import opened CelAst
  import opened CelLexer

  datatype PlanStep =
    | LoadPlugin(plugin: string)
    | FastPathProcess(fastMethod: string, payloadText: string)
    | ExecuteAction(action: string, args: map<string, CelValue>)
    | FilterResults(field: string, op: CompareOp, value: CelValue)
    | SelectFields(fields: seq<string>)
    | VectorScan(vector: seq<string>, metric: string)
    | Window(size: string)
    | PipeTo(nextPlugin: string)
    | ExecuteCommand(command: string, target: Option<string>, commandArgs: map<string, CelValue>)
    | ControlMemory(memoryAction: string, memoryTarget: string)
    | InjectLayer(payload: CelValue)
    | ControlInference(control: string)
    | CallSystem(call: string, callArgs: seq<CelValue>)

  datatype PipelinePlan = PipelinePlan(steps: seq<PlanStep>, isFastPath: bool)

  datatype PlanBlock =
    | PipelineBlock(pipeline: PipelinePlan)
    | AssignmentBlock(varName: string, source: PipelinePlan)
    | IfElseBlock(condition: string, ifPlan: ExecutionPlan, elsePlan: Option<ExecutionPlan>)
    | ForeachBlock(itemVar: string, listVar: string, blockPlan: ExecutionPlan)

  datatype ExecutionPlan = ExecutionPlan(blocks: seq<PlanBlock>)

  // ---- Lowering ----

  function StepOf(op: CelOp): PlanStep {
    match op
    case ImportPlugin(name) => LoadPlugin(name)
    case FastProcess(fastMethod, text) => FastPathProcess(fastMethod, text)
    case InvokeAction(action, args) => ExecuteAction(action, args)
    case Filter(field, op, value) => FilterResults(field, op, value)
    case Select(fields) => SelectFields(fields)
    case SimilarTo(vector, metric) => VectorScan(vector, metric)
    case TimeWindow(size) => Window(size)
    case Pipe(next) => PipeTo(next)
    case Command(command, target, args) => ExecuteCommand(command, target, args)
    case EngineMemoryControl(action, target) => ControlMemory(action, target)
    case MidLayerInjection(payload) => InjectLayer(payload)
    case InferenceControl(control) => ControlInference(control)
    case SystemCall(call, args) => CallSystem(call, args)
  }

  function BuildPipeline(p: CelPipeline): Outcome<PipelinePlan> {
    if p.ops == [] then Err(NoSteps)
    else
      var steps := seq(|p.ops|, i requires 0 <= i < |p.ops| => StepOf(p.ops[i]));
      Ok(PipelinePlan(steps, exists i :: 0 <= i < |p.ops| && p.ops[i].FastProcess?))
  }

  function BuildPlan(a: CelAst): Outcome<ExecutionPlan>
    decreases a
  {
    var blocks :- BuildBlocks(a.statements);
    if blocks == [] then Err(NoBlocks) else Ok(ExecutionPlan(blocks))
  }

  function BuildBlocks(ss: seq<CelStatement>): Outcome<seq<PlanBlock>>
    decreases ss
  {
    if ss == [] then Ok([])
    else
      var first :- BuildBlock(ss[0]);
      var rest :- BuildBlocks(ss[1..]);
      Ok([first] + rest)
  }

  function BuildBlock(s: CelStatement): Outcome<PlanBlock>
    decreases s
  {
    match s
    case Expression(p) =>
      var plan :- BuildPipeline(p);
      Ok(PipelineBlock(plan))
    case Assignment(name, p) =>
      var plan :- BuildPipeline(p);
      Ok(AssignmentBlock(name, plan))
    case IfElse(condition, ifBlock, elseBlock) =>
      var ifPlan :- BuildPlan(ifBlock);
      (match elseBlock
       case None => Ok(IfElseBlock(condition, ifPlan, None))
       case Some(b) =>
         var elsePlan :- BuildPlan(b);
         Ok(IfElseBlock(condition, ifPlan, Some(elsePlan))))
    case Foreach(item, list, block) =>
      var plan :- BuildPlan(block);
      Ok(ForeachBlock(item, list, plan))
  }

  /** `parse_cel`: parse, then plan. */
  function ParseCel(input: string): Outcome<ExecutionPlan> {
    var ast :- Parse(input);
    BuildPlan(ast)
  }

  // ---- The inverse ----

  function OpOf(step: PlanStep): CelOp {
    match step
    case LoadPlugin(name) => ImportPlugin(name)
    case FastPathProcess(fastMethod, text) => FastProcess(fastMethod, text)
    case ExecuteAction(action, args) => InvokeAction(action, args)
    case FilterResults(field, op, value) => Filter(field, op, value)
    case SelectFields(fields) => Select(fields)
    case VectorScan(vector, metric) => SimilarTo(vector, metric)
    case Window(size) => TimeWindow(size)
    case PipeTo(next) => Pipe(next)
    case ExecuteCommand(command, target, args) => Command(command, target, args)
    case ControlMemory(action, target) => EngineMemoryControl(action, target)
    case InjectLayer(payload) => MidLayerInjection(payload)
    case ControlInference(control) => InferenceControl(control)
    case CallSystem(call, args) => SystemCall(call, args)
  }

  function DecompilePipeline(p: PipelinePlan): CelPipeline {
    CelPipeline(seq(|p.steps|, i requires 0 <= i < |p.steps| => OpOf(p.steps[i])))
  }

  function Decompile(plan: ExecutionPlan): CelAst
    decreases plan
  {
    CelAst(DecompileBlocks(plan.blocks))
  }

  function DecompileBlocks(bs: seq<PlanBlock>): (r: seq<CelStatement>)
    ensures |r| == |bs|
    decreases bs
  {
    if bs == [] then [] else [DecompileBlock(bs[0])] + DecompileBlocks(bs[1..])
  }

  function DecompileBlock(b: PlanBlock): CelStatement
    decreases b
  {
    match b
    case PipelineBlock(p) => Expression(DecompilePipeline(p))
    case AssignmentBlock(name, p) => Assignment(name, DecompilePipeline(p))
    case IfElseBlock(condition, ifPlan, elsePlan) =>
      IfElse(condition, Decompile(ifPlan), match elsePlan case None => None case Some(e) => Some(Decompile(e)))
    case ForeachBlock(item, list, plan) => Foreach(item, list, Decompile(plan))
  }

  // ---- Trees that can be planned, and plans that come from one ----

  /** Every block has a statement and every pipeline has an operation. */
  predicate Plannable(a: CelAst)
    decreases a
  {
    a.statements != [] && PlannableAll(a.statements)
  }

  predicate PlannableAll(ss: seq<CelStatement>)
    decreases ss
  {
    ss != [] ==> PlannableStatement(ss[0]) && PlannableAll(ss[1..])
  }

  predicate PlannableStatement(s: CelStatement)
    decreases s
  {
    match s
    case Expression(p) => p.ops != []
    case Assignment(_, p) => p.ops != []
    case IfElse(_, ifBlock, elseBlock) => Plannable(ifBlock) && (elseBlock.Some? ==> Plannable(elseBlock.value))
    case Foreach(_, _, block) => Plannable(block)
  }

  predicate GoodPipeline(p: PipelinePlan) {
    && p.steps != []
    && (p.isFastPath <==> exists i :: 0 <= i < |p.steps| && p.steps[i].FastPathProcess?)
  }

  /** At every depth: no empty block, no empty pipeline, and the fast-path flag marks exactly the
      pipelines with a fast-path step. */
  predicate GoodPlan(plan: ExecutionPlan)
    decreases plan
  {
    plan.blocks != [] && GoodBlocks(plan.blocks)
  }

  predicate GoodBlocks(bs: seq<PlanBlock>)
    decreases bs
  {
    bs != [] ==> GoodBlock(bs[0]) && GoodBlocks(bs[1..])
  }

  predicate GoodBlock(b: PlanBlock)
    decreases b
  {
    match b
    case PipelineBlock(p) => GoodPipeline(p)
    case AssignmentBlock(_, p) => GoodPipeline(p)
    case IfElseBlock(_, ifPlan, elsePlan) => GoodPlan(ifPlan) && (elsePlan.Some? ==> GoodPlan(elsePlan.value))
    case ForeachBlock(_, _, plan) => GoodPlan(plan)
  }

  // ---- Planning loses nothing ----

  lemma PipelineFaithful(p: CelPipeline)
    requires p.ops != []
    ensures var r := BuildPipeline(p); r.Ok? && GoodPipeline(r.value) && DecompilePipeline(r.value) == p
  {
    var plan := BuildPipeline(p).value;
    forall i | 0 <= i < |p.ops|
      ensures OpOf(plan.steps[i]) == p.ops[i] && (plan.steps[i].FastPathProcess? <==> p.ops[i].FastProcess?)
    {
    }
    assert DecompilePipeline(plan).ops == p.ops;
  }

  /** Planning succeeds exactly on the plannable trees; the plan is well formed and can be turned
      back into the tree. */
  lemma {:induction false} BuildFaithful(a: CelAst)
    ensures BuildPlan(a).Ok? <==> Plannable(a)
    ensures var r := BuildPlan(a); !r.Panic? && (r.Ok? ==> GoodPlan(r.value) && Decompile(r.value) == a)
    decreases a
  {
    BlocksFaithful(a.statements);
  }

  lemma {:induction false} BlocksFaithful(ss: seq<CelStatement>)
    ensures BuildBlocks(ss).Ok? <==> PlannableAll(ss)
    ensures var r := BuildBlocks(ss);
            !r.Panic? && (r.Ok? ==> |r.value| == |ss| && GoodBlocks(r.value) && DecompileBlocks(r.value) == ss)
    decreases ss
  {
    if ss != [] {
      BlockFaithful(ss[0]);
      BlocksFaithful(ss[1..]);
      var r := BuildBlocks(ss);
      if r.Ok? {
        assert r.value[1..] == BuildBlocks(ss[1..]).value;
        assert ss == [ss[0]] + ss[1..];
      }
    }
  }

  lemma {:induction false} BlockFaithful(s: CelStatement)
    ensures BuildBlock(s).Ok? <==> PlannableStatement(s)
    ensures var r := BuildBlock(s); !r.Panic? && (r.Ok? ==> GoodBlock(r.value) && DecompileBlock(r.value) == s)
    decreases s
  {
    match s
    case Expression(p) => if p.ops != [] { PipelineFaithful(p); }
    case Assignment(_, p) => if p.ops != [] { PipelineFaithful(p); }
    case IfElse(_, ifBlock, elseBlock) =>
      BuildFaithful(ifBlock);
      if elseBlock.Some? { BuildFaithful(elseBlock.value); }
    case Foreach(_, _, block) => BuildFaithful(block);
  }

  /** Conversely, every well-formed plan is the plan of the tree it decompiles to. */
  lemma {:induction false} DecompileFaithful(plan: ExecutionPlan)
    ensures BuildPlan(Decompile(plan)) == Ok(plan) <==> GoodPlan(plan)
    decreases plan
  {
    BuildFaithful(Decompile(plan));
    if GoodPlan(plan) {
      BlocksRebuild(plan.blocks);
    }
  }

  lemma {:induction false} BlocksRebuild(bs: seq<PlanBlock>)
    requires GoodBlocks(bs)
    ensures BuildBlocks(DecompileBlocks(bs)) == Ok(bs)
    decreases bs
  {
    if bs != [] {
      BlockRebuild(bs[0]);
      BlocksRebuild(bs[1..]);
      assert DecompileBlocks(bs)[1..] == DecompileBlocks(bs[1..]);
      assert bs == [bs[0]] + bs[1..];
    }
  }

  lemma {:induction false} BlockRebuild(b: PlanBlock)
    requires GoodBlock(b)
    ensures BuildBlock(DecompileBlock(b)) == Ok(b)
    decreases b
  {
    match b
    case PipelineBlock(p) => PipelineRebuild(p);
    case AssignmentBlock(_, p) => PipelineRebuild(p);
    case IfElseBlock(_, ifPlan, elsePlan) =>
      DecompileFaithful(ifPlan);
      if elsePlan.Some? { DecompileFaithful(elsePlan.value); }
    case ForeachBlock(_, _, plan) => DecompileFaithful(plan);
  }

  lemma PipelineRebuild(p: PipelinePlan)
    requires GoodPipeline(p)
    ensures BuildPipeline(DecompilePipeline(p)) == Ok(p)
  {
    var q := DecompilePipeline(p);
    var plan := BuildPipeline(q).value;
    forall i | 0 <= i < |p.steps|
      ensures plan.steps[i] == p.steps[i] && (p.steps[i].FastPathProcess? <==> q.ops[i].FastProcess?)
    {
    }
    assert plan.steps == p.steps;
  }

  // ---- The loops ----

  method BuildPipelineLoop(p: CelPipeline) returns (r: Outcome<PipelinePlan>)
    ensures r == BuildPipeline(p)
  {
    var steps: seq<PlanStep>, isFastPath := [], false;
    for i := 0 to |p.ops|
      invariant |steps| == i && forall j :: 0 <= j < i ==> steps[j] == StepOf(p.ops[j])
      invariant isFastPath <==> exists j :: 0 <= j < i && p.ops[j].FastProcess?
    {
      if p.ops[i].FastProcess? {
        isFastPath := true;
      }
      steps := steps + [StepOf(p.ops[i])];
    }
    if steps == [] {
      return Err(NoSteps);
    }
    r := Ok(PipelinePlan(steps, isFastPath));
    assert steps == BuildPipeline(p).value.steps;
  }

  method BuildPlanLoop(a: CelAst) returns (r: Outcome<ExecutionPlan>)
    ensures r == BuildPlan(a)
    decreases a, 1
  {
    var blocks: seq<PlanBlock> := [];
    var ss := a.statements;
    PrependNothing(BuildBlocks(ss));
    assert ss[0..] == ss;
    for i := 0 to |ss|
      invariant BuildBlocks(ss) == Prepend(blocks, BuildBlocks(ss[i..]))
    {
      assert ss[i..][0] == ss[i] && ss[i..][1..] == ss[i + 1..];
      assert ss[i] < a;
      var block := BuildBlockLoop(ss[i]);
      if !block.Ok? {
        return block.PropagateFailure();
      }
      PrependStep(blocks, block.value, BuildBlocks(ss[i + 1..]));
      blocks := blocks + [block.value];
    }
    assert blocks + [] == blocks;
    if blocks == [] {
      return Err(NoBlocks);
    }
    r := Ok(ExecutionPlan(blocks));
  }

  method BuildBlockLoop(s: CelStatement) returns (r: Outcome<PlanBlock>)
    ensures r == BuildBlock(s)
    decreases s, 0
  {
    match s
    case Expression(p) =>
      var plan := BuildPipelineLoop(p);
      r := if plan.Ok? then Ok(PipelineBlock(plan.value)) else plan.PropagateFailure();
    case Assignment(name, p) =>
      var plan := BuildPipelineLoop(p);
      r := if plan.Ok? then Ok(AssignmentBlock(name, plan.value)) else plan.PropagateFailure();
    case IfElse(condition, ifBlock, elseBlock) =>
      var ifPlan := BuildPlanLoop(ifBlock);
      if !ifPlan.Ok? {
        return ifPlan.PropagateFailure();
      }
      match elseBlock {
        case None =>
          r := Ok(IfElseBlock(condition, ifPlan.value, None));
        case Some(b) =>
          var elsePlan := BuildPlanLoop(b);
          r := if elsePlan.Ok? then Ok(IfElseBlock(condition, ifPlan.value, Some(elsePlan.value)))
               else elsePlan.PropagateFailure();
      }
    case Foreach(item, list, block) =>
      var plan := BuildPlanLoop(block);
      r := if plan.Ok? then Ok(ForeachBlock(item, list, plan.value)) else plan.PropagateFailure();
  }
}
