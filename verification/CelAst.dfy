/** The syntax tree of the CEL language and the results its front end can produce.
    A floating-point number is kept as the literal it was read from. */
module CelAst {
  import opened Text

  datatype CelValue =
    | TextValue(text: string)
    | Number(literal: string)
    | Bool(b: bool)
    | Vector(elements: seq<string>)
    | Variable(name: string)
    | Parameter
    | Null

  datatype CompareOp = Eq | NotEq | Gt | Lt | Gte | Lte | HasText

  datatype CelOp =
    | ImportPlugin(name: string)
    | InvokeAction(action: string, args: map<string, CelValue>)
    | Filter(field: string, op: CompareOp, value: CelValue)
    | FastProcess(fastMethod: string, payloadText: string)
    | Pipe(nextPlugin: string)
    | TimeWindow(size: string)
    | SimilarTo(vector: seq<string>, metric: string)
    | Command(command: string, target: Option<string>, commandArgs: map<string, CelValue>)
    | Select(fields: seq<string>)
    | EngineMemoryControl(memoryAction: string, memoryTarget: string)
    | MidLayerInjection(payload: CelValue)
    | InferenceControl(control: string)
    | SystemCall(call: string, callArgs: seq<CelValue>)

  datatype CelPipeline = CelPipeline(ops: seq<CelOp>)

  datatype CelStatement =
    | Expression(pipeline: CelPipeline)
    | Assignment(varName: string, source: CelPipeline)
    | IfElse(condition: string, ifBlock: CelAst, elseBlock: Option<CelAst>)
    | Foreach(itemVar: string, listVar: string, block: CelAst)

  datatype CelAst = CelAst(statements: seq<CelStatement>)

  datatype CelError =
    | EmptyExpression | DepthExceeded
    | MissingEquals | MissingOpenParen | MissingCloseParen
    | MissingOpenBrace | MissingCloseBrace | BadForeachClause
    | BadFilter(text: string)
    | EmptyPluginName | PluginNameTooLong | PluginNameInvalid
    | NoBlocks | NoSteps

  /** What a front-end call can do: return a value, return an error, or panic on a
      string slice whose start lies behind its end. */
  datatype Outcome<+T> = Ok(value: T) | Err(error: CelError) | Panic {
    predicate IsFailure() { !Ok? }

    function PropagateFailure<U>(): Outcome<U>
      requires IsFailure()
    {
      if Err? then Err(error) else Panic
    }

    function Extract(): T
      requires Ok?
    {
      value
    }
  }

  /** `s[lo..hi]`, which panics when the range is inverted. */
  function Slice(s: string, lo: nat, hi: nat): (r: Outcome<string>)
    requires hi <= |s|
    ensures r.Ok? <==> lo <= hi
    ensures r.Ok? ==> r.value == s[lo..hi]
    ensures !r.Err?
  {
    if lo <= hi then Ok(s[lo..hi]) else Panic
  }

  /** The outcome of a loop that has collected `done` and still has to do `rest`. */
  function Prepend<T>(done: seq<T>, rest: Outcome<seq<T>>): Outcome<seq<T>> {
    if rest.Ok? then Ok(done + rest.value) else rest
  }

  lemma PrependNothing<T>(rest: Outcome<seq<T>>)
    ensures Prepend([], rest) == rest
  {
    if rest.Ok? {
      assert [] + rest.value == rest.value;
    }
  }

  lemma PrependStep<T>(done: seq<T>, x: T, rest: Outcome<seq<T>>)
    ensures Prepend(done, Prepend([x], rest)) == Prepend(done + [x], rest)
  {
    if rest.Ok? {
      assert done + ([x] + rest.value) == done + [x] + rest.value;
    }
  }
}
