/** A printer for CEL trees, and the trees it can write so that the parser can read them back. */
module CelPrinter {
  import opened Text
  import opened CelAst
  import opened CelLexer

  // ---- Printing ----

  function PrintValue(v: CelValue): string {
    match v
    case TextValue(t) => "\"" + t + "\""
    case Number(literal) => literal
    case Bool(b) => if b then "true" else "false"
    case Vector(_) => "null"
    case Variable(name) => name
    case Parameter => "?"
    case Null => "null"
  }

  /** The place of an operator in the list of operators. */
  function OperatorIndex(op: CompareOp): (k: nat)
    ensures k < |OPERATORS| && OPERATORS[k].1 == op
  {
    match op
    case Gte => 0
    case Lte => 1
    case NotEq => 2
    case Gt => 3
    case Lt => 4
    case HasText => 5
    case Eq => 6
  }

  function OperatorText(op: CompareOp): string {
    OPERATORS[OperatorIndex(op)].0
  }

  function JoinWith(texts: seq<string>, glue: string): string
    requires |texts| >= 1
  {
    if |texts| == 1 then texts[0] else texts[0] + glue + JoinWith(texts[1..], glue)
  }

  function PrintCondition(field: string, op: CompareOp, value: CelValue): string {
    field + " " + (OperatorText(op) + " " + PrintValue(value))
  }

  /** Joins any number of texts. */
  function JoinAll(texts: seq<string>, glue: string): string {
    if texts == [] then "" else JoinWith(texts, glue)
  }

  /** A value inside quotes that belong to the argument and not to the value. */
  function BareText(v: CelValue): string {
    if v.TextValue? then v.text else PrintValue(v)
  }

  /** `key: "content"` */
  function PrintNamed(key: string, content: string): string {
    key + ": \"" + content + "\""
  }

  function PrintArg(key: string, value: CelValue): string {
    key + ": " + PrintValue(value)
  }

  /** The arguments of a command, in any order. */
  ghost function ArgTexts(args: map<string, CelValue>): seq<string>
    decreases args.Keys
  {
    if args.Keys == {} then []
    else
      var key :| key in args.Keys;
      [PrintArg(key, args[key])] + ArgTexts(args - {key})
  }

  function PrintInvoke(action: string, payload: Option<CelValue>): string {
    PrintNamed("method", action)
    + (match payload case None => "" case Some(v) => ", " + PrintNamed("payload", BareText(v)))
  }

  function Lookup(args: map<string, CelValue>, key: string): Option<CelValue> {
    if key in args then Some(args[key]) else None
  }

  function PrintSimilar(vector: seq<string>, metric: string): string {
    "vector: [" + JoinAll(vector, ", ") + "]," + " " + PrintNamed("metric", metric)
  }

  function PrintCommand(command: string, target: Option<string>, args: string): string {
    command + " " + ((match target case None => "" case Some(t) => t) + ("(" + args + ")"))
  }

  function DirectiveTexts(domain: string, body: string): seq<string> {
    ["engine", domain, body]
  }

  function PrintCall(name: string, argument: string): string {
    name + "(" + argument + ")"
  }

  /** The segment of an operation; an engine directive takes three. */
  ghost function PrintOp(op: CelOp): string {
    match op
    case ImportPlugin(name) => "use plugin::" + name
    case InvokeAction(action, args) => "invoke(" + PrintInvoke(action, Lookup(args, "payload")) + ")"
    case Filter(field, op, value) => "filter " + PrintCondition(field, op, value)
    case FastProcess(_, text) => "process(" + ("'" + text + "'") + ")"
    case Pipe(next) => next
    case TimeWindow(size) => "time_window(" + PrintNamed("size", size) + ")"
    case SimilarTo(vector, metric) => "similar_to(" + PrintSimilar(vector, metric) + ")"
    case Command(command, target, args) => PrintCommand(command, target, JoinAll(ArgTexts(args), ", "))
    case Select(fields) => "select(" + JoinAll(fields, ", ") + ")"
    case _ => if Directive(op) then JoinWith(DirectiveSegments(op), " -> ") else ""
  }

  predicate Directive(op: CelOp) {
    op.EngineMemoryControl? || op.MidLayerInjection? || op.InferenceControl? || op.SystemCall?
  }

  function DirectiveSegments(op: CelOp): (r: seq<string>)
    requires Directive(op)
    ensures |r| == 3 && r[0] == "engine"
  {
    match op
    case EngineMemoryControl(action, target) => DirectiveTexts("kv_cache", PrintCall(action, target))
    case MidLayerInjection(payload) => DirectiveTexts("mid_layer", PrintCall("inject", PrintValue(payload)))
    case InferenceControl(control) => DirectiveTexts("inference", PrintCall(control, ""))
    case SystemCall(call, args) =>
      DirectiveTexts("os", PrintCall(call, if args == [] then "" else PrintValue(args[0])))
  }

  ghost function PrintOps(ops: seq<CelOp>): (r: seq<string>)
    ensures |r| == |ops| && forall i :: 0 <= i < |ops| ==> r[i] == PrintOp(ops[i])
  {
    seq(|ops|, i requires 0 <= i < |ops| => PrintOp(ops[i]))
  }

  ghost function PrintPipeline(p: CelPipeline): string {
    if p.ops == [] then "" else JoinWith(PrintOps(p.ops), " -> ")
  }

  ghost function PrintBlock(a: CelAst): string
    decreases a
  {
    "{" + PrintStatements(a.statements) + "}"
  }

  ghost function PrintStatement(s: CelStatement): string
    decreases s
  {
    match s
    case Expression(p) => PrintPipeline(p)
    case Assignment(name, p) => "let " + name + " = " + PrintPipeline(p)
    case IfElse(condition, ifBlock, elseBlock) =>
      "if (" + condition + ") " + PrintBlock(ifBlock)
      + (match elseBlock case None => "" case Some(b) => " else " + PrintBlock(b))
    case Foreach(item, list, block) =>
      "foreach (" + (item + " in " + list) + ") " + PrintBlock(block)
  }

  ghost function PrintStatements(ss: seq<CelStatement>): string
    decreases ss
  {
    if ss == [] then "" else PrintStatement(ss[0]) + ";" + PrintStatements(ss[1..])
  }

  ghost function Print(a: CelAst): string {
    PrintStatements(a.statements)
  }

  // ---- Printable trees ----

  predicate Plain(s: string) {
    ';' !in s && '{' !in s && '}' !in s
  }

  predicate PrintableValue(v: CelValue) {
    match v
    case TextValue(_) => true
    case Number(literal) => IsFloatLiteral(literal)
    case Variable(name) => "$" <= name && Trimmed(name)
    case Vector(_) => false
    case _ => true
  }

  predicate PrintableFilter(field: string, op: CompareOp, value: CelValue) {
    var k := OperatorIndex(op);
    var text := PrintValue(value);
    && field != "" && Trimmed(field) && PrintableValue(value)
    && Plain(field) && Plain(text)
    && ',' !in field && ',' !in text
    && !Contains(field, "->") && !Contains(text, "->")
    && (forall j :: 0 <= j <= k ==> !Contains(field, OPERATORS[j].0))
    && (forall j :: 0 <= j < k ==> !Contains(text, OPERATORS[j].0))
  }

  predicate PrintableField(field: string) {
    Trimmed(field) && Inline(field) && ',' !in field
  }

  /** A bare pipe word: nothing that starts another kind of operation. */
  predicate PrintableWord(w: string) {
    && w != "" && Trimmed(w) && Plain(w) && ' ' !in w && !Contains(w, "->")
    && !("process(" <= w) && !("invoke(" <= w) && !("select(" <= w)
    && !("time_window(" <= w) && !("similar_to(" <= w)
  }

  /** Text without `->`: no `>` follows a `-`. */
  predicate Arrowless(s: string) {
    forall i :: 0 < i < |s| && s[i] == '>' ==> s[i - 1] != '-'
  }

  /** Text that can stand inside an operation. */
  predicate Inline(s: string) {
    Plain(s) && Arrowless(s)
  }

  /** Text between quotes of an argument. */
  predicate Quotable(s: string) {
    Inline(s) && '\"' !in s
  }

  /** Text that would be read as a text without quotes. */
  predicate PlainText(t: string) {
    && Trimmed(t) && t != "?" && !("$" <= t) && t != "true" && t != "false" && t != "null" && !IsFloatLiteral(t)
  }

  predicate PrintablePayload(v: CelValue) {
    && Quotable(BareText(v))
    && (if v.TextValue? then PlainText(v.text) else PrintableValue(v))
  }

  predicate PrintableArgument(v: CelValue) {
    PrintableValue(v) && Inline(PrintValue(v))
  }

  predicate PrintableArg(key: string, v: CelValue) {
    && Trimmed(key) && Inline(key) && ':' !in key && ',' !in key
    && PrintableArgument(v) && ',' !in PrintValue(v)
  }

  predicate PrintableCommand(command: string, target: Option<string>, args: map<string, CelValue>) {
    && PrintableWord(command) && Inline(command) && command != "filter" && command != "use"
    && (target.Some? ==> target.value != "" && Trimmed(target.value) && Inline(target.value) && '(' !in target.value)
    && (forall key :: key in args ==> PrintableArg(key, args[key]))
  }

  predicate PrintableOp(op: CelOp) {
    match op
    case ImportPlugin(name) => ValidatePluginName(name).Ok?
    case InvokeAction(action, args) =>
      && Quotable(action) && ':' !in action
      && (forall key :: key in args ==> key == "payload" && PrintablePayload(args[key]))
    case Filter(field, op, value) => PrintableFilter(field, op, value)
    case FastProcess(fastMethod, text) =>
      && fastMethod == "process" && Inline(text)
      && (text != "" ==> !IsQuote(text[0]) && !IsQuote(text[|text| - 1]))
    case Pipe(next) => PrintableWord(next)
    case TimeWindow(size) => Quotable(size)
    case SimilarTo(vector, metric) =>
      (forall i :: 0 <= i < |vector| ==> IsFloatLiteral(vector[i])) && Quotable(metric)
    case Command(command, target, args) => PrintableCommand(command, target, args)
    case Select(fields) => fields != [] && forall i :: 0 <= i < |fields| ==> PrintableField(fields[i])
    case _ => false
  }

  predicate IsQuote(c: char) {
    c == '\'' || c == '\"'
  }

  predicate PrintableName(name: string) {
    Trimmed(name) && Inline(name) && '(' !in name
  }

  predicate PrintableDirective(op: CelOp) {
    match op
    case EngineMemoryControl(action, target) => PrintableName(action) && Trimmed(target) && Inline(target)
    case MidLayerInjection(payload) => PrintableArgument(payload)
    case InferenceControl(control) => PrintableName(control)
    case SystemCall(call, args) => PrintableName(call) && |args| <= 1 && (args != [] ==> PrintableArgument(args[0]))
    case _ => false
  }

  /** One engine directive, or a chain of operations that does not look like one. */
  predicate PrintablePipeline(p: CelPipeline) {
    || (|p.ops| == 1 && PrintableDirective(p.ops[0]))
    || (p.ops != [] && p.ops[0] != Pipe("engine") && forall i :: 0 <= i < |p.ops| ==> PrintableOp(p.ops[i]))
  }

  /** Operations whose first word would be taken for the start of a statement. */
  predicate KeywordFirst(op: CelOp) {
    match op
    case Pipe(next) => IsKeyword(next)
    case Command(command, _, _) => IsKeyword(command)
    case _ => false
  }

  predicate IsKeyword(w: string) {
    w == "let" || w == "if" || w == "foreach"
  }

  /** A non-empty block of printable statements. */
  predicate Printable(a: CelAst)
    decreases a
  {
    a.statements != [] && PrintableAll(a.statements)
  }

  predicate PrintableAll(ss: seq<CelStatement>)
    decreases ss
  {
    ss != [] ==> PrintableStatement(ss[0]) && PrintableAll(ss[1..])
  }

  predicate PrintableStatement(s: CelStatement)
    decreases s
  {
    match s
    case Expression(p) => PrintablePipeline(p) && !KeywordFirst(p.ops[0])
    case Assignment(name, p) =>
      PrintablePipeline(p) && Trimmed(name) && Plain(name) && '=' !in name
    case IfElse(condition, ifBlock, elseBlock) =>
      && Trimmed(condition) && Plain(condition) && ')' !in condition
      && Printable(ifBlock) && (elseBlock.Some? ==> Printable(elseBlock.value))
    case Foreach(item, list, block) =>
      && Trimmed(item) && Plain(item) && ')' !in item && !Contains(item + " in", " in ")
      && Trimmed(list) && Plain(list) && ')' !in list && !Contains(list, " in ")
      && Printable(block)
  }

  // ---- Nesting ----

  function Max(a: nat, b: nat): nat {
    if a >= b then a else b
  }

  /** The number of levels of blocks below the outermost one. */
  function Nesting(a: CelAst): nat
    decreases a
  {
    NestingAll(a.statements)
  }

  function NestingAll(ss: seq<CelStatement>): nat
    decreases ss
  {
    if ss == [] then 0 else Max(NestingOf(ss[0]), NestingAll(ss[1..]))
  }

  function NestingOf(s: CelStatement): nat
    decreases s
  {
    match s
    case IfElse(_, ifBlock, elseBlock) =>
      1 + Max(Nesting(ifBlock), match elseBlock case None => 0 case Some(b) => Nesting(b))
    case Foreach(_, _, block) => 1 + Nesting(block)
    case _ => 0
  }
}
