/** The recursive-descent parser of CEL: what each routine returns for every text. */
module CelLexer {
  import opened Text
  import opened CelAst

  const MAX_PARSE_DEPTH := 32
  const MAX_PLUGIN_NAME := 128

  predicate IsAlphanumeric(c: char) {
    IsDigit(c) || 'a' <= c <= 'z' || 'A' <= c <= 'Z'
  }

  predicate PluginNameChar(c: char) {
    IsAlphanumeric(c) || c == '-' || c == '_'
  }

  function ValidatePluginName(name: string): (r: Outcome<()>)
    ensures r.Ok? <==>
              && 1 <= |name| <= 128
              && forall c :: c in name ==>
                   'a' <= c <= 'z' || 'A' <= c <= 'Z' || '0' <= c <= '9' || c == '-' || c == '_'
    ensures !r.Panic?
  {
    if name == "" then Err(EmptyPluginName)
    else if |name| > MAX_PLUGIN_NAME then Err(PluginNameTooLong)
    else if exists c :: c in name && !PluginNameChar(c) then Err(PluginNameInvalid)
    else Ok(())
  }

  // ---- Statements and braces ----

  /** What reading `c` does to the brace depth. */
  function Delta(c: char): int {
    if c == '{' then 1 else if c == '}' then -1 else 0
  }

  /** The text cut at every `;` that stands at brace depth 0; `current` has been read already,
      at brace depth `depth`. */
  function Pieces(s: string, current: string, depth: int): (r: seq<string>)
    ensures |r| >= 1
    ensures forall i :: 0 <= i < |r| ==> |r[i]| <= |current| + |s|
    decreases |s|
  {
    if s == "" then [current]
    else
      var d := depth + Delta(s[0]);
      if s[0] == ';' && d == 0 then
        var rest := Pieces(s[1..], "", 0);
        [current] + rest
      else Pieces(s[1..], current + [s[0]], d)
  }

  function DropBlankTail(pieces: seq<string>): (r: seq<string>)
    requires |pieces| >= 1
    ensures r <= pieces
  {
    if Trim(pieces[|pieces| - 1]) == "" then pieces[..|pieces| - 1] else pieces
  }

  function SplitStatements(input: string): (r: seq<string>)
    ensures forall i :: 0 <= i < |r| ==> |r[i]| <= |input|
  {
    DropBlankTail(Pieces(input, "", 0))
  }

  /** The first `}` at or behind `i` that brings the brace depth, `depth` before `i`, to 0. */
  function ClosingFrom(s: string, i: nat, depth: int): (r: Outcome<nat>)
    requires i <= |s|
    ensures r.Ok? ==> i <= r.value < |s|
    ensures !r.Panic?
    decreases |s| - i
  {
    if i == |s| then Err(MissingCloseBrace)
    else
      var d := depth + Delta(s[i]);
      if s[i] == '}' && d == 0 then Ok(i) else ClosingFrom(s, i + 1, d)
  }

  function FindClosingBrace(s: string, start: nat): (r: Outcome<nat>)
    requires start <= |s|
    ensures r.Ok? ==> start <= r.value < |s|
    ensures !r.Panic?
  {
    ClosingFrom(s, start, 0)
  }

  function OrError<T>(o: Option<T>, e: CelError): (r: Outcome<T>)
    ensures r.Ok? <==> o.Some?
    ensures r.Ok? ==> r.value == o.value
  {
    match o
    case Some(v) => Ok(v)
    case None => Err(e)
  }

  /** The text between the first `{` of `s` and the brace that closes it, and the text behind. */
  function BracedBody(s: string): (r: Outcome<(string, string)>)
    ensures r.Ok? ==> |r.value.0| < |s| && |r.value.1| < |s|
    ensures !r.Panic?
  {
    var open :- OrError(FindChar(s, '{'), MissingOpenBrace);
    var close :- FindClosingBrace(s, open);
    assert s[open] == '{' && s[close] == '}' by { ClosingIsBrace(s, open, 0); }
    Ok((s[open + 1..close], s[close + 1..]))
  }

  lemma ClosingIsBrace(s: string, i: nat, depth: int)
    requires i <= |s|
    ensures ClosingFrom(s, i, depth).Ok? ==> s[ClosingFrom(s, i, depth).value] == '}'
    decreases |s| - i
  {
  }

  /** The text between the first `(` and the first `)`, which panics when they are inverted. */
  function ParenClause(s: string): Outcome<string> {
    var open :- OrError(FindChar(s, '('), MissingOpenParen);
    var close :- OrError(FindChar(s, ')'), MissingCloseParen);
    Slice(s, open + 1, close)
  }

  /** Parses one block; nesting is counted from 0. */
  function ParseInner(input: string, depth: nat): Outcome<CelAst>
    decreases |input|, 2, 0
  {
    if input == "" then Err(EmptyExpression)
    else if depth > MAX_PARSE_DEPTH then Err(DepthExceeded)
    else
      var statements :- ParseAll(SplitStatements(input), depth, |input|);
      Ok(CelAst(statements))
  }

  /** Parses the pieces of a block in order, up to the first failure; blank pieces are skipped. */
  function ParseAll(pieces: seq<string>, depth: nat, bound: nat): Outcome<seq<CelStatement>>
    requires forall i :: 0 <= i < |pieces| ==> |pieces[i]| <= bound
    decreases bound, 1, |pieces|
  {
    if pieces == [] then Ok([])
    else
      var text := Trim(pieces[0]);
      if text == "" then ParseAll(pieces[1..], depth, bound)
      else
        var first :- ParseStatement(text, depth);
        var rest :- ParseAll(pieces[1..], depth, bound);
        Ok([first] + rest)
  }

  function ParseStatement(s: string, depth: nat): Outcome<CelStatement>
    decreases |s|, 0, 1
  {
    if "let " <= s then ParseLet(s)
    else if "if " <= s then ParseIf(s, depth)
    else if "foreach " <= s then ParseForeach(s, depth)
    else
      var pipeline :- ParsePipeline(s);
      Ok(Expression(pipeline))
  }

  function ParseLet(s: string): Outcome<CelStatement> {
    var eq :- OrError(FindChar(s, '='), MissingEquals);
    var name :- Slice(s, 4, eq);
    Assign(Trim(name), Trim(s[eq + 1..]))
  }

  function Assign(name: string, text: string): Outcome<CelStatement> {
    var pipeline :- ParsePipeline(text);
    Ok(Assignment(name, pipeline))
  }

  function ParseIf(s: string, depth: nat): Outcome<CelStatement>
    decreases |s|, 0, 0
  {
    var condition :- ParenClause(s);
    var body :- BracedBody(s);
    var ifBlock :- ParseInner(body.0, depth + 1);
    var remainder := Trim(body.1);
    if "else" <= remainder then
      var elseBlock :- ParseBlock(remainder, depth);
      Ok(IfElse(Trim(condition), ifBlock, Some(elseBlock)))
    else
      Ok(IfElse(Trim(condition), ifBlock, None))
  }

  /** The block in the first braces of a text. */
  function ParseBlock(s: string, depth: nat): Outcome<CelAst>
    decreases |s|, 0, 0
  {
    var body :- BracedBody(s);
    ParseInner(body.0, depth + 1)
  }

  function ParseForeach(s: string, depth: nat): Outcome<CelStatement>
    decreases |s|, 0, 0
  {
    var clause :- ParenClause(s);
    var parts := Split(clause, " in ");
    if |parts| != 2 then Err(BadForeachClause)
    else
      var body :- BracedBody(s);
      var block :- ParseInner(body.0, depth + 1);
      Ok(Foreach(Trim(parts[0]), Trim(parts[1]), block))
  }

  /** `lexer::parse` */
  function Parse(input: string): Outcome<CelAst> {
    ParseInner(Trim(input), 0)
  }

  // ---- Pipelines ----

  function ParsePipeline(input: string): Outcome<CelPipeline> {
    var segments := TrimAll(Split(input, "->"));
    var directive :- EngineDirective(segments);
    if directive.Some? then Ok(CelPipeline([directive.value]))
    else
      var ops :- ParseSegments(segments);
      Ok(CelPipeline(ops))
  }

  /** The text in the outer parentheses of a directive's third segment. A missing `(` counts as
      index 0 and a missing `)` as the end. */
  function DirectiveArgument(body: string): string {
    var open := match FindChar(body, '(') case Some(i) => i case None => 0;
    var close := match RFindChar(body, ')') case Some(i) => i case None => |body|;
    if open < close then Trim(body[open + 1..close]) else ""
  }

  function DirectiveName(body: string): string {
    Trim(Before(body, "("))
  }

  function EngineDirective(segments: seq<string>): Outcome<Option<CelOp>>
    requires |segments| >= 1
  {
    if segments[0] != "engine" || |segments| < 3 then Ok(None)
    else DirectiveOf(segments[1], DirectiveName(segments[2]), DirectiveArgument(segments[2]))
  }

  function DirectiveOf(domain: string, name: string, argument: string): Outcome<Option<CelOp>> {
    if domain == "kv_cache" then Ok(Some(EngineMemoryControl(name, argument)))
    else if domain == "mid_layer" then
      var payload :- ParseValue(argument);
      Ok(Some(MidLayerInjection(payload)))
    else if domain == "inference" then Ok(Some(InferenceControl(name)))
    else if domain == "os" then
      if argument == "" then Ok(Some(SystemCall(name, [])))
      else
        var arg :- ParseValue(argument);
        Ok(Some(SystemCall(name, [arg])))
    else Ok(None)
  }

  function ParseSegments(segments: seq<string>): Outcome<seq<CelOp>> {
    if segments == [] then Ok([])
    else
      var first :- ParseSegment(segments[0]);
      var rest :- ParseSegments(segments[1..]);
      Ok((if first.Some? then [first.value] else []) + rest)
  }

  /** What follows the call name, without the final `)`; empty when there is no final `)`. */
  function CallBody(segment: string, call: string): string
    requires call <= segment
  {
    var rest := segment[|call|..];
    if rest != "" && rest[|rest| - 1] == ')' then rest[..|rest| - 1] else ""
  }

  /** The operation a trimmed pipeline segment denotes; an empty segment and a filter without
      conditions denote none. */
  function ParseSegment(segment: string): Outcome<Option<CelOp>> {
    if segment == "" then Ok(None)
    else if "use plugin::" <= segment then ParseImport(Trim(segment[|"use plugin::"|..]))
    else if "process(" <= segment then Ok(Some(ParseProcess(CallBody(segment, "process("))))
    else if "invoke(" <= segment then ParseInvoke(CallBody(segment, "invoke("))
    else if "filter " <= segment then ParseFilterSegment(segment[|"filter "|..])
    else if "select(" <= segment then Ok(Some(ParseSelect(CallBody(segment, "select("))))
    else if "time_window(" <= segment then Ok(Some(ParseWindow(CallBody(segment, "time_window("))))
    else if "similar_to(" <= segment then Ok(Some(ParseSimilar(CallBody(segment, "similar_to("))))
    else ParseCommandSegment(segment)
  }

  function ParseImport(name: string): Outcome<Option<CelOp>> {
    var _ :- ValidatePluginName(name);
    Ok(Some(ImportPlugin(name)))
  }

  function ParseProcess(body: string): CelOp {
    FastProcess("process", TrimMatches(TrimMatches(body, '\''), '\"'))
  }

  function OrDefault(o: Option<string>, default: string): string {
    match o case Some(s) => s case None => default
  }

  function ParseInvoke(body: string): Outcome<Option<CelOp>> {
    var name := OrDefault(NamedString(body, "method"), "default");
    match NamedString(body, "payload")
    case None => Ok(Some(InvokeAction(name, map[])))
    case Some(p) =>
      var payload :- ParseValue(p);
      Ok(Some(InvokeAction(name, map["payload" := payload])))
  }

  function ParseFilterSegment(body: string): Outcome<Option<CelOp>> {
    var filters :- ParseFilters(body);
    Ok(if filters == [] then None else Some(filters[0]))
  }

  function ParseSelect(body: string): CelOp {
    Select(TrimAll(Split(body, ",")))
  }

  function ParseWindow(body: string): CelOp {
    TimeWindow(OrDefault(NamedString(body, "size"), "1h"))
  }

  function ParseSimilar(body: string): CelOp {
    SimilarTo(match FloatArray(body, "vector") case Some(v) => v case None => [],
              OrDefault(NamedString(body, "metric"), "cosine"))
  }

  function ParseCommandSegment(segment: string): Outcome<Option<CelOp>> {
    var command :- ParseGenericCommand(segment);
    Ok(Some(if command.Some? then command.value else Pipe(segment)))
  }

  // ---- Values ----

  datatype FloatState =
    | Start | Signed | Whole | Point | Fraction | ExpMark | ExpSigned | Exponent
    | Word(rest: string) | Reject

  function LowerChar(c: char): char {
    if 'A' <= c <= 'Z' then c - 'A' + 'a' else c
  }

  function FloatStep(q: FloatState, c: char): FloatState {
    match q
    case Start | Signed =>
      if q.Start? && (c == '+' || c == '-') then Signed else
      if IsDigit(c) then Whole
      else if c == '.' then Point
      else if LowerChar(c) == 'i' then Word("nfinity")
      else if LowerChar(c) == 'n' then Word("an")
      else Reject
    case Whole =>
      if IsDigit(c) then Whole else if c == '.' then Fraction
      else if LowerChar(c) == 'e' then ExpMark else Reject
    case Point =>
      if IsDigit(c) then Fraction else Reject
    case Fraction =>
      if IsDigit(c) then Fraction else if LowerChar(c) == 'e' then ExpMark else Reject
    case ExpMark =>
      if c == '+' || c == '-' then ExpSigned else if IsDigit(c) then Exponent else Reject
    case ExpSigned =>
      if IsDigit(c) then Exponent else Reject
    case Exponent =>
      if IsDigit(c) then Exponent else Reject
    case Word(rest) =>
      if rest != "" && LowerChar(c) == rest[0] then Word(rest[1..]) else Reject
    case Reject => Reject
  }

  function FloatRun(s: string, q: FloatState): FloatState
    decreases |s|
  {
    if s == "" then q else FloatRun(s[1..], FloatStep(q, s[0]))
  }

  /** The literals that `str::parse::<f64>` accepts: a decimal number with an optional exponent,
      `inf`, `infinity` or `nan`, in any case of letters and with an optional sign. */
  predicate IsFloatLiteral(s: string) {
    var q := FloatRun(s, Start);
    q == Whole || q == Fraction || q == Exponent || q == Word("") || q == Word("inity")
  }

  function ParseValue(text: string): (r: Outcome<CelValue>)
    ensures !r.Err?
    ensures r.Panic? <==> Trim(text) == "\""
  {
    var s := Trim(text);
    if s == "?" then Ok(Parameter)
    else if "$" <= s then Ok(Variable(s))
    else if s != "" && s[0] == '\"' && s[|s| - 1] == '\"' then
      var inner :- Slice(s, 1, |s| - 1);
      Ok(TextValue(inner))
    else if s == "true" then Ok(Bool(true))
    else if s == "false" then Ok(Bool(false))
    else if s == "null" then Ok(Null)
    else if IsFloatLiteral(s) then Ok(Number(s))
    else Ok(TextValue(s))
  }

  // ---- Filters ----

  /** The comparison operators in the order in which they are searched for. */
  const OPERATORS: seq<(string, CompareOp)> := [
    (">=", Gte), ("<=", Lte), ("!=", NotEq), (">", Gt), ("<", Lt),
    ("contains", HasText), (":", Eq), ("=", Eq)
  ]

  function ParseFilters(input: string): Outcome<seq<CelOp>> {
    if Trim(input) == "" then Ok([]) else ParseFilterParts(Split(Trim(input), ","))
  }

  function ParseFilterParts(parts: seq<string>): Outcome<seq<CelOp>> {
    if parts == [] then Ok([])
    else if Trim(parts[0]) == "" then ParseFilterParts(parts[1..])
    else
      var first :- ParseSingleFilter(Trim(parts[0]));
      var rest :- ParseFilterParts(parts[1..]);
      Ok([first] + rest)
  }

  /** The index of the first operator of the list, from `k` on, that occurs in `s`; the length of
      the list when none does. */
  function OperatorIn(s: string, k: nat): (r: nat)
    requires k <= |OPERATORS|
    ensures k <= r <= |OPERATORS|
    ensures forall j :: k <= j < r ==> !Contains(s, OPERATORS[j].0)
    ensures r < |OPERATORS| ==> Contains(s, OPERATORS[r].0)
    decreases |OPERATORS| - k, |s|
  {
    if k == |OPERATORS| || Contains(s, OPERATORS[k].0) then k else OperatorIn(s, k + 1)
  }

  /** Splits a condition at the operator, where it occurs first. */
  function ParseCondition(s: string, opText: string, op: CompareOp): (r: Outcome<CelOp>)
    requires Contains(s, opText)
    ensures r.Ok? ==> r.value.Filter?
  {
    var at := Find(s, opText).value;
    var value :- ParseValue(Trim(s[at + |opText|..]));
    Ok(Filter(Trim(s[..at]), op, value))
  }

  function ParseSingleFilter(s: string): (r: Outcome<CelOp>)
    ensures r.Ok? ==> r.value.Filter?
  {
    var k := OperatorIn(s, 0);
    if k == |OPERATORS| then Err(BadFilter(s)) else ParseCondition(s, OPERATORS[k].0, OPERATORS[k].1)
  }

  // ---- Named arguments and generic commands ----

  function NamedString(body: string, key: string): Option<string> {
    match Find(body, key + ":")
    case None => None
    case Some(at) =>
      var after := Trim(body[at + |key| + 1..]);
      if "\"" <= after then
        match FindChar(after[1..], '\"')
        case None => None
        case Some(end) => Some(after[1..][..end])
      else
        var raw := Trim(Before(after, ","));
        if raw == "" then None else Some(raw)
  }

  function FloatLiterals(parts: seq<string>): seq<string> {
    if parts == [] then []
    else (if IsFloatLiteral(Trim(parts[0])) then [Trim(parts[0])] else []) + FloatLiterals(parts[1..])
  }

  function FloatArray(body: string, key: string): Option<seq<string>> {
    match Find(body, key + ":")
    case None => None
    case Some(at) =>
      var after := Trim(body[at + |key| + 1..]);
      if !("[" <= after) then None
      else
        match FindChar(after[1..], ']')
        case None => None
        case Some(end) => Some(FloatLiterals(Split(after[1..][..end], ",")))
  }

  /** Adds the `key: value` parts to the arguments in order; parts without a colon are skipped. */
  function CommandArgs(parts: seq<string>, args: map<string, CelValue>): Outcome<map<string, CelValue>>
    decreases |parts|
  {
    if parts == [] then Ok(args)
    else
      var more :- AddArg(Trim(parts[0]), args);
      CommandArgs(parts[1..], more)
  }

  function AddArg(part: string, args: map<string, CelValue>): Outcome<map<string, CelValue>> {
    match FindChar(part, ':')
    case None => Ok(args)
    case Some(colon) =>
      var value :- ParseValue(Trim(part[colon + 1..]));
      Ok(args[Trim(part[..colon]) := value])
  }

  /** The arguments between the `(` at `open` and the last `)`; none when there is no `)`. */
  function ParenArgs(s: string, open: nat): Outcome<map<string, CelValue>> {
    match RFindChar(s, ')')
    case None => Ok(map[])
    case Some(close) =>
      var inner :- Slice(s, open + 1, close);
      CommandArgs(Split(inner, ","), map[])
  }

  /** A segment with a blank in it is a command with an optional target and arguments. */
  function ParseGenericCommand(segment: string): Outcome<Option<CelOp>> {
    match FindChar(segment, ' ')
    case None => Ok(None)
    case Some(space) => ParseTarget(Trim(segment[..space]), Trim(segment[space..]))
  }

  /** What stands behind the action of a command. */
  function ParseTarget(action: string, remainder: string): Outcome<Option<CelOp>> {
    match FindChar(remainder, '(')
    case None =>
      if action == "" then Ok(None)
      else Ok(Some(Command(action, if remainder == "" then None else Some(remainder), map[])))
    case Some(open) =>
      var before := Trim(remainder[..open]);
      var target := if before == "" then None else Some(before);
      var args :- ParenArgs(remainder, open);
      if action == "" then Ok(None) else Ok(Some(Command(action, target, args)))
  }
}
