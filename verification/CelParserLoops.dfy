/** The parser's routines as they run: loops that push into lists, with early returns. Each one
    returns what the corresponding function of `CelLexer` says. */
module CelParserLoops {
  import opened Text
  import opened CelAst
  import opened CelLexer
  import opened CelBraces

  method ParseInnerLoop(input: string, depth: nat) returns (r: Outcome<CelAst>)
    ensures r == ParseInner(input, depth)
    decreases |input|, 1
  {
    if input == "" {
      return Err(EmptyExpression);
    }
    if depth > MAX_PARSE_DEPTH {
      return Err(DepthExceeded);
    }
    var statements: seq<CelStatement> := [];
    var raw := SplitStatementsLoop(input);
    PrependNothing(ParseAll(raw, depth, |input|));
    assert raw[0..] == raw;
    for i := 0 to |raw|
      invariant ParseAll(raw, depth, |input|) == Prepend(statements, ParseAll(raw[i..], depth, |input|))
    {
      assert raw[i..][0] == raw[i] && raw[i..][1..] == raw[i + 1..];
      var text := Trim(raw[i]);
      if text == "" {
        continue;
      }
      var statement := ParseStatementStep(text, depth);
      if !statement.Ok? {
        return statement.PropagateFailure();
      }
      PrependStep(statements, statement.value, ParseAll(raw[i + 1..], depth, |input|));
      statements := statements + [statement.value];
    }
    assert statements + [] == statements;
    r := Ok(CelAst(statements));
  }

  method ParseStatementStep(s: string, depth: nat) returns (r: Outcome<CelStatement>)
    ensures r == ParseStatement(s, depth)
    decreases |s|, 0, 1
  {
    if "let " <= s {
      r := ParseLetStep(s);
    } else if "if " <= s {
      r := ParseIfStep(s, depth);
    } else if "foreach " <= s {
      r := ParseForeachStep(s, depth);
    } else {
      var pipeline := ParsePipelineLoop(s);
      r := if pipeline.Ok? then Ok(Expression(pipeline.value)) else pipeline.PropagateFailure();
    }
  }

  method ParseLetStep(s: string) returns (r: Outcome<CelStatement>)
    ensures r == ParseLet(s)
  {
    var eq := FindChar(s, '=');
    if eq.None? {
      return Err(MissingEquals);
    }
    var name := Slice(s, 4, eq.value);
    if !name.Ok? {
      return Panic;
    }
    var pipeline := ParsePipelineLoop(Trim(s[eq.value + 1..]));
    r := if pipeline.Ok? then Ok(Assignment(Trim(name.value), pipeline.value)) else pipeline.PropagateFailure();
  }

  method BracedBodyStep(s: string) returns (r: Outcome<(string, string)>)
    ensures r == BracedBody(s)
  {
    var open := FindChar(s, '{');
    if open.None? {
      return Err(MissingOpenBrace);
    }
    var close := FindClosingBraceLoop(s, open.value);
    if !close.Ok? {
      return close.PropagateFailure();
    }
    ClosingIsBrace(s, open.value, 0);
    r := Ok((s[open.value + 1..close.value], s[close.value + 1..]));
  }

  method ParseIfStep(s: string, depth: nat) returns (r: Outcome<CelStatement>)
    ensures r == ParseIf(s, depth)
    decreases |s|, 0, 0
  {
    var condition := ParenClause(s);
    if !condition.Ok? {
      return condition.PropagateFailure();
    }
    var body := BracedBodyStep(s);
    if !body.Ok? {
      return body.PropagateFailure();
    }
    var ifBlock := ParseInnerLoop(body.value.0, depth + 1);
    if !ifBlock.Ok? {
      return ifBlock.PropagateFailure();
    }
    var remainder := Trim(body.value.1);
    if !("else" <= remainder) {
      return Ok(IfElse(Trim(condition.value), ifBlock.value, None));
    }
    var elseBlock := ParseBlockStep(remainder, depth);
    if !elseBlock.Ok? {
      return elseBlock.PropagateFailure();
    }
    r := Ok(IfElse(Trim(condition.value), ifBlock.value, Some(elseBlock.value)));
  }

  method ParseBlockStep(s: string, depth: nat) returns (r: Outcome<CelAst>)
    ensures r == ParseBlock(s, depth)
    decreases |s|, 0, 0
  {
    var body := BracedBodyStep(s);
    if !body.Ok? {
      return body.PropagateFailure();
    }
    r := ParseInnerLoop(body.value.0, depth + 1);
  }

  method ParseForeachStep(s: string, depth: nat) returns (r: Outcome<CelStatement>)
    ensures r == ParseForeach(s, depth)
    decreases |s|, 0, 0
  {
    var clause := ParenClause(s);
    if !clause.Ok? {
      return clause.PropagateFailure();
    }
    var parts := Split(clause.value, " in ");
    if |parts| != 2 {
      return Err(BadForeachClause);
    }
    var body := BracedBodyStep(s);
    if !body.Ok? {
      return body.PropagateFailure();
    }
    var block := ParseInnerLoop(body.value.0, depth + 1);
    r := if block.Ok? then Ok(Foreach(Trim(parts[0]), Trim(parts[1]), block.value)) else block.PropagateFailure();
  }

  method ParsePipelineLoop(input: string) returns (r: Outcome<CelPipeline>)
    ensures r == ParsePipeline(input)
  {
    var segments := TrimAll(Split(input, "->"));
    var directive := EngineDirective(segments);
    if !directive.Ok? {
      return directive.PropagateFailure();
    }
    if directive.value.Some? {
      return Ok(CelPipeline([directive.value.value]));
    }
    var ops := ParseSegmentsLoop(segments);
    r := if ops.Ok? then Ok(CelPipeline(ops.value)) else ops.PropagateFailure();
  }

  method ParseSegmentsLoop(segments: seq<string>) returns (r: Outcome<seq<CelOp>>)
    ensures r == ParseSegments(segments)
  {
    var ops: seq<CelOp> := [];
    PrependNothing(ParseSegments(segments));
    assert segments[0..] == segments;
    for i := 0 to |segments|
      invariant ParseSegments(segments) == Prepend(ops, ParseSegments(segments[i..]))
    {
      assert segments[i..][0] == segments[i] && segments[i..][1..] == segments[i + 1..];
      var op := ParseSegmentStep(segments[i]);
      if !op.Ok? {
        return op.PropagateFailure();
      }
      ghost var rest := ParseSegments(segments[i + 1..]);
      if op.value.Some? {
        PrependStep(ops, op.value.value, rest);
        ops := ops + [op.value.value];
      } else {
        PrependNothing(rest);
      }
    }
    assert ops + [] == ops;
    r := Ok(ops);
  }

  method ParseSegmentStep(segment: string) returns (r: Outcome<Option<CelOp>>)
    ensures r == ParseSegment(segment)
  {
    if "filter " <= segment {
      assert segment[0] == 'f';
      r := ParseFilterSegmentStep(segment[|"filter "|..]);
    } else if segment == "" || "use plugin::" <= segment || "process(" <= segment || "invoke(" <= segment
              || "select(" <= segment || "time_window(" <= segment || "similar_to(" <= segment {
      r := ParseSegment(segment);
    } else {
      var command := ParseGenericCommandLoop(segment);
      r := if command.Ok? then Ok(Some(if command.value.Some? then command.value.value else Pipe(segment)))
           else command.PropagateFailure();
    }
  }

  method ParseFilterSegmentStep(body: string) returns (r: Outcome<Option<CelOp>>)
    ensures r == ParseFilterSegment(body)
  {
    var filters := ParseFiltersLoop(body);
    r := if filters.Ok? then Ok(if filters.value == [] then None else Some(filters.value[0]))
         else filters.PropagateFailure();
  }

  method ParseFiltersLoop(input: string) returns (r: Outcome<seq<CelOp>>)
    ensures r == ParseFilters(input)
  {
    if Trim(input) == "" {
      return Ok([]);
    }
    var filters: seq<CelOp> := [];
    var parts := Split(Trim(input), ",");
    PrependNothing(ParseFilterParts(parts));
    assert parts[0..] == parts;
    for i := 0 to |parts|
      invariant ParseFilterParts(parts) == Prepend(filters, ParseFilterParts(parts[i..]))
    {
      assert parts[i..][0] == parts[i] && parts[i..][1..] == parts[i + 1..];
      if Trim(parts[i]) == "" {
        continue;
      }
      var filter := ParseSingleFilterLoop(Trim(parts[i]));
      if !filter.Ok? {
        return filter.PropagateFailure();
      }
      PrependStep(filters, filter.value, ParseFilterParts(parts[i + 1..]));
      filters := filters + [filter.value];
    }
    assert filters + [] == filters;
    r := Ok(filters);
  }

  method ParseSingleFilterLoop(s: string) returns (r: Outcome<CelOp>)
    ensures r == ParseSingleFilter(s)
  {
    for k := 0 to |OPERATORS|
      invariant OperatorIn(s, 0) == OperatorIn(s, k)
    {
      var (opText, op) := OPERATORS[k];
      if Contains(s, opText) {
        r := ParseConditionStep(s, opText, op);
        return;
      }
    }
    return Err(BadFilter(s));
  }

  method ParseConditionStep(s: string, opText: string, op: CompareOp) returns (r: Outcome<CelOp>)
    requires Contains(s, opText)
    ensures r == ParseCondition(s, opText, op)
  {
    var at := Find(s, opText).value;
    var field, text := Trim(s[..at]), Trim(s[at + |opText|..]);
    var value := ParseValue(text);
    return if value.Ok? then Ok(Filter(field, op, value.value)) else value.PropagateFailure();
  }

  method ParseGenericCommandLoop(segment: string) returns (r: Outcome<Option<CelOp>>)
    ensures r == ParseGenericCommand(segment)
  {
    var space := FindChar(segment, ' ');
    if space.None? {
      return Ok(None);
    }
    var action := Trim(segment[..space.value]);
    var remainder := Trim(segment[space.value..]);
    var open := FindChar(remainder, '(');
    var target: Option<string>, args: map<string, CelValue> := None, map[];
    if open.Some? {
      var before := Trim(remainder[..open.value]);
      target := if before == "" then None else Some(before);
      var collected := ParenArgsStep(remainder, open.value);
      if !collected.Ok? {
        return collected.PropagateFailure();
      }
      args := collected.value;
    } else {
      target := if remainder == "" then None else Some(remainder);
    }
    r := if action == "" then Ok(None) else Ok(Some(Command(action, target, args)));
  }

  method ParenArgsStep(s: string, open: nat) returns (r: Outcome<map<string, CelValue>>)
    ensures r == ParenArgs(s, open)
  {
    var close := RFindChar(s, ')');
    if close.None? {
      return Ok(map[]);
    }
    var inner := Slice(s, open + 1, close.value);
    if !inner.Ok? {
      return inner.PropagateFailure();
    }
    r := CommandArgsLoop(Split(inner.value, ","));
  }

  method CommandArgsLoop(parts: seq<string>) returns (r: Outcome<map<string, CelValue>>)
    ensures r == CommandArgs(parts, map[])
  {
    var args: map<string, CelValue> := map[];
    assert parts[0..] == parts;
    for i := 0 to |parts|
      invariant CommandArgs(parts, map[]) == CommandArgs(parts[i..], args)
    {
      assert parts[i..][0] == parts[i] && parts[i..][1..] == parts[i + 1..];
      var more := AddArgStep(Trim(parts[i]), args);
      if !more.Ok? {
        return more;
      }
      args := more.value;
    }
    r := Ok(args);
  }

  method AddArgStep(part: string, args: map<string, CelValue>) returns (r: Outcome<map<string, CelValue>>)
    ensures r == AddArg(part, args)
  {
    var colon := FindChar(part, ':');
    if colon.None? {
      return Ok(args);
    }
    var key, text := Trim(part[..colon.value]), Trim(part[colon.value + 1..]);
    var value := ParseValue(text);
    r := if value.Ok? then Ok(args[key := value.value]) else value.PropagateFailure();
  }
}
