/** What stops the parser, from the guards of its branches and slices alone: an error or a panic. */
module CelPanics {
  import opened Text
  import opened CelAst
  import opened CelLexer
  import opened CelBraces
  import opened CelPrintedValues
  import opened CelPrintedOps

  // ---- The slices ----

  /** The clause of `if` and `foreach` panics exactly when the first `)` stands in front of the
      first `(`. */
  lemma ClausePanicsIff(s: string)
    ensures ParenClause(s).Panic?
            <==> FindChar(s, '(').Some? && FindChar(s, ')').Some? && FindChar(s, ')').value < FindChar(s, '(').value
  {
  }

  /** A name in front of `=` never panics: the keyword has no `=`. */
  lemma LetNamePanicsNever(s: string)
    requires "let " <= s && FindChar(s, '=').Some?
    ensures FindChar(s, '=').value >= 4
  {
    assert s[..4] == "let ";
    assert forall i :: 0 <= i < 4 ==> s[i] == s[..4][i] != '=';
  }

  /** The value behind a colon is a lone quotation mark. */
  predicate LoneQuote(part: string) {
    FindChar(part, ':').Some? && Trim(Trim(part[FindChar(part, ':').value + 1..])) == "\""
  }

  lemma AddArgPanicsIff(part: string, args: map<string, CelValue>)
    ensures !AddArg(part, args).Err? && (AddArg(part, args).Panic? <==> LoneQuote(part))
  {
  }

  predicate AnyLoneQuote(parts: seq<string>) {
    exists i :: 0 <= i < |parts| && LoneQuote(Trim(parts[i]))
  }

  /** Arguments panic exactly when the value of one of them is a lone quotation mark. */
  lemma {:induction false} ArgsPanicIff(parts: seq<string>, args: map<string, CelValue>)
    ensures !CommandArgs(parts, args).Err?
    ensures CommandArgs(parts, args).Panic? <==> AnyLoneQuote(parts)
    decreases |parts|
  {
    if parts != [] {
      var first := AddArg(Trim(parts[0]), args);
      AddArgPanicsIff(Trim(parts[0]), args);
      if first.Ok? {
        ArgsPanicIff(parts[1..], first.value);
        assert forall i :: 0 < i < |parts| ==> parts[i] == parts[1..][i - 1];
      }
    }
  }

  /** The arguments of a command panic exactly when the last `)` stands in front of the `(`, or the
      value of an argument is a lone quotation mark. */
  lemma ParenArgsPanicIff(s: string, open: nat)
    requires FindChar(s, '(') == Some(open)
    ensures match RFindChar(s, ')')
            case None => !ParenArgs(s, open).Panic?
            case Some(close) =>
              ParenArgs(s, open).Panic?
              <==> close < open || AnyLoneQuote(Split(s[open + 1..close], ","))
  {
    var close := RFindChar(s, ')');
    if close.Some? && open < close.value {
      ArgsPanicIff(Split(s[open + 1..close.value], ","), map[]);
    }
  }

  // ---- The first fault ----

  datatype Fault = Fine | Error | Panics

  function FaultOf<T>(o: Outcome<T>): Fault {
    match o
    case Ok(_) => Fine
    case Err(_) => Error
    case Panic => Panics
  }

  /** Of things that are done one after the other, the first one that fails decides. */
  function FirstFault(faults: seq<Fault>): Fault
    decreases |faults|
  {
    if faults == [] then Fine
    else if faults[0] != Fine then faults[0]
    else FirstFault(faults[1..])
  }

  predicate FirstAt(faults: seq<Fault>, fault: Fault, i: nat) {
    i < |faults| && faults[i] == fault && forall j :: 0 <= j < i ==> faults[j] == Fine
  }

  /** One of the things fails in this way and everything in front of it is fine. */
  predicate FailsFirst(faults: seq<Fault>, fault: Fault) {
    exists i: nat :: i < |faults| && FirstAt(faults, fault, i)
  }

  lemma {:induction false} FirstFaultIs(faults: seq<Fault>, fault: Fault)
    requires fault != Fine
    ensures FirstFault(faults) == fault <==> FailsFirst(faults, fault)
    decreases |faults|
  {
    if faults != [] && faults[0] == Fine {
      var rest := faults[1..];
      FirstFaultIs(rest, fault);
      if FailsFirst(rest, fault) {
        var i: nat :| i < |rest| && FirstAt(rest, fault, i);
        assert FirstAt(faults, fault, i + 1);
      }
      if FailsFirst(faults, fault) {
        var i: nat :| i < |faults| && FirstAt(faults, fault, i);
        assert FirstAt(rest, fault, i - 1);
      }
    } else if faults != [] {
      assert FirstFault(faults) == fault ==> FirstAt(faults, fault, 0);
    }
  }

  // ---- Values and filters ----

  function ValueFault(text: string): Fault {
    if Trim(text) == "\"" then Panics else Fine
  }

  lemma ValueFaults(text: string)
    ensures FaultOf(ParseValue(text)) == ValueFault(text)
  {
  }

  function OperatorFault(s: string, opText: string): Fault
    requires Contains(s, opText)
  {
    ValueFault(Trim(s[Find(s, opText).value + |opText|..]))
  }

  /** A condition without an operator is an error; one whose value is a lone quotation mark panics. */
  function ConditionFault(s: string): Fault {
    var k := OperatorIn(s, 0);
    if k == |OPERATORS| then Error else OperatorFault(s, OPERATORS[k].0)
  }

  lemma ConditionFaults(s: string)
    ensures FaultOf(ParseSingleFilter(s)) == ConditionFault(s)
  {
    var k := OperatorIn(s, 0);
    if k < |OPERATORS| {
      OperatorFaults(s, OPERATORS[k].0, OPERATORS[k].1);
    }
  }

  lemma OperatorFaults(s: string, opText: string, op: CompareOp)
    requires Contains(s, opText)
    ensures FaultOf(ParseCondition(s, opText, op)) == OperatorFault(s, opText)
  {
    ValueFaults(Trim(s[Find(s, opText).value + |opText|..]));
  }

  function FilterFaults(parts: seq<string>): (r: seq<Fault>)
    ensures |r| == |parts|
  {
    seq(|parts|, i requires 0 <= i < |parts| => if Trim(parts[i]) == "" then Fine else ConditionFault(Trim(parts[i])))
  }

  function FilterFault(body: string): Fault {
    if Trim(body) == "" then Fine else FirstFault(FilterFaults(Split(Trim(body), ",")))
  }

  lemma {:induction false} FilterPartsFault(parts: seq<string>)
    ensures FaultOf(ParseFilterParts(parts)) == FirstFault(FilterFaults(parts))
    decreases |parts|
  {
    if parts != [] {
      ConditionFaults(Trim(parts[0]));
      FilterPartsFault(parts[1..]);
      assert FilterFaults(parts)[1..] == FilterFaults(parts[1..]);
      FilterStep(parts);
    }
  }

  lemma FilterStep(parts: seq<string>)
    requires parts != []
    ensures var first, rest := ParseSingleFilter(Trim(parts[0])), ParseFilterParts(parts[1..]);
            FaultOf(ParseFilterParts(parts)) ==
              if Trim(parts[0]) != "" && FaultOf(first) != Fine then FaultOf(first) else FaultOf(rest)
  {
  }

  // ---- Segments ----

  /** The arguments of a command: inverted parentheses, or a lone quotation mark as a value. */
  function ArgsFault(r: string, open: nat): Fault {
    match RFindChar(r, ')')
    case None => Fine
    case Some(close) =>
      if close < open then Panics
      else if open < close && AnyLoneQuote(Split(r[open + 1..close], ",")) then Panics
      else Fine
  }

  function TargetFault(r: string): Fault {
    match FindChar(r, '(')
    case None => Fine
    case Some(open) => ArgsFault(r, open)
  }

  function CommandFault(s: string): Fault {
    match FindChar(s, ' ')
    case None => Fine
    case Some(space) => TargetFault(Trim(s[space..]))
  }

  lemma CommandFaults(s: string)
    ensures FaultOf(ParseCommandSegment(s)) == CommandFault(s)
  {
    match FindChar(s, ' ')
    case None =>
    case Some(space) => TargetFaults(Trim(s[..space]), Trim(s[space..]));
  }

  lemma TargetFaults(action: string, r: string)
    ensures FaultOf(ParseTarget(action, r)) == TargetFault(r)
  {
    match FindChar(r, '(')
    case None =>
    case Some(open) =>
      ParenArgsFault(r, open);
      TargetTail(action, r, open);
  }

  lemma TargetTail(action: string, r: string, open: nat)
    requires FindChar(r, '(') == Some(open)
    ensures FaultOf(ParseTarget(action, r)) == FaultOf(ParenArgs(r, open))
  {
  }

  lemma ParenArgsFault(r: string, open: nat)
    requires FindChar(r, '(') == Some(open)
    ensures FaultOf(ParenArgs(r, open)) == ArgsFault(r, open)
  {
    ParenArgsPanicIff(r, open);
    ParenArgsNoError(r, open);
    var close := RFindChar(r, ')');
    assert close.Some? ==> r[close.value] == ')' && r[open] == '(';
  }

  lemma ParenArgsNoError(r: string, open: nat)
    ensures !ParenArgs(r, open).Err?
  {
    var close := RFindChar(r, ')');
    if close.Some? && open + 1 <= close.value {
      ArgsPanicIff(Split(r[open + 1..close.value], ","), map[]);
    }
  }

  lemma {:induction false} TrimKeepsOut(s: string, c: char)
    requires c !in s
    ensures c !in TrimStart(s) && c !in TrimEnd(s)
    decreases |s|
  {
    if s != "" {
      TrimKeepsOut(s[1..], c);
      TrimKeepsOut(s[..|s| - 1], c);
    }
  }

  /** A named argument is never a lone quotation mark: quotes are taken off it, and text without
      quotes does not start with one. */
  lemma NamedIsNoQuote(body: string, key: string)
    ensures NamedString(body, key).Some? ==> Trim(NamedString(body, key).value) != "\""
  {
    var at := Find(body, key + ":");
    if at.Some? {
      var after := Trim(body[at.value + |key| + 1..]);
      if "\"" <= after {
        QuotedIsNoQuote(after[1..]);
      } else {
        RawIsNoQuote(after);
      }
    }
  }

  lemma QuotedIsNoQuote(s: string)
    ensures var end := FindChar(s, '\"'); end.Some? ==> Trim(s[..end.value]) != "\""
  {
    var end := FindChar(s, '\"');
    if end.Some? {
      TrimKeepsOut(s[..end.value], '\"');
      TrimKeepsOut(TrimStart(s[..end.value]), '\"');
    }
  }

  lemma RawIsNoQuote(after: string)
    requires Trimmed(after) && !("\"" <= after)
    ensures Trim(Trim(Before(after, ","))) != "\""
  {
    var raw := Before(after, ",");
    TrimId(Trim(raw));
    if raw != "" {
      assert raw[0] == after[0] && TrimStart(raw) == raw;
    }
  }

  lemma InvokeFaults(body: string)
    ensures FaultOf(ParseInvoke(body)) == Fine
  {
    NamedIsNoQuote(body, "payload");
  }

  /** The fault of a trimmed segment. */
  function SegmentFault(s: string): Fault {
    if s == "" then Fine
    else if "use plugin::" <= s then
      if ValidatePluginName(Trim(s[|"use plugin::"|..])).Ok? then Fine else Error
    else if "process(" <= s || "invoke(" <= s then Fine
    else if "filter " <= s then FilterFault(s[|"filter "|..])
    else if "select(" <= s || "time_window(" <= s || "similar_to(" <= s then Fine
    else CommandFault(s)
  }

  lemma FilterSegmentFaults(body: string)
    ensures FaultOf(ParseFilterSegment(body)) == FilterFault(body)
  {
    if Trim(body) != "" {
      FilterPartsFault(Split(Trim(body), ","));
    }
  }

  lemma SegmentFaults(s: string)
    ensures FaultOf(ParseSegment(s)) == SegmentFault(s)
  {
    if "invoke(" <= s {
      InvokeFaults(CallBody(s, "invoke("));
    } else if "filter " <= s {
      FilterSegmentFaults(s[|"filter "|..]);
    } else {
      CommandFaults(s);
    }
  }

  /** A segment panics exactly when it is a filter whose first failing condition has a lone
      quotation mark as its value, or a command whose last `)` stands in front of its first `(` or
      with a lone quotation mark as the value of an argument. */
  lemma SegmentPanicsIff(s: string)
    ensures ParseSegment(s).Panic?
            <==> ("filter " <= s && Trim(s[|"filter "|..]) != ""
                  && FailsFirst(FilterFaults(Split(Trim(s[|"filter "|..]), ",")), Panics))
                 || (IsCommand(s) && CommandFault(s) == Panics)
  {
    SegmentFaults(s);
    if "filter " <= s {
      FilterIsNoCall(s);
      FilterPanicsIff(s[|"filter "|..]);
    }
  }

  lemma FilterPanicsIff(body: string)
    ensures FilterFault(body) == Panics
            <==> Trim(body) != "" && FailsFirst(FilterFaults(Split(Trim(body), ",")), Panics)
  {
    FirstFaultIs(FilterFaults(Split(Trim(body), ",")), Panics);
  }

  predicate IsCommand(s: string) {
    && s != "" && !("use plugin::" <= s) && !("process(" <= s) && !("invoke(" <= s) && !("filter " <= s)
    && !("select(" <= s) && !("time_window(" <= s) && !("similar_to(" <= s)
  }

  lemma FilterIsNoCall(s: string)
    requires "filter " <= s
    ensures !("use plugin::" <= s) && !("process(" <= s) && !("invoke(" <= s)
  {
    assert s[0] == 'f';
  }

  // ---- Pipelines ----

  predicate IsDomain(domain: string) {
    domain == "kv_cache" || domain == "mid_layer" || domain == "inference" || domain == "os"
  }

  predicate IsDirective(segments: seq<string>) {
    |segments| >= 3 && segments[0] == "engine" && IsDomain(segments[1])
  }

  /** Only the directives that read a value can fail. */
  function DirectiveFault(segments: seq<string>): Fault
    requires IsDirective(segments)
  {
    if segments[1] == "mid_layer" || segments[1] == "os" then ValueFault(DirectiveArgument(segments[2])) else Fine
  }

  function SegmentsFaults(segments: seq<string>): (r: seq<Fault>)
    ensures |r| == |segments|
  {
    seq(|segments|, i requires 0 <= i < |segments| => SegmentFault(segments[i]))
  }

  function PipelineFault(input: string): Fault {
    var segments := TrimAll(Split(input, "->"));
    if IsDirective(segments) then DirectiveFault(segments) else FirstFault(SegmentsFaults(segments))
  }

  lemma DirectiveFaults(segments: seq<string>)
    requires |segments| >= 1
    ensures if IsDirective(segments) then FaultOf(EngineDirective(segments)) == DirectiveFault(segments)
            else EngineDirective(segments) == Ok(None)
    ensures IsDirective(segments) && EngineDirective(segments).Ok? ==> EngineDirective(segments).value.Some?
  {
    if |segments| >= 3 {
      DomainFaults(segments[1], DirectiveName(segments[2]), DirectiveArgument(segments[2]));
    }
  }

  lemma DomainFaults(domain: string, name: string, argument: string)
    ensures var r := DirectiveOf(domain, name, argument);
            if IsDomain(domain) then
              FaultOf(r) == (if domain == "mid_layer" || domain == "os" then ValueFault(argument) else Fine)
              && (r.Ok? ==> r.value.Some?)
            else r == Ok(None)
  {
    ValueFaults(argument);
    TrimId("");
  }

  lemma {:induction false} AllSegmentsFault(segments: seq<string>)
    ensures FaultOf(ParseSegments(segments)) == FirstFault(SegmentsFaults(segments))
    decreases |segments|
  {
    if segments != [] {
      SegmentFaults(segments[0]);
      AllSegmentsFault(segments[1..]);
      assert SegmentsFaults(segments)[1..] == SegmentsFaults(segments[1..]);
      SegmentsStep(segments);
    }
  }

  lemma SegmentsStep(segments: seq<string>)
    requires segments != []
    ensures var first, rest := ParseSegment(segments[0]), ParseSegments(segments[1..]);
            FaultOf(ParseSegments(segments)) == if FaultOf(first) != Fine then FaultOf(first) else FaultOf(rest)
  {
  }

  lemma PipelineFaults(input: string)
    ensures FaultOf(ParsePipeline(input)) == PipelineFault(input)
  {
    var segments := TrimAll(Split(input, "->"));
    DirectiveFaults(segments);
    AllSegmentsFault(segments);
    PipelineStep(input, segments);
  }

  lemma PipelineStep(input: string, segments: seq<string>)
    requires segments == TrimAll(Split(input, "->"))
    ensures var directive := EngineDirective(segments);
            FaultOf(ParsePipeline(input)) ==
              if FaultOf(directive) != Fine then FaultOf(directive)
              else if directive.value.Some? then Fine
              else FaultOf(ParseSegments(segments))
  {
  }

  /** A pipeline panics exactly when it is a directive that reads a lone quotation mark, or when its
      first segment that fails panics. */
  lemma PipelinePanicsIff(input: string)
    ensures var segments := TrimAll(Split(input, "->"));
            ParsePipeline(input).Panic? <==>
              if IsDirective(segments) then
                (segments[1] == "mid_layer" || segments[1] == "os") && Trim(DirectiveArgument(segments[2])) == "\""
              else FailsFirst(SegmentsFaults(segments), Panics)
  {
    PipelineFaults(input);
    FirstFaultIs(SegmentsFaults(TrimAll(Split(input, "->"))), Panics);
  }

  // ---- Statements and blocks ----

  /** A missing parenthesis is an error, inverted ones panic. */
  function ClauseFault(s: string): Fault {
    if FindChar(s, '(').None? || FindChar(s, ')').None? then Error
    else if FindChar(s, ')').value < FindChar(s, '(').value then Panics
    else Fine
  }

  lemma ClauseFaults(s: string)
    ensures FaultOf(ParenClause(s)) == ClauseFault(s)
  {
    ClausePanicsIff(s);
  }

  /** A missing `=` is an error. */
  function LetFault(s: string): Fault {
    match FindChar(s, '=')
    case None => Error
    case Some(eq) => PipelineFault(Trim(s[eq + 1..]))
  }

  function StatementFault(s: string, depth: nat): Fault
    decreases |s|, 0, 2
  {
    if "let " <= s then LetFault(s)
    else if "if " <= s then IfFault(s, depth)
    else if "foreach " <= s then ForeachFault(s, depth)
    else PipelineFault(s)
  }

  /** The condition, the first block, and the other block if there is one. */
  function IfFault(s: string, depth: nat): Fault
    decreases |s|, 0, 0
  {
    if ClauseFault(s) != Fine then ClauseFault(s)
    else
      match BracedBody(s)
      case Ok(body) =>
        var first := BlockFault(body.0, depth + 1);
        if first != Fine then first
        else if "else" <= Trim(body.1) then BracedFault(Trim(body.1), depth)
        else Fine
      case _ => Error
  }

  /** The clause in its parentheses must be cut in two by ` in `. */
  function ForeachFault(s: string, depth: nat): Fault
    decreases |s|, 0, 1
  {
    if ClauseFault(s) != Fine then ClauseFault(s)
    else if |Split(s[FindChar(s, '(').value + 1..FindChar(s, ')').value], " in ")| != 2 then Error
    else BracedFault(s, depth)
  }

  /** A block in the first braces of a text, one level deeper. */
  function BracedFault(s: string, depth: nat): Fault
    decreases |s|, 0, 0
  {
    match BracedBody(s)
    case Ok(body) => BlockFault(body.0, depth + 1)
    case _ => Error
  }

  function PiecesFaults(pieces: seq<string>, depth: nat, bound: nat): (r: seq<Fault>)
    requires forall i :: 0 <= i < |pieces| ==> |pieces[i]| <= bound
    ensures |r| == |pieces|
    decreases bound, 1, 0
  {
    seq(|pieces|, i requires 0 <= i < |pieces| =>
      if Trim(pieces[i]) == "" then Fine else StatementFault(Trim(pieces[i]), depth))
  }

  /** An empty block and one that nests too deep are errors; otherwise the first statement that
      fails decides. */
  function BlockFault(input: string, depth: nat): Fault
    decreases |input|, 2, 0
  {
    if input == "" || depth > MAX_PARSE_DEPTH then Error
    else FirstFault(PiecesFaults(SplitStatements(input), depth, |input|))
  }

  lemma {:induction false} StatementFaults(s: string, depth: nat)
    ensures FaultOf(ParseStatement(s, depth)) == StatementFault(s, depth)
    decreases |s|, 0, 1
  {
    if "let " <= s {
      LetFaults(s);
    } else if "if " <= s {
      IfFaults(s, depth);
    } else if "foreach " <= s {
      ForeachFaults(s, depth);
    } else {
      PipelineFaults(s);
    }
  }

  lemma LetFaults(s: string)
    requires "let " <= s
    ensures FaultOf(ParseLet(s)) == LetFault(s)
  {
    match FindChar(s, '=')
    case None => LetWithoutEquals(s);
    case Some(eq) =>
      LetNamePanicsNever(s);
      LetFaultAt(s, eq);
  }

  lemma LetWithoutEquals(s: string)
    requires FindChar(s, '=').None?
    ensures FaultOf(ParseLet(s)) == Error
  {
  }

  lemma LetFaultAt(s: string, eq: nat)
    requires FindChar(s, '=') == Some(eq) && eq >= 4
    ensures FaultOf(ParseLet(s)) == PipelineFault(Trim(s[eq + 1..]))
  {
    LetAssigns(s, eq);
    AssignFaults(Trim(s[4..eq]), Trim(s[eq + 1..]));
  }

  lemma LetAssigns(s: string, eq: nat)
    requires FindChar(s, '=') == Some(eq) && eq >= 4
    ensures ParseLet(s) == Assign(Trim(s[4..eq]), Trim(s[eq + 1..]))
  {
  }

  lemma AssignFaults(name: string, text: string)
    ensures FaultOf(Assign(name, text)) == PipelineFault(text)
  {
    PipelineFaults(text);
  }

  lemma {:induction false} IfFaults(s: string, depth: nat)
    ensures FaultOf(ParseIf(s, depth)) == IfFault(s, depth)
    decreases |s|, 0, 0
  {
    ClauseFaults(s);
    var body := BracedBody(s);
    if body.Ok? {
      BlockFaults(body.value.0, depth + 1);
      var remainder := Trim(body.value.1);
      if "else" <= remainder {
        BracedFaults(remainder, depth);
      }
      IfPartsFault(s, depth, body.value.0, body.value.1);
    }
  }

  lemma IfPartsFault(s: string, depth: nat, body: string, rest: string)
    requires BracedBody(s) == Ok((body, rest))
    ensures var clause, first, other := ParenClause(s), ParseInner(body, depth + 1), ParseBlock(Trim(rest), depth);
            FaultOf(ParseIf(s, depth)) ==
              if FaultOf(clause) != Fine then FaultOf(clause)
              else if FaultOf(first) != Fine then FaultOf(first)
              else if "else" <= Trim(rest) then FaultOf(other)
              else Fine
  {
  }

  lemma {:induction false} BracedFaults(s: string, depth: nat)
    ensures FaultOf(ParseBlock(s, depth)) == BracedFault(s, depth)
    decreases |s|, 0, 0
  {
    var body := BracedBody(s);
    if body.Ok? {
      BlockFaults(body.value.0, depth + 1);
    }
  }

  lemma {:induction false} ForeachFaults(s: string, depth: nat)
    ensures FaultOf(ParseForeach(s, depth)) == ForeachFault(s, depth)
    decreases |s|, 0, 0
  {
    ClauseFaults(s);
    var body := BracedBody(s);
    if body.Ok? {
      BlockFaults(body.value.0, depth + 1);
    }
    if ParenClause(s).Ok? {
      ForeachPartsFault(s, depth);
    }
  }

  lemma ForeachPartsFault(s: string, depth: nat)
    requires ParenClause(s).Ok?
    ensures FaultOf(ParseForeach(s, depth)) ==
              if |Split(ParenClause(s).value, " in ")| != 2 then Error
              else match BracedBody(s)
                   case Ok(body) => FaultOf(ParseInner(body.0, depth + 1))
                   case _ => Error
  {
  }

  lemma {:induction false} PiecesFault(pieces: seq<string>, depth: nat, bound: nat)
    requires forall i :: 0 <= i < |pieces| ==> |pieces[i]| <= bound
    ensures FaultOf(ParseAll(pieces, depth, bound)) == FirstFault(PiecesFaults(pieces, depth, bound))
    decreases bound, 1, |pieces|
  {
    if pieces != [] {
      StatementFaults(Trim(pieces[0]), depth);
      PiecesFault(pieces[1..], depth, bound);
      PiecesTail(pieces, depth, bound);
      PiecesStep(pieces, depth, bound);
    }
  }

  lemma PiecesTail(pieces: seq<string>, depth: nat, bound: nat)
    requires pieces != [] && forall i :: 0 <= i < |pieces| ==> |pieces[i]| <= bound
    ensures PiecesFaults(pieces, depth, bound)[1..] == PiecesFaults(pieces[1..], depth, bound)
    ensures PiecesFaults(pieces, depth, bound)[0]
            == if Trim(pieces[0]) == "" then Fine else StatementFault(Trim(pieces[0]), depth)
  {
  }

  lemma PiecesStep(pieces: seq<string>, depth: nat, bound: nat)
    requires pieces != [] && forall i :: 0 <= i < |pieces| ==> |pieces[i]| <= bound
    ensures var first, rest := ParseStatement(Trim(pieces[0]), depth), ParseAll(pieces[1..], depth, bound);
            FaultOf(ParseAll(pieces, depth, bound)) ==
              if Trim(pieces[0]) != "" && FaultOf(first) != Fine then FaultOf(first) else FaultOf(rest)
  {
  }

  lemma {:induction false} BlockFaults(input: string, depth: nat)
    ensures FaultOf(ParseInner(input, depth)) == BlockFault(input, depth)
    decreases |input|, 2, 0
  {
    if input != "" && depth <= MAX_PARSE_DEPTH {
      PiecesFault(SplitStatements(input), depth, |input|);
    }
  }

  /** Whether a text parses, is refused or panics follows from the guards alone. */
  lemma ParseFaults(input: string)
    ensures FaultOf(Parse(input)) == BlockFault(Trim(input), 0)
  {
    BlockFaults(Trim(input), 0);
  }

  /** The faults of a text's statements. */
  function TextFaults(text: string): seq<Fault> {
    PiecesFaults(SplitStatements(text), 0, |text|)
  }

  /** A text panics exactly when the guards of its first failing statement panic. */
  lemma ParsePanicsIff(input: string)
    ensures var text := Trim(input);
            Parse(input).Panic?
            <==> text != "" && FailsFirst(TextFaults(text), Panics)
  {
    var text := Trim(input);
    ParseFaults(input);
    assert Parse(input).Panic? <==> BlockFault(text, 0) == Panics;
    FirstFaultIs(TextFaults(text), Panics);
    assert text != "" ==> BlockFault(text, 0) == FirstFault(TextFaults(text));
  }

  // ---- Inputs ----

  /** A text without `;` is one statement. */
  lemma OneStatement(s: string)
    requires ';' !in s && Trimmed(s) && s != ""
    ensures ParseStatement(s, 0).Panic? ==> Parse(s).Panic?
  {
    TrimId(s);
    PlainPieces(s);
    assert SplitStatements(s) == [s];
    PiecesStep([s], 0, |s|);
  }

  lemma IfPanics(s: string)
    requires "if " <= s && ClauseFault(s) == Panics
    ensures ParseStatement(s, 0).Panic?
  {
    ClauseFaults(s);
  }

  /** The parentheses of a condition are inverted. */
  lemma ClausePanics() returns (s: string)
    ensures s == "if )(" && Parse(s).Panic?
  {
    s := "if )(";
    FindCharIs("if ", ')', "(");
    FindCharIs("if )", '(', "");
    assert s == "if " + [')'] + "(" && s == "if )" + ['('] + "";
    IfPanics(s);
    OneStatement(s);
  }

  lemma OneSegment(s: string)
    requires !Contains(s, "->") && Trimmed(s)
    ensures ParseSegment(s).Panic? ==> ParsePipeline(s).Panic?
  {
    TrimId(s);
    assert Split(s, "->") == [s];
    assert TrimAll([s]) == [s];
    assert ParseSegment(s).Panic? ==> ParseSegments([s]).Panic?;
  }

  lemma CommandPanics(s: string, space: nat, r: string, open: nat)
    requires FindChar(s, ' ') == Some(space) && Trim(s[space..]) == r
    requires FindChar(r, '(') == Some(open) && ParenArgs(r, open).Panic?
    ensures ParseGenericCommand(s).Panic?
  {
    TargetTail(Trim(s[..space]), r, open);
  }

  lemma ExpressionPanics(s: string)
    requires s != "" && s[0] == 'a' && Trimmed(s) && ';' !in s && '>' !in s && ParseSegment(s).Panic?
    ensures Parse(s).Panic?
  {
    FirstChar(s, "let ");
    FirstChar(s, "if ");
    FirstChar(s, "foreach ");
    NoArrow(s);
    OneSegment(s);
    OneStatement(s);
  }

  lemma CommandSegmentPanics(s: string)
    requires "a" <= s && (|s| > 1 ==> s[1] == ' ') && ParseGenericCommand(s).Panic?
    ensures ParseSegment(s).Panic?
  {
    NoArrow("a");
    WordSegment(s, "a");
  }

  /** A statement `a` with arguments that panic. */
  lemma PanicsBehindWord(s: string, r: string, open: nat)
    requires s == "a " + r && Trimmed(r) && r != "" && ';' !in r && '>' !in r
    requires FindChar(r, '(') == Some(open) && ParenArgs(r, open).Panic?
    ensures Parse(s).Panic?
  {
    CommandBehindWord(s, r, open);
    CommandSegmentPanics(s);
    ExpressionPanics(s);
  }

  lemma CommandBehindWord(s: string, r: string, open: nat)
    requires s == "a " + r && Trimmed(r)
    requires FindChar(r, '(') == Some(open) && ParenArgs(r, open).Panic?
    ensures ParseGenericCommand(s).Panic?
  {
    WordInFront(r);
    CommandPanics(s, 1, r, open);
  }

  lemma WordInFront(r: string)
    requires Trimmed(r)
    ensures var s := "a " + r; FindChar(s, ' ') == Some(1) && Trim(s[1..]) == r
  {
    var s := "a " + r;
    assert s == "a" + [' '] + r && s[1..] == " " + r + "";
    FindCharIs("a", ' ', r);
    TrimPad(" ", r, "");
  }

  /** The parentheses are inverted. */
  lemma ArgumentsPanic() returns (s: string)
    ensures s == "a b)(" && Parse(s).Panic?
  {
    var r := InvertedText();
    s := "a " + r;
    PanicsBehindWord(s, r, 2);
  }

  lemma InvertedText() returns (r: string)
    ensures r == "b)(" && FindChar(r, '(') == Some(2) && ParenArgs(r, 2).Panic?
  {
    r := "b)(";
    assert r == "b)" + ['('] + "";
    FindCharIs("b)", '(', "");
    Inverted(r);
  }

  lemma Inverted(r: string)
    requires r == "b)(" && FindChar(r, '(') == Some(2)
    ensures ParenArgs(r, 2).Panic?
  {
    assert r[..3] == r && ')' in r;
    assert RFindChar(r, ')').Some? && RFindChar(r, ')').value != 2;
    ParenArgsPanicIff(r, 2);
  }

  /** A value is a lone quotation mark. */
  lemma ValuePanics() returns (s: string)
    ensures s == "a b(c:\")" && Parse(s).Panic?
  {
    var r := QuoteText();
    s := "a " + r;
    PanicsBehindWord(s, r, 1);
  }

  lemma QuoteText() returns (r: string)
    ensures r == "b(c:\")" && FindChar(r, '(') == Some(1) && ParenArgs(r, 1).Panic?
  {
    r := "b(c:\")";
    OpenAtOne(r);
    QuoteInArgs(r);
  }

  lemma OpenAtOne(r: string)
    requires |r| > 1 && r[0] != '(' && r[1] == '('
    ensures FindChar(r, '(') == Some(1)
  {
    assert r == [r[0]] + ['('] + r[2..];
    FindCharIs([r[0]], '(', r[2..]);
  }

  lemma QuoteInArgs(r: string)
    requires r == "b(c:\")" && FindChar(r, '(') == Some(1)
    ensures ParenArgs(r, 1).Panic?
  {
    assert r[5] == ')' && RFindChar(r, ')') == Some(5);
    assert r[2..5] == "c:\"";
    LoneArg();
    ParenArgsPanicIff(r, 1);
  }

  lemma LoneArg()
    ensures AnyLoneQuote(Split("c:\"", ","))
  {
    TrimId("\"");
    LoneArgOf("c:\"", "\"");
  }

  lemma LoneArgOf(part: string, quote: string)
    requires |part| == 3 && part[0] == 'c' && part[1] == ':' && part[2] == '\"' && quote == "\""
    requires Trim(quote) == quote
    ensures AnyLoneQuote(Split(part, ","))
  {
    NotSplit(part);
    TrimId(part);
    ColonAtOne(part);
    assert part[2..] == quote;
    LoneQuoteAt(part, 1, quote);
    assert LoneQuote(Trim([part][0]));
  }

  lemma NotSplit(part: string)
    requires ',' !in part
    ensures Split(part, ",") == [part]
  {
    NoCharNoFind(part, ',');
  }

  lemma ColonAtOne(part: string)
    requires |part| >= 2 && part[0] != ':' && part[1] == ':'
    ensures FindChar(part, ':') == Some(1)
  {
    assert part == [part[0]] + [':'] + part[2..];
    FindCharIs([part[0]], ':', part[2..]);
  }

  lemma LoneQuoteAt(part: string, colon: nat, quote: string)
    requires FindChar(part, ':') == Some(colon) && part[colon + 1..] == quote
    requires Trim(quote) == quote == "\""
    ensures LoneQuote(part)
  {
  }
}
