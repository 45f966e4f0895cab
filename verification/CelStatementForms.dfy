/** Whole texts and statements that no printer writes: what they are read as, and why they fail. */
module CelStatementForms {
  import opened Text
  import opened CelAst
  import opened CelLexer
  import opened CelBraces
  import opened CelPrinter
  import opened CelPrintedValues
  import opened CelPrintedOps
  import opened CelRoundTrip
  import opened CelForms

  // ---- Texts of one statement ----

  lemma BlankText(s: string)
    requires Blank(s)
    ensures Parse(s) == Err(EmptyExpression)
  {
    TrimBlank(s);
  }

  /** A text without `;` is one statement. */
  lemma OneStatement(s: string)
    requires ';' !in s && Trimmed(s) && s != ""
    ensures Parse(s) ==
              match ParseStatement(s, 0)
              case Ok(statement) => Ok(CelAst([statement]))
              case Err(e) => Err(e)
              case Panic => Panic
  {
    TrimId(s);
    PlainPieces(s);
    assert SplitStatements(s) == [s];
    OneOfAll([s], 0, |s|);
  }

  lemma AllStep(pieces: seq<string>, depth: nat, bound: nat)
    requires pieces != [] && forall i :: 0 <= i < |pieces| ==> |pieces[i]| <= bound
    requires Trim(pieces[0]) != ""
    ensures var first, rest := ParseStatement(Trim(pieces[0]), depth), ParseAll(pieces[1..], depth, bound);
            ParseAll(pieces, depth, bound) ==
              if !first.Ok? then first.PropagateFailure()
              else if !rest.Ok? then rest.PropagateFailure()
              else Ok([first.value] + rest.value)
  {
  }

  lemma OneOfAll(pieces: seq<string>, depth: nat, bound: nat)
    requires |pieces| == 1 && |pieces[0]| <= bound && Trim(pieces[0]) != ""
    ensures ParseAll(pieces, depth, bound) ==
              match ParseStatement(Trim(pieces[0]), depth)
              case Ok(statement) => Ok([statement])
              case Err(e) => Err(e)
              case Panic => Panic
  {
    AllStep(pieces, depth, bound);
    NothingLeft(pieces[1..], depth, bound);
    var first := ParseStatement(Trim(pieces[0]), depth);
    if first.Ok? {
      assert [first.value] + [] == [first.value];
    }
  }

  lemma NothingLeft(pieces: seq<string>, depth: nat, bound: nat)
    requires pieces == []
    ensures ParseAll(pieces, depth, bound) == Ok([])
  {
  }

  lemma SegmentsStep(segments: seq<string>, op: CelOp)
    requires segments != [] && ParseSegment(segments[0]) == Ok(Some(op)) && ParseSegments(segments[1..]) == Ok([])
    ensures ParseSegments(segments) == Ok([op])
  {
    assert [op] + [] == [op];
  }

  /** Without arrows a pipeline is one segment. */
  lemma OneSegment(s: string, op: CelOp)
    requires !Contains(s, "->") && Trimmed(s) && s != "engine" && ParseSegment(s) == Ok(Some(op))
    ensures ParsePipeline(s) == Ok(CelPipeline([op]))
  {
    TrimId(s);
    assert Split(s, "->") == [s] && TrimAll([s]) == [s];
    assert [s][1..] == [] && ParseSegments([s][1..]) == Ok([]);
    SegmentsStep([s], op);
    PipelineOf(s, [s], [op]);
  }

  lemma PipelineOf(s: string, segments: seq<string>, ops: seq<CelOp>)
    requires segments == TrimAll(Split(s, "->")) && segments[0] != "engine" && ParseSegments(segments) == Ok(ops)
    ensures ParsePipeline(s) == Ok(CelPipeline(ops))
  {
  }

  predicate NoKeyword(s: string) {
    !("let " <= s) && !("if " <= s) && !("foreach " <= s)
  }

  /** A text that is one operation is parsed to that operation. */
  lemma OneOperation(s: string, op: CelOp)
    requires s != "" && Trimmed(s) && ';' !in s && !Contains(s, "->") && s != "engine" && NoKeyword(s)
    requires ParseSegment(s) == Ok(Some(op))
    ensures Parse(s) == Ok(CelAst([Expression(CelPipeline([op]))]))
  {
    OneSegment(s, op);
    OneStatement(s);
  }

  /** `find User` is the command `find` with the target `User`. */
  lemma BareCommandText(action: string, target: string)
    requires PrintableWord(action) && action != "filter" && action != "use" && !IsKeyword(action)
    requires target != "" && Trimmed(target) && '(' !in target && ';' !in target && !Contains(target, "->")
    ensures Parse(action + " " + target)
            == Ok(CelAst([Expression(CelPipeline([Command(action, Some(target), map[])]))]))
  {
    BareCommand(action, target);
    CommandText(action, target);
    OneOperation(action + " " + target, Command(action, Some(target), map[]));
  }

  lemma CommandText(action: string, target: string)
    requires PrintableWord(action) && !IsKeyword(action)
    requires target != "" && Trimmed(target) && ';' !in target && !Contains(target, "->")
    ensures var s := action + " " + target;
            s != "" && Trimmed(s) && ';' !in s && !Contains(s, "->") && s != "engine" && NoKeyword(s)
  {
    var s := action + " " + target;
    BlankKeepsOut(action, target, "->");
    WordIsNoKeyword(s, action);
    assert s[|action|] == ' ' && ' ' !in "engine";
  }

  /** The documented `filter status == "active"`, and every filter of that form, compares with a
      text that starts with `=`. */
  lemma DoubleEqualsText(field: string, text: string)
    requires NoOperator(field) && NoOperator(text) && Trimmed(field) && text != "" && Trimmed(text)
    requires field != "" && ',' !in field && ',' !in text && ';' !in field && ';' !in text
    ensures Parse("filter " + (field + " " + ("==" + " " + text)))
            == Ok(CelAst([Expression(CelPipeline([Filter(field, Eq, TextValue("= " + text))]))]))
  {
    DoubleEquals(field, text);
    DoubleShape(field, text);
    FilterOperation(field + " " + ("==" + " " + text), Filter(field, Eq, TextValue("= " + text)));
  }

  lemma DoubleShape(field: string, text: string)
    requires NoOperator(field) && NoOperator(text) && Trimmed(field) && text != "" && Trimmed(text)
    requires field != "" && ',' !in field && ',' !in text && ';' !in field && ';' !in text
    ensures var cond := field + " " + ("==" + " " + text);
            cond != "" && Trimmed(cond) && ',' !in cond && ';' !in cond && '>' !in cond
  {
  }

  lemma FilterOperation(cond: string, f: CelOp)
    requires cond != "" && Trimmed(cond) && ',' !in cond && ';' !in cond && '>' !in cond
    requires ParseSingleFilter(cond) == Ok(f)
    ensures Parse("filter " + cond) == Ok(CelAst([Expression(CelPipeline([f]))]))
  {
    OneCondition(cond, f);
    FilterText(cond);
    OneOperation("filter " + cond, f);
  }

  lemma FilterText(cond: string)
    requires cond != "" && Trimmed(cond) && '>' !in cond && ';' !in cond
    ensures var s := "filter " + cond;
            s != "" && Trimmed(s) && ';' !in s && !Contains(s, "->") && s != "engine" && NoKeyword(s)
  {
    var s := "filter " + cond;
    assert s[0] == 'f' && s[1] == 'i';
    NoArrow(s);
  }

  // ---- What follows a block ----

  lemma ElsePart(mid: string, body: string, more: string)
    requires '{' !in mid && Nested(body) && (more != "" ==> !IsSpace(more[|more| - 1]))
    ensures var text := "else" + mid + ("{" + body + "}") + more;
            "else" <= text && Trim(" " + text) == text && BracedBody(text) == Ok((body, more))
  {
    var text := "else" + mid + ("{" + body + "}") + more;
    assert " " + text == " " + text + "";
    TrimPad(" ", text, "");
    PrintedBlockShape("else" + mid, body, more);
  }

  /** Between `else` and its block, and behind the block, any text is dropped: `else if (c) { .. }`
      is read as `else { .. }`, without its condition. */
  lemma ElseIfIsElse(condition: string, body: string, mid: string, elseBody: string, more: string, depth: nat)
    requires ')' !in condition && '{' !in condition && Nested(body) && Nested(elseBody) && '{' !in mid
    requires more != "" ==> !IsSpace(more[|more| - 1])
    ensures var tail := "else" + mid + ("{" + elseBody + "}") + more;
            var r := ParseInner(body, depth + 1);
            var e := ParseInner(elseBody, depth + 1);
            ParseStatement("if (" + condition + ") " + ("{" + body + "}") + (" " + tail), depth) ==
              if !r.Ok? then r.PropagateFailure()
              else if !e.Ok? then e.PropagateFailure()
              else Ok(IfElse(Trim(condition), r.value, Some(e.value)))
  {
    var tail := "else" + mid + ("{" + elseBody + "}") + more;
    HeadShape("if ", "if (", condition, body, " " + tail);
    ElsePart(mid, elseBody, more);
    IfElseStep("if (" + condition + ") " + ("{" + body + "}") + (" " + tail), depth, condition, body, " " + tail, tail,
               elseBody, more);
  }

  /** Behind the block of an `if`, text that does not start with `else` is dropped. */
  lemma IfRestDropped(condition: string, body: string, rest: string, depth: nat)
    requires ')' !in condition && '{' !in condition && Nested(body) && !("else" <= Trim(rest))
    ensures var r := ParseInner(body, depth + 1);
            ParseStatement("if (" + condition + ") " + ("{" + body + "}") + rest, depth) ==
              if r.Ok? then Ok(IfElse(Trim(condition), r.value, None)) else r.PropagateFailure()
  {
    HeadShape("if ", "if (", condition, body, rest);
    IfStep("if (" + condition + ") " + ("{" + body + "}") + rest, depth, condition, body, rest);
  }

  /** Behind the block of a `foreach`, all text is dropped. */
  lemma ForeachRestDropped(item: string, list: string, body: string, rest: string, depth: nat)
    requires Trimmed(item) && Trimmed(list) && !Contains(item + " in", " in ") && !Contains(list, " in ")
    requires ')' !in item && ')' !in list && '{' !in item && '{' !in list && Nested(body)
    ensures var r := ParseInner(body, depth + 1);
            ParseStatement("foreach (" + (item + " in " + list) + ") " + ("{" + body + "}") + rest, depth) ==
              if r.Ok? then Ok(Foreach(item, list, r.value)) else r.PropagateFailure()
  {
    var clause := item + " in " + list;
    HeadShape("foreach ", "foreach (", clause, body, rest);
    PrintedForeachClause(item, list);
    ForeachStep("foreach (" + clause + ") " + ("{" + body + "}") + rest, depth, clause, body, rest, item, list);
  }

  // ---- Why a statement fails ----

  /** The first thing a statement misses is what its error names. */
  lemma MissingPart(s: string, depth: nat)
    requires "let " <= s || "if " <= s || "foreach " <= s
    ensures "let " <= s && '=' !in s ==> ParseStatement(s, depth) == Err(MissingEquals)
    ensures !("let " <= s) && '(' !in s ==> ParseStatement(s, depth) == Err(MissingOpenParen)
    ensures !("let " <= s) && '(' in s && ')' !in s ==> ParseStatement(s, depth) == Err(MissingCloseParen)
    ensures ParenClause(s).Ok? && "foreach " <= s && |Split(ParenClause(s).value, " in ")| != 2 ==>
              ParseStatement(s, depth) == Err(BadForeachClause)
    ensures ParenClause(s).Ok? && ("if " <= s || ("foreach " <= s && |Split(ParenClause(s).value, " in ")| == 2)) ==>
              && ('{' !in s ==> ParseStatement(s, depth) == Err(MissingOpenBrace))
              && ('{' in s && '}' !in s ==> ParseStatement(s, depth) == Err(MissingCloseBrace))
  {
    ClauseErrors(s);
    BraceErrors(s);
  }

  lemma ClauseErrors(s: string)
    ensures '(' !in s ==> ParenClause(s) == Err(MissingOpenParen)
    ensures '(' in s && ')' !in s ==> ParenClause(s) == Err(MissingCloseParen)
  {
  }

  lemma BraceErrors(s: string)
    ensures '{' !in s ==> BracedBody(s) == Err(MissingOpenBrace)
    ensures '{' in s && '}' !in s ==> BracedBody(s) == Err(MissingCloseBrace)
  {
    if '}' !in s {
      forall open: nat | open <= |s| ensures FindClosingBrace(s, open) == Err(MissingCloseBrace) {
        NoClosingFrom(s, open, 0);
      }
    }
  }

  lemma {:induction false} NoClosingFrom(s: string, i: nat, depth: int)
    requires i <= |s| && '}' !in s
    ensures ClosingFrom(s, i, depth) == Err(MissingCloseBrace)
    decreases |s| - i
  {
    if i < |s| {
      NoClosingFrom(s, i + 1, depth + Delta(s[i]));
    }
  }

  /** The errors of an import, in the order in which they are tested. */
  lemma BadImport(name: string)
    requires Trimmed(name)
    ensures name == "" ==> ParseSegment("use plugin::" + name) == Err(EmptyPluginName)
    ensures |name| > 128 ==> ParseSegment("use plugin::" + name) == Err(PluginNameTooLong)
    ensures 0 < |name| <= 128 && (exists c :: c in name && !PluginNameChar(c)) ==>
              ParseSegment("use plugin::" + name) == Err(PluginNameInvalid)
  {
    assert ("use plugin::" + name)[|"use plugin::"|..] == name;
    TrimId(name);
  }
}
