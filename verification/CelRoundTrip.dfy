/** Parsing a printed CEL tree gives the tree back, up to the nesting limit and no further. */
module CelRoundTrip {
  import opened Text
  import opened CelAst
  import opened CelLexer
  import opened CelBraces
  import opened CelPrinter
  import opened CelPrintedValues
  import opened CelPrintedOps

  // ---- Brace structure of printed text ----

  ghost predicate Nested(s: string) {
    Balance(s) == 0 && forall i :: 0 <= i <= |s| ==> Balance(s[..i]) >= 0
  }

  ghost predicate Closed(s: string) {
    Nested(s) && NoTopSemi(s)
  }

  lemma {:induction false} PlainBalance(s: string)
    requires '{' !in s && '}' !in s
    ensures Balance(s) == 0
  {
    if s != "" {
      PlainBalance(s[..|s| - 1]);
    }
  }

  lemma PlainIsClosed(s: string)
    requires Plain(s)
    ensures Closed(s)
  {
    forall i | 0 <= i <= |s| ensures Balance(s[..i]) == 0 {
      PlainBalance(s[..i]);
    }
    assert s[..|s|] == s;
  }

  lemma NestedConcat(a: string, b: string)
    requires Nested(a) && Nested(b)
    ensures Nested(a + b)
    ensures Closed(a) && Closed(b) ==> Closed(a + b)
  {
    BalanceConcat(a, b);
    forall i | 0 <= i <= |a + b|
      ensures Balance((a + b)[..i]) == if i <= |a| then Balance(a[..i]) else Balance(b[..i - |a|])
    {
      if i <= |a| {
        assert (a + b)[..i] == a[..i];
      } else {
        assert (a + b)[..i] == a + b[..i - |a|];
        BalanceConcat(a, b[..i - |a|]);
      }
    }
    assert b[..0] == "";
    assert a[..|a|] == a;
  }

  /** Braces around nested text hide every `;` in it. */
  lemma NestedWrap(b: string)
    requires Nested(b)
    ensures Closed("{" + b + "}")
    ensures forall i :: 0 < i <= |b| + 1 ==> Balance(("{" + b + "}")[..i]) > 0
  {
    var s := "{" + b + "}";
    forall i | 0 < i <= |b| + 1 ensures Balance(s[..i]) == 1 + Balance(b[..i - 1]) {
      assert s[..i] == "{" + b[..i - 1];
      BalanceConcat("{", b[..i - 1]);
    }
    assert s[..|b| + 1] + "}" == s && b[..|b|] == b;
    BalanceConcat(s[..|b| + 1], "}");
    assert s[..|s|] == s && s[..0] == "";
  }

  // ---- Statements ----

  lemma PrintedBlockShape(pre: string, body: string, rest: string)
    requires '{' !in pre && Nested(body)
    ensures BracedBody(pre + ("{" + body + "}") + rest) == Ok((body, rest))
  {
    BlockCut(pre, body, rest);
    FindCharIs(pre, '{', body + "}" + rest);
    ClosingBraceAt(pre, body, rest);
  }

  lemma BlockCut(pre: string, body: string, rest: string)
    ensures var s := pre + ("{" + body + "}") + rest;
            && s == pre + ['{'] + (body + "}" + rest)
            && s[|pre| + 1..|pre| + 1 + |body|] == body && s[|pre| + 1 + |body| + 1..] == rest
  {
  }

  lemma ClosingBraceAt(pre: string, body: string, rest: string)
    requires Nested(body)
    ensures FindClosingBrace(pre + ("{" + body + "}") + rest, |pre|) == Ok(|pre| + 1 + |body|)
  {
    var block := "{" + body + "}";
    var s := pre + block + rest;
    var k := |pre| + 1 + |body|;
    NestedWrap(body);
    forall j: nat | |pre| <= j < k ensures !Closes(s, |pre|, j) {
      assert s[|pre|..j + 1] == block[..j - |pre| + 1];
    }
    assert s[|pre|..k + 1] == block;
    assert Closes(s, |pre|, k);
    assert s[|pre|] == block[0];
    FindClosingBraceIsFirst(s, |pre|);
  }

  lemma PrintedParenShape(pre: string, clause: string, rest: string)
    requires '(' !in pre && ')' !in pre && ')' !in clause
    ensures ParenClause(pre + "(" + clause + ")" + rest) == Ok(clause)
  {
    ClauseCut(pre, clause, rest);
    FindCharIs(pre, '(', clause + ")" + rest);
    FindCharIs(pre + "(" + clause, ')', rest);
  }

  lemma ClauseCut(pre: string, clause: string, rest: string)
    requires ')' !in pre && ')' !in clause
    ensures var s := pre + "(" + clause + ")" + rest;
            && s == pre + ['('] + (clause + ")" + rest)
            && s == (pre + "(" + clause) + [')'] + rest && ')' !in pre + "(" + clause
            && s[|pre| + 1..|pre + "(" + clause|] == clause
  {
  }

  lemma ParsePrintedExpression(p: CelPipeline, depth: nat)
    requires PrintableStatement(Expression(p))
    ensures ParseStatement(PrintPipeline(p), depth) == Ok(Expression(p))
  {
    PrintedPipelineShape(p);
    ParsePrintedPipeline(p);
    NoKeyword(p.ops[0], PrintPipeline(p));
  }

  lemma NoKeyword(op: CelOp, s: string)
    requires (PrintableOp(op) || PrintableDirective(op)) && !KeywordFirst(op)
    requires PrintOp(op) <= s && (|s| > |PrintOp(op)| ==> s[|PrintOp(op)|] == ' ')
    ensures !("let " <= s) && !("if " <= s) && !("foreach " <= s)
  {
    match op
    case Pipe(next) => WordIsNoKeyword(s, next);
    case Command(command, target, args) => WordIsNoKeyword(s, command);
    case _ =>
      OwnStart(op);
      StartsDifferently(s, PrintOp(op));
  }

  lemma WordIsNoKeyword(s: string, word: string)
    requires word <= s && ' ' !in word && (|s| > |word| ==> s[|word|] == ' ') && !IsKeyword(word)
    ensures !("let " <= s) && !("if " <= s) && !("foreach " <= s)
  {
    NotKeyword(s, word, "let", "let ");
    NotKeyword(s, word, "if", "if ");
    NotKeyword(s, word, "foreach", "foreach ");
  }

  /** The first two characters of a text are not those of a keyword. */
  predicate StartsOwn(text: string) {
    |text| >= 2 && text[0] != 'l' && (text[0] == 'i' ==> text[1] != 'f') && (text[0] == 'f' ==> text[1] != 'o')
  }

  lemma OwnStart(op: CelOp)
    requires (PrintableOp(op) || PrintableDirective(op)) && !op.Pipe? && !op.Command?
    ensures StartsOwn(PrintOp(op))
  {
    match op
    case Filter(_, _, _) => assert PrintOp(op)[..2] == "fi";
    case ImportPlugin(_) => assert PrintOp(op)[0] == 'u';
    case Select(_) => assert PrintOp(op)[0] == 's';
    case InvokeAction(_, _) => assert PrintOp(op)[..2] == "in";
    case FastProcess(_, _) => assert PrintOp(op)[0] == 'p';
    case TimeWindow(_) => assert PrintOp(op)[0] == 't';
    case SimilarTo(_, _) => assert PrintOp(op)[0] == 's';
    case _ => EngineStart(op);
  }

  lemma EngineStart(op: CelOp)
    requires Directive(op)
    ensures |PrintOp(op)| >= 2 && PrintOp(op)[0] == 'e'
  {
    assert DirectiveSegments(op)[0] <= PrintOp(op);
  }

  lemma StartsDifferently(s: string, text: string)
    requires text <= s && StartsOwn(text)
    ensures !("let " <= s) && !("if " <= s) && !("foreach " <= s)
  {
    assert s[0] == text[0] && s[1] == text[1];
  }

  lemma ParsePrintedAssignment(name: string, p: CelPipeline, depth: nat)
    requires PrintableStatement(Assignment(name, p))
    ensures ParseStatement(PrintStatement(Assignment(name, p)), depth) == Ok(Assignment(name, p))
  {
    PrintedPipelineShape(p);
    ParsePrintedPipeline(p);
    LetShape(name, PrintPipeline(p));
  }

  lemma LetShape(name: string, text: string)
    requires Trimmed(name) && '=' !in name && Trimmed(text)
    ensures var s := "let " + name + " = " + text;
            && "let " <= s
            && FindChar(s, '=') == Some(|name| + 5)
            && Trim(s[4..|name| + 5]) == name
            && Trim(s[|name| + 6..]) == text
  {
    var s := "let " + name + " = " + text;
    var head := "let " + name + " ";
    assert s == head + "=" + (" " + text);
    FindCharIs(head, '=', " " + text);
    assert s[4..|name| + 5] == "" + name + " ";
    assert s[|name| + 6..] == " " + text + "";
    TrimPad("", name, " ");
    TrimPad(" ", text, "");
  }

  lemma PrintedForeachClause(item: string, list: string)
    requires Trimmed(item) && Trimmed(list) && !Contains(item + " in", " in ") && !Contains(list, " in ")
    ensures var parts := Split(item + " in " + list, " in ");
            |parts| == 2 && Trim(parts[0]) == item && Trim(parts[1]) == list
  {
    FindForeachIn(item, list);
    SplitStep(item, " in ", list);
    assert Split(list, " in ") == [list];
    TrimId(item);
    TrimId(list);
  }

  lemma FindForeachIn(item: string, list: string)
    requires !Contains(item + " in", " in ")
    ensures Find(item + " in " + list, " in ") == Some(|item|)
  {
    var s := item + " in " + list;
    assert s[|item|..|item| + 4] == " in ";
    assert s == (item + " in") + (" " + list);
    forall j: nat | j < |item| ensures !HasAt(s, " in ", j) {
      HasAtPrefix(item + " in", " " + list, " in ", j);
    }
    FindIs(s, " in ", |item|);
  }

  /** What the parser makes of a tree whose blocks nest `levels` deep below `depth`. */
  function WithinLimit<T>(depth: nat, levels: nat, value: T): Outcome<T> {
    if depth + levels <= MAX_PARSE_DEPTH then Ok(value) else Err(DepthExceeded)
  }

  lemma {:induction false} PrintedStatementShape(s: CelStatement)
    requires PrintableStatement(s)
    ensures PrintStatement(s) != "" && Trimmed(PrintStatement(s)) && Closed(PrintStatement(s))
    decreases s
  {
    match s
    case Expression(p) =>
      PrintedPipelineShape(p);
      PlainIsClosed(PrintPipeline(p));
    case Assignment(name, p) =>
      PrintedPipelineShape(p);
      PrintedLetShape(name, PrintPipeline(p));
    case IfElse(condition, ifBlock, elseBlock) =>
      match elseBlock {
        case None => PrintedIfShape(condition, ifBlock);
        case Some(b) => PrintedIfElseShape(condition, ifBlock, b);
      }
    case Foreach(item, list, block) =>
      PrintedBlockClosed(block);
      PrintedForeachShape(item, list, PrintBlock(block));
  }

  lemma PrintedLetShape(name: string, text: string)
    requires Plain(name) && Plain(text) && text != "" && Trimmed(text)
    ensures var s := "let " + name + " = " + text; Trimmed(s) && Closed(s)
  {
    PlainIsClosed("let " + name + " = " + text);
  }

  lemma PrintedForeachShape(item: string, list: string, block: string)
    requires Plain(item) && Plain(list) && Closed(block) && block != "" && block[|block| - 1] == '}'
    ensures var s := "foreach (" + (item + " in " + list) + ") " + block; Trimmed(s) && Closed(s)
  {
    HeadedBlockShape("foreach (" + (item + " in " + list) + ") ", block);
  }

  lemma {:induction false} PrintedIfShape(condition: string, ifBlock: CelAst)
    requires PrintableStatement(IfElse(condition, ifBlock, None))
    ensures var text := PrintStatement(IfElse(condition, ifBlock, None));
            text != "" && Trimmed(text) && Closed(text)
    decreases IfElse(condition, ifBlock, None), 0
  {
    var text := "if (" + condition + ") " + PrintBlock(ifBlock);
    PrintedBlockClosed(ifBlock);
    HeadedBlockShape("if (" + condition + ") ", PrintBlock(ifBlock));
    assert text + "" == text;
  }

  lemma {:induction false} PrintedIfElseShape(condition: string, ifBlock: CelAst, b: CelAst)
    requires PrintableStatement(IfElse(condition, ifBlock, Some(b)))
    ensures var text := PrintStatement(IfElse(condition, ifBlock, Some(b)));
            text != "" && Trimmed(text) && Closed(text)
    decreases IfElse(condition, ifBlock, Some(b)), 0
  {
    PrintedBlockClosed(ifBlock);
    PrintedBlockClosed(b);
    HeadedBlockShape("if (" + condition + ") ", PrintBlock(ifBlock));
    HeadedBlockShape("else ", PrintBlock(b));
    ElseShape("if (" + condition + ") " + PrintBlock(ifBlock), "else " + PrintBlock(b), PrintBlock(b));
  }

  lemma HeadedBlockShape(head: string, block: string)
    requires Plain(head) && head != "" && !IsSpace(head[0])
    requires Closed(block) && block != "" && block[|block| - 1] == '}'
    ensures Closed(head + block) && Trimmed(head + block)
  {
    PlainIsClosed(head);
    NestedConcat(head, block);
  }

  lemma ElseShape(first: string, second: string, block: string)
    requires Closed(first) && first != "" && Trimmed(first)
    requires Closed(second) && second != "" && Trimmed(second) && second == "else " + block
    ensures Closed(first + (" else " + block)) && Trimmed(first + (" else " + block))
  {
    assert " else " + block == " " + second;
    PlainIsClosed(" ");
    NestedConcat(" ", second);
    NestedConcat(first, " " + second);
  }

  lemma {:induction false} PrintedBlockClosed(a: CelAst)
    requires Printable(a)
    ensures Closed(PrintBlock(a)) && Nested(PrintStatements(a.statements))
    decreases a
  {
    PrintedStatementsNested(a.statements);
    NestedWrap(PrintStatements(a.statements));
  }

  lemma {:induction false} PrintedStatementsNested(ss: seq<CelStatement>)
    requires PrintableAll(ss)
    ensures Nested(PrintStatements(ss))
    decreases ss
  {
    if ss == [] {
      PlainIsClosed("");
    } else {
      PrintedStatementShape(ss[0]);
      NestedConcat(PrintStatement(ss[0]), ";");
      PrintedStatementsNested(ss[1..]);
      NestedConcat(PrintStatement(ss[0]) + ";", PrintStatements(ss[1..]));
    }
  }

  lemma {:induction false} ParsePrintedStatement(s: CelStatement, depth: nat)
    requires PrintableStatement(s) && depth <= MAX_PARSE_DEPTH
    ensures ParseStatement(PrintStatement(s), depth) == WithinLimit(depth, NestingOf(s), s)
    decreases s
  {
    match s
    case Expression(p) => ParsePrintedExpression(p, depth);
    case Assignment(name, p) => ParsePrintedAssignment(name, p, depth);
    case IfElse(condition, ifBlock, elseBlock) =>
      match elseBlock {
        case None => ParsePrintedIf(condition, ifBlock, depth);
        case Some(b) => ParsePrintedIfElse(condition, ifBlock, b, depth);
      }
    case Foreach(item, list, block) => ParsePrintedForeach(item, list, block, depth);
  }

  lemma {:induction false} ParsePrintedIf(condition: string, ifBlock: CelAst, depth: nat)
    requires PrintableStatement(IfElse(condition, ifBlock, None)) && depth <= MAX_PARSE_DEPTH
    ensures var s := IfElse(condition, ifBlock, None);
            ParseStatement(PrintStatement(s), depth) == WithinLimit(depth, NestingOf(s), s)
    decreases IfElse(condition, ifBlock, None), 0
  {
    PrintedBlockClosed(ifBlock);
    HeadShape("if ", "if (", condition, Print(ifBlock), "");
    TrimId(condition);
    ParsePrinted(ifBlock, depth + 1);
    IfStep(PrintStatement(IfElse(condition, ifBlock, None)), depth, condition, Print(ifBlock), "");
  }

  lemma {:induction false} ParsePrintedIfElse(condition: string, ifBlock: CelAst, b: CelAst, depth: nat)
    requires PrintableStatement(IfElse(condition, ifBlock, Some(b))) && depth <= MAX_PARSE_DEPTH
    ensures var s := IfElse(condition, ifBlock, Some(b));
            ParseStatement(PrintStatement(s), depth) == WithinLimit(depth, NestingOf(s), s)
    decreases IfElse(condition, ifBlock, Some(b)), 0
  {
    var tail := " else " + PrintBlock(b);
    PrintedBlockClosed(ifBlock);
    PrintedBlockClosed(b);
    HeadShape("if ", "if (", condition, Print(ifBlock), tail);
    ElseParts(Print(b));
    TrimId(condition);
    ParsePrinted(ifBlock, depth + 1);
    ParsePrinted(b, depth + 1);
    IfElseStep("if (" + condition + ") " + PrintBlock(ifBlock) + tail, depth, condition, Print(ifBlock), tail,
               "else " + PrintBlock(b), Print(b), "");
    IfElseLimit(depth, condition, ifBlock, b);
  }

  /** Both blocks are one level below the statement. */
  lemma IfElseLimit(depth: nat, condition: string, ifBlock: CelAst, b: CelAst)
    ensures var s := IfElse(condition, ifBlock, Some(b));
            var r, e := WithinLimit(depth + 1, Nesting(ifBlock), ifBlock), WithinLimit(depth + 1, Nesting(b), b);
            WithinLimit(depth, NestingOf(s), s) ==
              if !r.Ok? then r.PropagateFailure()
              else if !e.Ok? then e.PropagateFailure()
              else Ok(s)
  {
  }

  lemma IfStep(s: string, depth: nat, condition: string, body: string, rest: string)
    requires "if " <= s && ParenClause(s) == Ok(condition) && BracedBody(s) == Ok((body, rest))
    requires !("else" <= Trim(rest))
    ensures var r := ParseInner(body, depth + 1);
            ParseStatement(s, depth) ==
              if r.Ok? then Ok(IfElse(Trim(condition), r.value, None)) else r.PropagateFailure()
  {
  }

  lemma IfElseStep(s: string, depth: nat, condition: string, body: string, rest: string, remainder: string,
                   elseBody: string, more: string)
    requires "if " <= s && ParenClause(s) == Ok(condition) && BracedBody(s) == Ok((body, rest))
    requires Trim(rest) == remainder && "else" <= remainder && BracedBody(remainder) == Ok((elseBody, more))
    ensures var r := ParseInner(body, depth + 1);
            var e := ParseInner(elseBody, depth + 1);
            ParseStatement(s, depth) ==
              if !r.Ok? then r.PropagateFailure()
              else if !e.Ok? then e.PropagateFailure()
              else Ok(IfElse(Trim(condition), r.value, Some(e.value)))
  {
    BlockStep(remainder, depth, elseBody, more);
  }

  lemma BlockStep(s: string, depth: nat, body: string, rest: string)
    requires BracedBody(s) == Ok((body, rest))
    ensures ParseBlock(s, depth) == ParseInner(body, depth + 1)
  {
  }

  lemma ForeachStep(s: string, depth: nat, clause: string, body: string, rest: string, item: string, list: string)
    requires "foreach " <= s && ParenClause(s) == Ok(clause) && BracedBody(s) == Ok((body, rest))
    requires var parts := Split(clause, " in "); |parts| == 2 && Trim(parts[0]) == item && Trim(parts[1]) == list
    ensures var r := ParseInner(body, depth + 1);
            ParseStatement(s, depth) == if r.Ok? then Ok(Foreach(item, list, r.value)) else r.PropagateFailure()
  {
  }

  /** The clause, the body and the rest of a statement that starts with a keyword. */
  lemma HeadShape(keyword: string, open: string, clause: string, body: string, rest: string)
    requires open == keyword + "(" && '(' !in keyword && ')' !in keyword && '{' !in keyword
    requires ')' !in clause && '{' !in clause && Nested(body)
    ensures var s := open + clause + ") " + ("{" + body + "}") + rest;
            keyword <= s && ParenClause(s) == Ok(clause) && BracedBody(s) == Ok((body, rest))
  {
    var s := open + clause + ") " + ("{" + body + "}") + rest;
    var behind := " " + ("{" + body + "}") + rest;
    assert s == keyword + "(" + clause + ")" + behind;
    PrintedParenShape(keyword, clause, behind);
    PrintedBlockShape(open + clause + ") ", body, rest);
  }

  lemma ElseParts(body: string)
    requires Nested(body)
    ensures var remainder := "else " + ("{" + body + "}");
            && "else" <= remainder && Trim(" else " + ("{" + body + "}")) == remainder
            && BracedBody(remainder) == Ok((body, ""))
  {
    var remainder := "else " + ("{" + body + "}");
    assert " else " + ("{" + body + "}") == " " + remainder + "";
    TrimPad(" ", remainder, "");
    assert remainder == "else " + ("{" + body + "}") + "";
    PrintedBlockShape("else ", body, "");
  }

  lemma {:induction false} ParsePrintedForeach(item: string, list: string, block: CelAst, depth: nat)
    requires PrintableStatement(Foreach(item, list, block)) && depth <= MAX_PARSE_DEPTH
    ensures var s := Foreach(item, list, block);
            ParseStatement(PrintStatement(s), depth) == WithinLimit(depth, NestingOf(s), s)
    decreases Foreach(item, list, block), 0
  {
    var clause := item + " in " + list;
    PrintedBlockClosed(block);
    HeadShape("foreach ", "foreach (", clause, Print(block), "");
    var s := "foreach (" + clause + ") " + PrintBlock(block);
    assert s + "" == s;
    PrintedForeachClause(item, list);
    ParsePrinted(block, depth + 1);
    ForeachStep(s, depth, clause, Print(block), "", item, list);
  }

  // ---- Blocks ----

  ghost function PrintAll(ss: seq<CelStatement>): (r: seq<string>)
    ensures |r| == |ss| && forall i :: 0 <= i < |ss| ==> r[i] == PrintStatement(ss[i])
  {
    seq(|ss|, i requires 0 <= i < |ss| => PrintStatement(ss[i]))
  }

  lemma {:induction false} PrintedPieces(ss: seq<CelStatement>)
    requires PrintableAll(ss)
    ensures Pieces(PrintStatements(ss), "", 0) == PrintAll(ss) + [""]
    decreases ss
  {
    if ss != [] {
      PrintedStatementShape(ss[0]);
      PiecesStep(PrintStatement(ss[0]), PrintStatements(ss[1..]));
      PrintedPieces(ss[1..]);
    }
  }

  lemma {:induction false} ParsePrintedAll(ss: seq<CelStatement>, depth: nat, bound: nat)
    requires PrintableAll(ss) && depth <= MAX_PARSE_DEPTH
    requires forall i :: 0 <= i < |ss| ==> |PrintStatement(ss[i])| <= bound
    ensures ParseAll(PrintAll(ss), depth, bound) == WithinLimit(depth, NestingAll(ss), ss)
    decreases ss
  {
    if ss != [] {
      PrintedStatementShape(ss[0]);
      TrimId(PrintStatement(ss[0]));
      ParsePrintedStatement(ss[0], depth);
      ParsePrintedAll(ss[1..], depth, bound);
      assert PrintAll(ss)[1..] == PrintAll(ss[1..]);
      AllLimit(depth, ss);
    }
  }

  lemma AllLimit(depth: nat, ss: seq<CelStatement>)
    requires ss != [] && depth <= MAX_PARSE_DEPTH
    ensures var first := WithinLimit(depth, NestingOf(ss[0]), ss[0]);
            var rest := WithinLimit(depth, NestingAll(ss[1..]), ss[1..]);
            WithinLimit(depth, NestingAll(ss), ss) ==
              if !first.Ok? then first.PropagateFailure()
              else if !rest.Ok? then rest.PropagateFailure()
              else Ok([first.value] + rest.value)
  {
    assert ss == [ss[0]] + ss[1..];
  }

  lemma {:induction false} ParsePrinted(a: CelAst, depth: nat)
    requires Printable(a)
    ensures ParseInner(Print(a), depth) == WithinLimit(depth, Nesting(a), a)
    decreases a
  {
    var text := Print(a);
    PrintedStatementShape(a.statements[0]);
    assert text != "";
    if depth <= MAX_PARSE_DEPTH {
      PrintedPieces(a.statements);
      assert SplitStatements(text) == PrintAll(a.statements);
      ParsePrintedAll(a.statements, depth, |text|);
    }
  }

  lemma {:induction false} PrintedEnd(ss: seq<CelStatement>)
    requires ss != []
    ensures PrintStatements(ss) != "" && PrintStatements(ss)[|PrintStatements(ss)| - 1] == ';'
    ensures PrintStatement(ss[0]) <= PrintStatements(ss)
  {
    if |ss| > 1 {
      PrintedEnd(ss[1..]);
    }
  }

  /** The round trip: the parser inverts the printer on every printable tree that nests at most
      32 levels, and rejects every deeper one. */
  lemma RoundTrip(a: CelAst)
    requires Printable(a)
    ensures Parse(Print(a)) == if Nesting(a) <= 32 then Ok(a) else Err(DepthExceeded)
  {
    PrintedStatementShape(a.statements[0]);
    PrintedEnd(a.statements);
    TrimId(Print(a));
    ParsePrinted(a, 0);
  }
}
