/** Parsing printed operations and pipelines gives them back. */
module CelPrintedOps {
  import opened Text
  import opened CelAst
  import opened CelLexer
  import opened CelPrinter
  import opened CelPrintedValues
  import opened CelPrintedCalls

  // ---- Segments ----

  lemma ParsePrintedFilter(field: string, op: CompareOp, value: CelValue)
    requires PrintableFilter(field, op, value)
    ensures ParseFilters(PrintCondition(field, op, value)) == Ok([Filter(field, op, value)])
  {
    var s := PrintCondition(field, op, value);
    PrintedValueShape(value);
    OperatorTextShape(op);
    ConditionShape(field, OperatorText(op), PrintValue(value));
    ParsePrintedCondition(field, op, value);
    OneFilterPart(s, Filter(field, op, value));
  }

  lemma ConditionShape(field: string, opText: string, text: string)
    requires field != "" && Trimmed(field) && text != "" && Trimmed(text)
    requires Plain(field) && Plain(opText) && Plain(text)
    requires ',' !in field && ',' !in opText && ',' !in text
    ensures var s := field + " " + (opText + " " + text);
            s != "" && Trimmed(s) && Plain(s) && ',' !in s
  {
  }

  lemma OneFilterPart(s: string, f: CelOp)
    requires s != "" && Trimmed(s) && ',' !in s && ParseSingleFilter(s) == Ok(f)
    ensures ParseFilters(s) == Ok([f])
  {
    TrimId(s);
    NoCharNoFind(s, ',');
    assert Split(s, ",") == [s];
    OneFilter([s], f);
  }

  lemma OneFilter(parts: seq<string>, f: CelOp)
    requires |parts| == 1 && Trim(parts[0]) != "" && ParseSingleFilter(Trim(parts[0])) == Ok(f)
    ensures ParseFilterParts(parts) == Ok([f])
  {
    assert ParseFilterParts(parts[1..]) == Ok([]);
    assert [f] + [] == [f];
  }

  lemma SplitPrintedFields(fields: seq<string>)
    requires fields != [] && forall i :: 0 <= i < |fields| ==> PrintableField(fields[i])
    ensures TrimAll(Split(JoinWith(fields, ", "), ",")) == fields
  {
    forall i | 0 <= i < |fields| ensures IsSegment(fields[i], ",") {
      assert PrintableField(fields[i]);
      NoCharNoFind(fields[i], ',');
    }
    SplitJoined(fields, "", ",", ", ");
  }

  // ---- Which kind of operation a segment is ----

  lemma CallSegment(call: string, body: string)
    requires call != ""
    ensures var s := call + body + ")"; call <= s && CallBody(s, call) == body && s[0] == call[0]
  {
    var s := call + body + ")";
    assert s[|call|..] == body + ")";
  }

  lemma ImportSegment(name: string)
    requires ValidatePluginName(name).Ok?
    ensures ParseSegment("use plugin::" + name) == Ok(Some(ImportPlugin(name)))
  {
    assert ("use plugin::" + name)[|"use plugin::"|..] == name;
    assert PluginNameChar(name[0]) && PluginNameChar(name[|name| - 1]);
    TrimId(name);
  }

  lemma ProcessSegment(body: string)
    ensures ParseSegment("process(" + body + ")") == Ok(Some(ParseProcess(body)))
  {
    CallSegment("process(", body);
    FirstChar("process(" + body + ")", "use plugin::");
  }

  lemma InvokeSegment(body: string)
    ensures ParseSegment("invoke(" + body + ")") == ParseInvoke(body)
  {
    var s := "invoke(" + body + ")";
    CallSegment("invoke(", body);
    FirstChar(s, "use plugin::");
    FirstChar(s, "process(");
  }

  lemma FilterSegment(body: string)
    ensures ParseSegment("filter " + body) == ParseFilterSegment(body)
  {
    var s := "filter " + body;
    assert s[|"filter "|..] == body && s[0] == 'f';
    FirstChar(s, "use plugin::");
    FirstChar(s, "process(");
    FirstChar(s, "invoke(");
  }

  lemma SelectSegment(body: string)
    ensures ParseSegment("select(" + body + ")") == Ok(Some(ParseSelect(body)))
  {
    var s := "select(" + body + ")";
    CallSegment("select(", body);
    FirstChar(s, "use plugin::");
    FirstChar(s, "process(");
    FirstChar(s, "invoke(");
    FirstChar(s, "filter ");
  }

  lemma WindowSegment(body: string)
    ensures ParseSegment("time_window(" + body + ")") == Ok(Some(ParseWindow(body)))
  {
    var s := "time_window(" + body + ")";
    CallSegment("time_window(", body);
    FirstChar(s, "use plugin::");
    FirstChar(s, "process(");
    FirstChar(s, "invoke(");
    FirstChar(s, "filter ");
    FirstChar(s, "select(");
  }

  lemma SimilarSegment(body: string)
    ensures ParseSegment("similar_to(" + body + ")") == Ok(Some(ParseSimilar(body)))
  {
    var s := "similar_to(" + body + ")";
    CallSegment("similar_to(", body);
    FirstChar(s, "use plugin::");
    FirstChar(s, "process(");
    FirstChar(s, "invoke(");
    FirstChar(s, "filter ");
    assert s[1] == 'i' && "select("[1] == 'e';
    FirstChar(s, "time_window(");
  }

  /** A word that starts no call keeps starting none when a blank follows it. */
  lemma NoCall(s: string, word: string, call: string)
    requires word <= s && (|s| > |word| ==> s[|word|] == ' ') && ' ' !in call && !(call <= word)
    ensures !(call <= s)
  {
    if |call| > |word| {
      assert |s| > |word| ==> call[|word|] in call;
    } else {
      assert word[..|call|] == s[..|call|];
    }
  }

  /** Neither a pipe word nor the word of a command is taken for a call. */
  lemma WordSegment(s: string, word: string)
    requires PrintableWord(word) && word <= s
    requires |s| > |word| ==> s[|word|] == ' ' && word != "filter" && word != "use"
    ensures ParseSegment(s) == ParseCommandSegment(s)
  {
    NoCall(s, word, "process(");
    NoCall(s, word, "invoke(");
    NoCall(s, word, "select(");
    NoCall(s, word, "time_window(");
    NoCall(s, word, "similar_to(");
    if |s| == |word| {
      assert s == word;
      NoBlankPrefix(s, "use plugin::", 3);
      NoBlankPrefix(s, "filter ", 6);
    } else {
      NotKeyword(s, word, "filter", "filter ");
      NotKeyword(s, word, "use", "use ");
      assert "use plugin::" <= s ==> "use " <= s;
    }
  }

  lemma PipeSegment(word: string)
    requires PrintableWord(word)
    ensures ParseSegment(word) == Ok(Some(Pipe(word)))
  {
    WordSegment(word, word);
  }

  lemma CommandSegment(command: string, target: Option<string>, args: map<string, CelValue>)
    requires PrintableCommand(command, target, args)
    ensures ParseSegment(PrintOp(Command(command, target, args))) == Ok(Some(Command(command, target, args)))
  {
    WordSegment(PrintOp(Command(command, target, args)), command);
    ParsePrintedCommand(command, target, args);
  }

  lemma FilterOp(field: string, cmp: CompareOp, value: CelValue)
    requires PrintableFilter(field, cmp, value)
    ensures ParseSegment("filter " + PrintCondition(field, cmp, value)) == Ok(Some(Filter(field, cmp, value)))
  {
    FilterSegment(PrintCondition(field, cmp, value));
    ParsePrintedFilter(field, cmp, value);
  }

  lemma InvokeOp(action: string, args: map<string, CelValue>)
    requires PrintableOp(InvokeAction(action, args))
    ensures ParseSegment(PrintOp(InvokeAction(action, args))) == Ok(Some(InvokeAction(action, args)))
  {
    var payload := Lookup(args, "payload");
    InvokeSegment(PrintInvoke(action, payload));
    ParsePrintedInvoke(action, payload);
    assert args == match payload case None => map[] case Some(v) => map["payload" := v];
  }

  lemma ParsePrintedOp(op: CelOp)
    requires PrintableOp(op)
    ensures ParseSegment(PrintOp(op)) == Ok(Some(op))
  {
    match op
    case ImportPlugin(name) => ImportSegment(name);
    case InvokeAction(action, args) => InvokeOp(action, args);
    case Filter(field, cmp, value) => FilterOp(field, cmp, value);
    case FastProcess(_, text) =>
      ProcessSegment("'" + text + "'");
      ParsePrintedProcess(text);
    case Pipe(next) => PipeSegment(next);
    case TimeWindow(size) =>
      WindowSegment(PrintNamed("size", size));
      ParsePrintedWindow(size);
    case SimilarTo(vector, metric) =>
      SimilarSegment(PrintSimilar(vector, metric));
      ParsePrintedSimilar(vector, metric);
    case Command(command, target, args) => CommandSegment(command, target, args);
    case Select(fields) =>
      SelectSegment(JoinAll(fields, ", "));
      SplitPrintedFields(fields);
  }

  lemma PrintedFilterShape(field: string, op: CompareOp, value: CelValue)
    requires PrintableFilter(field, op, value)
    ensures Segment("filter " + PrintCondition(field, op, value))
  {
    var opText, text := OperatorText(op), PrintValue(value);
    PrintedValueShape(value);
    OperatorTextShape(op);
    ConditionShape(field, opText, text);
    NoDashNoArrow(opText);
    NotInCondition(field, opText, text, "->");
    NoArrow("filter");
    BlankKeepsOut("filter", PrintCondition(field, op, value), "->");
    assert "filter" + " " + PrintCondition(field, op, value) == "filter " + PrintCondition(field, op, value);
  }

  lemma CallShape(call: string, body: string)
    requires call != "" && !IsSpace(call[0]) && call[|call| - 1] == '(' && Inline(call) && Inline(body)
    ensures Segment(call + body + ")")
  {
    NoArrow(call + body + ")");
  }

  lemma SelectInline(fields: seq<string>)
    requires fields != [] && forall i :: 0 <= i < |fields| ==> PrintableField(fields[i])
    ensures Inline(JoinAll(fields, ", "))
  {
    forall i | 0 <= i < |fields| ensures Inline(fields[i]) {
      assert PrintableField(fields[i]);
    }
    JoinInline(fields, ", ");
  }

  lemma CommandShape(command: string, target: Option<string>, args: map<string, CelValue>)
    requires PrintableCommand(command, target, args)
    ensures Segment(PrintOp(Command(command, target, args)))
  {
    var before := match target case None => "" case Some(t) => t;
    ArgsInline(args);
    CommandTextShape(command, before, JoinAll(ArgTexts(args), ", "));
  }

  lemma CommandTextShape(command: string, before: string, text: string)
    requires command != "" && Trimmed(command) && Inline(command) && Inline(before) && Inline(text)
    ensures Segment(command + " " + (before + ("(" + text + ")")))
  {
    NoArrow(command + " " + (before + ("(" + text + ")")));
  }

  /** A printed operation is one non-empty trimmed segment without structure of its own. */
  lemma PrintedOpShape(op: CelOp)
    requires PrintableOp(op)
    ensures Segment(PrintOp(op))
  {
    match op
    case ImportPlugin(name) => ImportShape(name);
    case InvokeAction(action, args) => InvokeShape(action, Lookup(args, "payload"));
    case Filter(field, cmp, value) => PrintedFilterShape(field, cmp, value);
    case FastProcess(_, text) => CallShape("process(", "'" + text + "'");
    case Pipe(next) =>
    case TimeWindow(size) => WindowShape(size);
    case SimilarTo(vector, metric) => SimilarShape(vector, metric);
    case Command(command, target, args) => CommandShape(command, target, args);
    case Select(fields) => SelectShape(fields);
  }

  predicate Segment(s: string) {
    s != "" && Trimmed(s) && Plain(s) && !Contains(s, "->")
  }

  lemma InvokeShape(action: string, payload: Option<CelValue>)
    requires Inline(action) && (payload.Some? ==> Inline(BareText(payload.value)))
    ensures Segment("invoke(" + PrintInvoke(action, payload) + ")")
  {
    InvokeInline(action, payload);
    CallShape("invoke(", PrintInvoke(action, payload));
  }

  lemma WindowShape(size: string)
    requires Inline(size)
    ensures Segment("time_window(" + PrintNamed("size", size) + ")")
  {
    CallShape("time_window(", PrintNamed("size", size));
  }

  lemma SimilarShape(vector: seq<string>, metric: string)
    requires (forall i :: 0 <= i < |vector| ==> IsFloatLiteral(vector[i])) && Inline(metric)
    ensures Segment("similar_to(" + PrintSimilar(vector, metric) + ")")
  {
    SimilarInline(vector, metric);
    CallShape("similar_to(", PrintSimilar(vector, metric));
  }

  lemma SelectShape(fields: seq<string>)
    requires fields != [] && forall i :: 0 <= i < |fields| ==> PrintableField(fields[i])
    ensures Segment("select(" + JoinAll(fields, ", ") + ")")
  {
    SelectInline(fields);
    CallShape("select(", JoinAll(fields, ", "));
  }

  lemma ImportShape(name: string)
    requires ValidatePluginName(name).Ok?
    ensures Segment("use plugin::" + name)
  {
    assert PluginNameChar(name[|name| - 1]);
    assert forall i :: 0 <= i < |name| ==> PluginNameChar(name[i]);
    NoArrow("use plugin::" + name);
  }

  lemma InlineConcat(a: string, b: string)
    requires Inline(a) && Inline(b) && (b != "" ==> b[0] != '>')
    ensures Inline(a + b)
  {
  }

  lemma NamedInline(key: string, content: string)
    requires Inline(key) && Inline(content)
    ensures Inline(PrintNamed(key, content))
  {
  }

  lemma InvokeInline(action: string, payload: Option<CelValue>)
    requires Inline(action) && (payload.Some? ==> Inline(BareText(payload.value)))
    ensures Inline(PrintInvoke(action, payload))
  {
    NamedInline("method", action);
    if payload.Some? {
      NamedInline("payload", BareText(payload.value));
      InlineConcat(", ", PrintNamed("payload", BareText(payload.value)));
      InlineConcat(PrintNamed("method", action), ", " + PrintNamed("payload", BareText(payload.value)));
    }
  }

  lemma BracketsInline(inner: string)
    requires Inline(inner)
    ensures Inline("vector: [" + inner + "]," + " ")
  {
  }

  lemma SimilarInline(vector: seq<string>, metric: string)
    requires (forall i :: 0 <= i < |vector| ==> IsFloatLiteral(vector[i])) && Inline(metric)
    ensures Inline(PrintSimilar(vector, metric))
  {
    VectorShape(vector);
    NamedInline("metric", metric);
    BracketsInline(JoinAll(vector, ", "));
    InlineConcat("vector: [" + JoinAll(vector, ", ") + "]," + " ", PrintNamed("metric", metric));
  }

  /** The documented command `find User(age: >18)` is printable. */
  lemma FindUser()
    ensures var op := Command("find", Some("User"), map["age" := TextValue(">18")]);
            PrintableOp(op)
  {
    FindIsWord();
    AgeIsArg();
  }

  lemma FindIsWord()
    ensures PrintableWord("find") && Inline("find")
  {
    NoArrow("find");
  }

  lemma AgeIsArg()
    ensures PrintableArg("age", TextValue(">18"))
  {
  }

  lemma {:induction false} ParsePrintedSegments(ops: seq<CelOp>)
    requires forall i :: 0 <= i < |ops| ==> PrintableOp(ops[i])
    ensures ParseSegments(PrintOps(ops)) == Ok(ops)
  {
    if ops != [] {
      ParsePrintedOp(ops[0]);
      ParsePrintedSegments(ops[1..]);
      assert PrintOps(ops)[1..] == PrintOps(ops[1..]);
      assert ops == [ops[0]] + ops[1..];
    }
  }

  lemma EngineWord(op: CelOp)
    requires PrintableOp(op) && op != Pipe("engine")
    ensures PrintOp(op) != "engine"
  {
    match op
    case ImportPlugin(_) => assert PrintOp(op)[0] == 'u';
    case InvokeAction(_, _) => assert PrintOp(op)[0] == 'i';
    case Filter(_, _, _) => assert PrintOp(op)[0] == 'f';
    case FastProcess(_, _) => assert PrintOp(op)[0] == 'p';
    case Pipe(_) =>
    case TimeWindow(_) => assert PrintOp(op)[0] == 't';
    case SimilarTo(_, _) => assert PrintOp(op)[0] == 's';
    case Command(command, _, _) => assert PrintOp(op)[|command|] == ' ' && ' ' !in "engine";
    case Select(_) => assert PrintOp(op)[0] == 's';
  }

  lemma ParsePrintedPipeline(p: CelPipeline)
    requires PrintablePipeline(p)
    ensures ParsePipeline(PrintPipeline(p)) == Ok(p)
  {
    if |p.ops| == 1 && PrintableDirective(p.ops[0]) {
      SplitPrintedDirective(p.ops[0]);
      ParsePrintedDirective(p.ops[0]);
      assert p.ops == [p.ops[0]];
    } else {
      SplitPrintedPipeline(p.ops);
      EngineWord(p.ops[0]);
      ParsePrintedSegments(p.ops);
    }
  }

  lemma SplitPrintedPipeline(ops: seq<CelOp>)
    requires ops != [] && forall i :: 0 <= i < |ops| ==> PrintableOp(ops[i])
    ensures TrimAll(Split(JoinWith(PrintOps(ops), " -> "), "->")) == PrintOps(ops)
  {
    var texts := PrintOps(ops);
    forall i | 0 <= i < |texts| ensures IsSegment(texts[i], "->") {
      PrintedOpShape(ops[i]);
    }
    SplitJoined(texts, " ", "->", " -> ");
  }

  lemma {:induction false} JoinShape(texts: seq<string>, glue: string)
    requires |texts| >= 1 && Plain(glue)
    requires forall i :: 0 <= i < |texts| ==> texts[i] != "" && Trimmed(texts[i]) && Plain(texts[i])
    ensures var s := JoinWith(texts, glue); s != "" && Trimmed(s) && Plain(s) && texts[0] <= s
  {
    if |texts| > 1 {
      JoinShape(texts[1..], glue);
    }
  }

  lemma PrintedPipelineShape(p: CelPipeline)
    requires PrintablePipeline(p)
    ensures var s := PrintPipeline(p);
            s != "" && Trimmed(s) && Plain(s) && PrintOp(p.ops[0]) <= s
    ensures var s := PrintPipeline(p);
            var t := PrintOp(p.ops[0]); |s| > |t| ==> s[|t|] == ' '
  {
    if |p.ops| == 1 && PrintableDirective(p.ops[0]) {
      DirectiveShape(p.ops[0]);
      JoinShape(DirectiveSegments(p.ops[0]), " -> ");
    } else {
      var texts := PrintOps(p.ops);
      forall i | 0 <= i < |texts| ensures texts[i] != "" && Trimmed(texts[i]) && Plain(texts[i]) {
        PrintedOpShape(p.ops[i]);
      }
      JoinShape(texts, " -> ");
    }
  }
}
