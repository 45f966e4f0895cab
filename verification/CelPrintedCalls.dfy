/** Parsing the printed arguments of calls, commands and engine directives. */
module CelPrintedCalls {
  import opened Text
  import opened CelAst
  import opened CelLexer
  import opened CelPrinter
  import opened CelPrintedValues

  // ---- Named arguments ----

  /** A quoted argument is read up to its closing quote. */
  lemma NamedAt(body: string, key: string, at: nat, content: string, rest: string)
    requires Find(body, key + ":") == Some(at) && '\"' !in content
    requires at + |key| + 1 <= |body| && body[at + |key| + 1..] == " " + ("\"" + content + "\"" + rest)
    requires rest != "" ==> !IsSpace(rest[|rest| - 1])
    ensures NamedString(body, key) == Some(content)
  {
    var after := "\"" + content + "\"" + rest;
    QuotedCut(content, rest);
    TrimPad(" ", after, "");
    FindCharIs(content, '\"', rest);
  }

  lemma QuotedCut(content: string, rest: string)
    ensures var after := "\"" + content + "\"" + rest;
            && " " + after == " " + after + "" && "\"" <= after
            && after[1..] == content + ['\"'] + rest && after[1..][..|content|] == content
  {
  }

  lemma NamedFirst(key: string, content: string, rest: string)
    requires '\"' !in content && (rest != "" ==> !IsSpace(rest[|rest| - 1]))
    ensures NamedString(PrintNamed(key, content) + rest, key) == Some(content)
  {
    var body := PrintNamed(key, content) + rest;
    assert body[0..|key + ":"|] == key + ":";
    FindIs(body, key + ":", 0);
    assert body[|key| + 1..] == " " + ("\"" + content + "\"" + rest);
    NamedAt(body, key, 0, content, rest);
  }

  /** An argument behind a front in which its name does not occur. */
  lemma NamedBehind(front: string, key: string, content: string)
    requires key != "" && ' ' !in key && '\"' !in content && !Contains(front, key + ":")
    ensures NamedString(front + " " + PrintNamed(key, content), key) == Some(content)
  {
    var body := front + " " + PrintNamed(key, content);
    var rest := " \"" + content + "\"";
    assert body == front + " " + (key + ":") + rest;
    FindBehind(front, " ", key + ":", rest);
    assert body[|front| + 1 + |key| + 1..] == " " + ("\"" + content + "\"" + "");
    NamedAt(body, key, |front| + 1, content, "");
  }

  // ---- Calls ----

  lemma ParsePrintedProcess(text: string)
    requires text != "" ==> !IsQuote(text[0]) && !IsQuote(text[|text| - 1])
    ensures ParseProcess("'" + text + "'") == FastProcess("process", text)
  {
    var s := "'" + text + "'";
    assert s[1..] == text + "'";
    QuoteBehind(text);
  }

  lemma QuoteBehind(text: string)
    requires text != "" ==> !IsQuote(text[0]) && !IsQuote(text[|text| - 1])
    ensures TrimMatches(text + "'", '\'') == text && TrimMatches(text, '\"') == text
  {
    if text == "" {
      assert (text + "'")[1..] == "";
    } else {
      assert (text + "'")[..|text|] == text;
    }
  }

  lemma ParsePrintedWindow(size: string)
    requires '\"' !in size
    ensures ParseWindow(PrintNamed("size", size)) == TimeWindow(size)
  {
    assert PrintNamed("size", size) + "" == PrintNamed("size", size);
    NamedFirst("size", size, "");
  }

  lemma ParseBareText(v: CelValue)
    requires PrintablePayload(v)
    ensures ParseValue(BareText(v)) == Ok(v)
  {
    if v.TextValue? {
    } else {
      ParsePrintedValue(v);
    }
  }

  /** The method is the argument in front; the payload is only found when it was printed. */
  lemma InvokeParts(action: string, payload: string)
    requires Quotable(action) && ':' !in action && Quotable(payload)
    ensures NamedString(PrintNamed("method", action), "method") == Some(action)
    ensures NamedString(PrintNamed("method", action), "payload").None?
    ensures var body := PrintNamed("method", action) + (", " + PrintNamed("payload", payload));
            NamedString(body, "method") == Some(action) && NamedString(body, "payload") == Some(payload)
  {
    MethodAlone(action);
    NamedFirst("method", action, ", " + PrintNamed("payload", payload));
    PayloadBehind(action, payload);
  }

  lemma MethodAlone(action: string)
    requires '\"' !in action && ':' !in action
    ensures NamedString(PrintNamed("method", action), "method") == Some(action)
    ensures NamedString(PrintNamed("method", action), "payload").None?
  {
    assert PrintNamed("method", action) + "" == PrintNamed("method", action);
    NamedFirst("method", action, "");
    NamedColon("method", action, "");
    OneColon(PrintNamed("method", action) + "", 6, "payload:");
    assert "payload" + ":" == "payload:";
  }

  lemma PayloadBehind(action: string, payload: string)
    requires ':' !in action && '\"' !in payload
    ensures NamedString(PrintNamed("method", action) + (", " + PrintNamed("payload", payload)), "payload")
            == Some(payload)
  {
    NamedColon("method", action, ",");
    OneColon(PrintNamed("method", action) + ",", 6, "payload:");
    assert "payload" + ":" == "payload:";
    CommaBehind(PrintNamed("method", action), "payload", payload);
  }

  lemma CommaBehind(front: string, key: string, content: string)
    requires key != "" && ' ' !in key && '\"' !in content && !Contains(front + ",", key + ":")
    ensures NamedString(front + (", " + PrintNamed(key, content)), key) == Some(content)
  {
    NamedBehind(front + ",", key, content);
    CommaCut(front, PrintNamed(key, content));
  }

  lemma CommaCut(front: string, named: string)
    ensures front + (", " + named) == front + "," + " " + named
  {
  }

  lemma NamedColon(key: string, content: string, rest: string)
    requires ':' !in key && ':' !in content && ':' !in rest
    ensures forall i :: 0 <= i < |PrintNamed(key, content) + rest| && i != |key| ==>
              (PrintNamed(key, content) + rest)[i] != ':'
    ensures key != "" ==> (PrintNamed(key, content) + rest)[0] == key[0]
  {
  }

  /** A text whose only colon stands at `k` cannot contain a name that starts differently. */
  lemma OneColon(s: string, k: nat, p: string)
    requires p != "" && p[|p| - 1] == ':' && forall i :: 0 <= i < |s| && i != k ==> s[i] != ':'
    requires k + 1 >= |p| ==> k + 1 - |p| < |s| && s[k + 1 - |p|] != p[0]
    ensures !Contains(s, p)
  {
    forall j: nat ensures !HasAt(s, p, j) {
      HasAtChar(s, p, j, |p| - 1);
      HasAtChar(s, p, j, 0);
    }
  }

  lemma ParsePrintedInvoke(action: string, payload: Option<CelValue>)
    requires Quotable(action) && ':' !in action && (payload.Some? ==> PrintablePayload(payload.value))
    ensures ParseInvoke(PrintInvoke(action, payload))
            == Ok(Some(InvokeAction(action, match payload case None => map[] case Some(v) => map["payload" := v])))
  {
    match payload
    case None =>
      InvokeParts(action, "");
      assert PrintNamed("method", action) + "" == PrintNamed("method", action);
    case Some(v) =>
      InvokeParts(action, BareText(v));
      ParseBareText(v);
  }

  // ---- Vectors ----

  lemma LiteralShape(s: string)
    requires IsFloatLiteral(s)
    ensures IsSegment(s, ",") && Inline(s) && ']' !in s && ':' !in s
  {
    FloatShape(s);
    FloatChars(s, Start);
    assert forall i :: 0 <= i < |s| ==> LiteralChar(s[i]);
    NoCharNoFind(s, ',');
  }

  lemma VectorShape(vector: seq<string>)
    requires forall i :: 0 <= i < |vector| ==> IsFloatLiteral(vector[i])
    ensures var s := JoinAll(vector, ", "); Inline(s) && ']' !in s && ':' !in s
  {
    if vector != [] {
      forall i | 0 <= i < |vector| ensures Inline(vector[i]) && ']' !in vector[i] && ':' !in vector[i] {
        LiteralShape(vector[i]);
      }
      JoinInline(vector, ", ");
      JoinHasNo(vector, ", ", ']');
      JoinHasNo(vector, ", ", ':');
    }
  }

  lemma {:induction false} FloatLiteralsOf(parts: seq<string>, vector: seq<string>)
    requires TrimAll(parts) == vector && forall i :: 0 <= i < |vector| ==> IsFloatLiteral(vector[i])
    ensures FloatLiterals(parts) == vector
    decreases |parts|
  {
    if parts != [] {
      assert Trim(parts[0]) == vector[0];
      assert TrimAll(parts[1..]) == vector[1..];
      FloatLiteralsOf(parts[1..], vector[1..]);
      assert vector == [vector[0]] + vector[1..];
    }
  }

  lemma SplitPrintedVector(vector: seq<string>)
    requires forall i :: 0 <= i < |vector| ==> IsFloatLiteral(vector[i])
    ensures FloatLiterals(Split(JoinAll(vector, ", "), ",")) == vector
  {
    if vector == [] {
      NoCharNoFind("", ',');
    } else {
      forall i | 0 <= i < |vector| ensures IsSegment(vector[i], ",") {
        LiteralShape(vector[i]);
      }
      SplitJoined(vector, "", ",", ", ");
      FloatLiteralsOf(Split(JoinAll(vector, ", "), ","), vector);
    }
  }

  lemma ArrayFirst(inner: string, rest: string)
    requires ']' !in inner && (rest != "" ==> !IsSpace(rest[|rest| - 1]))
    ensures FloatArray("vector: [" + inner + "]" + rest, "vector") == Some(FloatLiterals(Split(inner, ",")))
  {
    var body := "vector: [" + inner + "]" + rest;
    var after := "[" + inner + "]" + rest;
    ArrayCut(inner, rest);
    FindIs(body, "vector:", 0);
    TrimPad(" ", after, "");
    FindCharIs(inner, ']', rest);
    ArrayAt(body, "vector", 0, after, |inner|);
  }

  lemma ArrayCut(inner: string, rest: string)
    ensures var body, after := "vector: [" + inner + "]" + rest, "[" + inner + "]" + rest;
            && HasAt(body, "vector:", 0) && body[7..] == " " + after + "" && "vector" + ":" == "vector:"
            && after[1..] == inner + [']'] + rest && after[1..][..|inner|] == inner
  {
    var body, after := "vector: [" + inner + "]" + rest, "[" + inner + "]" + rest;
    assert body[0..7] == "vector:";
    assert body == "vector: " + after;
  }

  lemma ArrayAt(body: string, key: string, at: nat, after: string, end: nat)
    requires Find(body, key + ":") == Some(at) && Trim(body[at + |key| + 1..]) == after
    requires "[" <= after && FindChar(after[1..], ']') == Some(end)
    ensures FloatArray(body, key) == Some(FloatLiterals(Split(after[1..][..end], ",")))
  {
  }

  lemma ParsePrintedSimilar(vector: seq<string>, metric: string)
    requires (forall i :: 0 <= i < |vector| ==> IsFloatLiteral(vector[i])) && Quotable(metric)
    ensures ParseSimilar(PrintSimilar(vector, metric)) == SimilarTo(vector, metric)
  {
    var inner := JoinAll(vector, ", ");
    VectorShape(vector);
    SplitPrintedVector(vector);
    SimilarCut(inner, PrintNamed("metric", metric));
    ArrayFirst(inner, ", " + PrintNamed("metric", metric));
    MetricBehind(inner, metric);
  }

  lemma MetricBehind(inner: string, metric: string)
    requires ':' !in inner && '\"' !in metric
    ensures NamedString("vector: [" + inner + "]," + " " + PrintNamed("metric", metric), "metric") == Some(metric)
  {
    OneColon("vector: [" + inner + "],", 6, "metric:");
    assert "metric" + ":" == "metric:";
    NamedBehind("vector: [" + inner + "],", "metric", metric);
  }

  lemma SimilarCut(inner: string, named: string)
    ensures "vector: [" + inner + "]," + " " + named == "vector: [" + inner + "]" + (", " + named)
  {
  }

  // ---- Commands ----

  lemma ArgShape(key: string, v: CelValue)
    requires PrintableArg(key, v)
    ensures IsSegment(PrintArg(key, v), ",") && Inline(PrintArg(key, v)) && ',' !in PrintArg(key, v)
  {
    PrintedValueShape(v);
    NoCharNoFind(PrintArg(key, v), ',');
  }

  lemma ParsePrintedArg(key: string, v: CelValue, args: map<string, CelValue>)
    requires PrintableArg(key, v)
    ensures AddArg(PrintArg(key, v), args) == Ok(args[key := v])
  {
    ArgCut(key, PrintValue(v));
    PrintedValueShape(v);
    ParsePrintedValue(v);
    TrimId(key);
    assert " " + PrintValue(v) + "" == " " + PrintValue(v);
    TrimPad(" ", PrintValue(v), "");
  }

  lemma ArgCut(key: string, text: string)
    requires ':' !in key
    ensures var s := key + ": " + text;
            FindChar(s, ':') == Some(|key|) && s[..|key|] == key && s[|key| + 1..] == " " + text
  {
    var s := key + ": " + text;
    assert s == key + [':'] + (" " + text);
    FindCharIs(key, ':', " " + text);
  }

  predicate PrintableArgs(args: map<string, CelValue>) {
    forall key :: key in args ==> PrintableArg(key, args[key])
  }

  lemma {:induction false} ArgTextsShape(args: map<string, CelValue>)
    requires PrintableArgs(args)
    ensures forall i :: 0 <= i < |ArgTexts(args)| ==>
              IsSegment(ArgTexts(args)[i], ",") && Inline(ArgTexts(args)[i])
    decreases args.Keys
  {
    if args.Keys != {} {
      var key := FirstArg(args);
      ArgShape(key, args[key]);
      ArgTextsShape(args - {key});
    }
  }

  /** Whatever the order in which the arguments were printed, reading them adds them all. */
  lemma {:induction false} ReadArgs(parts: seq<string>, args: map<string, CelValue>, before: map<string, CelValue>)
    requires PrintableArgs(args) && TrimAll(parts) == ArgTexts(args)
    ensures CommandArgs(parts, before) == Ok(before + args)
    decreases |parts|
  {
    if args.Keys == {} {
      assert before + args == before;
    } else {
      var key := FirstArg(args);
      var more := before[key := args[key]];
      assert Trim(parts[0]) == PrintArg(key, args[key]);
      assert TrimAll(parts[1..]) == ArgTexts(args - {key});
      ParsePrintedArg(key, args[key], before);
      ReadArgs(parts[1..], args - {key}, more);
      MoveArg(before, args, key);
    }
  }

  lemma FirstArg(args: map<string, CelValue>) returns (key: string)
    requires args.Keys != {}
    ensures key in args && ArgTexts(args) == [PrintArg(key, args[key])] + ArgTexts(args - {key})
  {
    key :| key in args.Keys && ArgTexts(args) == [PrintArg(key, args[key])] + ArgTexts(args - {key});
  }

  lemma MoveArg(before: map<string, CelValue>, args: map<string, CelValue>, key: string)
    requires key in args
    ensures before[key := args[key]] + (args - {key}) == before + args
  {
  }

  lemma SplitPrintedArgs(args: map<string, CelValue>)
    requires PrintableArgs(args) && args.Keys != {}
    ensures TrimAll(Split(JoinAll(ArgTexts(args), ", "), ",")) == ArgTexts(args)
  {
    var _ := FirstArg(args);
    ArgTextsShape(args);
    SplitJoined(ArgTexts(args), "", ",", ", ");
  }

  lemma ReadPrintedArgs(args: map<string, CelValue>)
    requires PrintableArgs(args)
    ensures CommandArgs(Split(JoinAll(ArgTexts(args), ", "), ","), map[]) == Ok(args)
  {
    if args.Keys == {} {
      assert args == map[];
    } else {
      SplitPrintedArgs(args);
      ReadAllArgs(Split(JoinAll(ArgTexts(args), ", "), ","), args);
    }
  }

  lemma ReadAllArgs(parts: seq<string>, args: map<string, CelValue>)
    requires PrintableArgs(args) && TrimAll(parts) == ArgTexts(args)
    ensures CommandArgs(parts, map[]) == Ok(args)
  {
    var none: map<string, CelValue> := map[];
    ReadArgs(parts, args, none);
    assert none + args == args;
  }

  lemma {:induction false} JoinInline(texts: seq<string>, glue: string)
    requires |texts| >= 1 && Inline(glue) && forall i :: 0 <= i < |texts| ==> Inline(texts[i])
    requires glue != "" && glue[0] != '>' && glue[|glue| - 1] != '-'
    ensures Inline(JoinWith(texts, glue))
  {
    if |texts| > 1 {
      JoinInline(texts[1..], glue);
    }
  }

  lemma ArgsInline(args: map<string, CelValue>)
    requires PrintableArgs(args)
    ensures Inline(JoinAll(ArgTexts(args), ", "))
  {
    if ArgTexts(args) != [] {
      ArgTextsShape(args);
      JoinInline(ArgTexts(args), ", ");
    }
  }

  lemma ParsePrintedParens(target: string, args: map<string, CelValue>)
    requires PrintableArgs(args)
    ensures ParenArgs(target + ("(" + JoinAll(ArgTexts(args), ", ") + ")"), |target|) == Ok(args)
  {
    ReadPrintedArgs(args);
    ParensOf(target, JoinAll(ArgTexts(args), ", "), args);
  }

  lemma ParensOf(target: string, text: string, args: map<string, CelValue>)
    requires CommandArgs(Split(text, ","), map[]) == Ok(args)
    ensures ParenArgs(target + ("(" + text + ")"), |target|) == Ok(args)
  {
    ParensCut(target, text);
  }

  lemma ParensCut(target: string, text: string)
    ensures var s := target + ("(" + text + ")");
            s == target + "(" + text + ")" && s[|target| + 1..|target| + 1 + |text|] == text
  {
  }

  lemma ParsePrintedCommand(command: string, target: Option<string>, args: map<string, CelValue>)
    requires PrintableCommand(command, target, args)
    ensures ParseGenericCommand(PrintCommand(command, target, JoinAll(ArgTexts(args), ", ")))
            == Ok(Some(Command(command, target, args)))
  {
    var before := match target case None => "" case Some(t) => t;
    var call := "(" + JoinAll(ArgTexts(args), ", ") + ")";
    var remainder := before + call;
    CommandCut(command, before, call);
    ParsePrintedParens(before, args);
    TrimId(command);
    TrimId(before);
  }

  lemma CommandCut(command: string, before: string, call: string)
    requires ' ' !in command && Trimmed(before) && '(' !in before
    requires |call| >= 2 && call[0] == '(' && call[|call| - 1] == ')'
    ensures var s := command + " " + (before + call);
            && FindChar(s, ' ') == Some(|command|) && s[..|command|] == command
            && Trim(s[|command|..]) == before + call
            && FindChar(before + call, '(') == Some(|before|) && (before + call)[..|before|] == before
  {
    WordCut(command, before + call);
    ParenCut(before, call);
  }

  lemma ParenCut(before: string, call: string)
    requires '(' !in before && call != "" && call[0] == '('
    ensures FindChar(before + call, '(') == Some(|before|) && (before + call)[..|before|] == before
  {
    assert (before + call)[..|before|] == before;
  }

  lemma WordCut(word: string, rest: string)
    requires ' ' !in word && Trimmed(rest)
    ensures var s := word + " " + rest;
            FindChar(s, ' ') == Some(|word|) && s[..|word|] == word && Trim(s[|word|..]) == rest
  {
    var s := word + " " + rest;
    assert s == word + [' '] + rest;
    FindCharIs(word, ' ', rest);
    assert s[|word|..] == " " + rest + "";
    TrimPad(" ", rest, "");
  }

  // ---- Engine directives ----

  lemma CallParts(name: string, argument: string)
    requires PrintableName(name) && Trimmed(argument)
    ensures DirectiveName(PrintCall(name, argument)) == name
    ensures DirectiveArgument(PrintCall(name, argument)) == argument
  {
    var s := PrintCall(name, argument);
    assert s == name + ['('] + (argument + ")");
    FindCharIs(name, '(', argument + ")");
    assert s[|name| + 1..|name| + 1 + |argument|] == argument;
    TrimId(argument);
    BeforeParen(name, argument + ")");
    TrimId(name);
  }

  lemma BeforeParen(name: string, rest: string)
    requires '(' !in name
    ensures Before(name + "(" + rest, "(") == name
  {
    var s := name + "(" + rest;
    assert s[|name|..|name| + 1] == "(";
    forall j: nat | j < |name| ensures !HasAt(s, "(", j) {
      HasAtChar(s, "(", j, 0);
    }
    FindIs(s, "(", |name|);
  }

  lemma MemoryDirective(action: string, target: string)
    requires PrintableName(action) && Trimmed(target)
    ensures EngineDirective(DirectiveTexts("kv_cache", PrintCall(action, target)))
            == Ok(Some(EngineMemoryControl(action, target)))
  {
    CallParts(action, target);
  }

  lemma InjectionDirective(payload: CelValue)
    requires PrintableValue(payload)
    ensures EngineDirective(DirectiveTexts("mid_layer", PrintCall("inject", PrintValue(payload))))
            == Ok(Some(MidLayerInjection(payload)))
  {
    PrintedValueShape(payload);
    CallParts("inject", PrintValue(payload));
    ParsePrintedValue(payload);
    InjectionParts(PrintCall("inject", PrintValue(payload)), PrintValue(payload), payload);
  }

  lemma InjectionParts(body: string, text: string, payload: CelValue)
    requires DirectiveArgument(body) == text && ParseValue(text) == Ok(payload)
    ensures EngineDirective(DirectiveTexts("mid_layer", body)) == Ok(Some(MidLayerInjection(payload)))
  {
  }

  lemma ControlDirective(control: string)
    requires PrintableName(control)
    ensures EngineDirective(DirectiveTexts("inference", PrintCall(control, ""))) == Ok(Some(InferenceControl(control)))
  {
    CallParts(control, "");
  }

  lemma SystemDirective(call: string, arg: Option<CelValue>)
    requires PrintableName(call) && (arg.Some? ==> PrintableValue(arg.value))
    ensures var text := match arg case None => "" case Some(v) => PrintValue(v);
            EngineDirective(DirectiveTexts("os", PrintCall(call, text)))
            == Ok(Some(SystemCall(call, match arg case None => [] case Some(v) => [v])))
  {
    match arg
    case None =>
      CallParts(call, "");
      SystemParts(PrintCall(call, ""), call, "", arg);
    case Some(v) =>
      PrintedValueShape(v);
      CallParts(call, PrintValue(v));
      ParsePrintedValue(v);
      SystemParts(PrintCall(call, PrintValue(v)), call, PrintValue(v), arg);
  }

  lemma SystemParts(body: string, call: string, text: string, arg: Option<CelValue>)
    requires DirectiveName(body) == call && DirectiveArgument(body) == text
    requires match arg case None => text == "" case Some(v) => text != "" && ParseValue(text) == Ok(v)
    ensures EngineDirective(DirectiveTexts("os", body))
            == Ok(Some(SystemCall(call, match arg case None => [] case Some(v) => [v])))
  {
  }

  lemma ParsePrintedDirective(op: CelOp)
    requires PrintableDirective(op)
    ensures EngineDirective(DirectiveSegments(op)) == Ok(Some(op))
  {
    match op
    case EngineMemoryControl(action, target) => MemoryDirective(action, target);
    case MidLayerInjection(payload) => InjectionDirective(payload);
    case InferenceControl(control) => ControlDirective(control);
    case SystemCall(call, args) =>
      if args == [] {
        SystemDirective(call, None);
      } else {
        SystemDirective(call, Some(args[0]));
        assert args == [args[0]];
      }
  }

  lemma CallInline(name: string, argument: string)
    requires Inline(name) && Inline(argument) && Trimmed(name)
    ensures Inline(PrintCall(name, argument)) && Trimmed(PrintCall(name, argument)) && PrintCall(name, argument) != ""
  {
  }

  lemma DirectiveBody(op: CelOp)
    requires PrintableDirective(op)
    ensures var body := DirectiveSegments(op)[2]; body != "" && Trimmed(body) && Inline(body)
  {
    match op
    case EngineMemoryControl(action, target) => CallInline(action, target);
    case MidLayerInjection(payload) => CallInline("inject", PrintValue(payload));
    case InferenceControl(control) => CallInline(control, "");
    case SystemCall(call, args) => CallInline(call, if args == [] then "" else PrintValue(args[0]));
  }

  lemma DirectiveShape(op: CelOp)
    requires PrintableDirective(op)
    ensures var texts := DirectiveSegments(op);
            forall i :: 0 <= i < 3 ==> texts[i] != "" && Trimmed(texts[i]) && Inline(texts[i])
  {
    DirectiveBody(op);
    DirectiveFront(op);
  }

  lemma DirectiveFront(op: CelOp)
    requires Directive(op)
    ensures var texts := DirectiveSegments(op);
            forall i :: 0 <= i < 2 ==> texts[i] != "" && Trimmed(texts[i]) && Inline(texts[i])
  {
  }

  lemma SplitPrintedDirective(op: CelOp)
    requires PrintableDirective(op)
    ensures TrimAll(Split(PrintOp(op), "->")) == DirectiveSegments(op)
  {
    var texts := DirectiveSegments(op);
    DirectiveShape(op);
    forall i | 0 <= i < 3 ensures IsSegment(texts[i], "->") {
      NoArrow(texts[i]);
    }
    SplitJoined(texts, " ", "->", " -> ");
  }
}
