/** The texts of operations that no printer writes: what each of them is read as. */
module CelForms {
  import opened Text
  import opened CelAst
  import opened CelLexer
  import opened CelPrinter
  import opened CelPrintedValues
  import opened CelPrintedCalls
  import opened CelPrintedOps

  // ---- Conditions ----

  /** Text without any of the eight operators. */
  predicate NoOperator(s: string) {
    '<' !in s && '>' !in s && '=' !in s && ':' !in s && !Contains(s, "contains")
  }

  lemma NoOperatorIn(s: string, j: nat)
    requires NoOperator(s) && j < |OPERATORS|
    ensures !Contains(s, OPERATORS[j].0)
  {
    forall i: nat ensures !HasAt(s, OPERATORS[j].0, i) {
      HasAtChar(s, OPERATORS[j].0, i, 0);
      HasAtChar(s, OPERATORS[j].0, i, |OPERATORS[j].0| - 1);
    }
  }

  lemma ConditionOf(field: string, text: string, v: CelValue, k: nat)
    requires NoOperator(field) && NoOperator(text) && Trimmed(field) && Trimmed(text) && ParseValue(text) == Ok(v)
    requires k < |OPERATORS|
    ensures ParseSingleFilter(field + " " + (OPERATORS[k].0 + " " + text)) == Ok(Filter(field, OPERATORS[k].1, v))
  {
    var (opText, op) := OPERATORS[k];
    var s := field + " " + (opText + " " + text);
    forall j | 0 <= j < k ensures !Contains(s, OPERATORS[j].0) {
      OperatorsDistinct(j, k);
      NoOperatorIn(field, j);
      NoOperatorIn(text, j);
      OperatorShape(j);
      NotInCondition(field, opText, text, OPERATORS[j].0);
    }
    NoOperatorIn(field, k);
    OperatorShape(k);
    ConditionAt(field, opText, text);
    ContainsAt(s, opText, |field| + 1);
    ConditionWith(s, k, opText, op, |field| + 1, field, text, v);
  }

  lemma OperatorShape(k: nat)
    requires k < |OPERATORS|
    ensures OPERATORS[k].0 != "" && ' ' !in OPERATORS[k].0
  {
  }

  /** What each operator means, and that there is no other one: a condition is read as its field,
      the comparison and the value behind it. */
  lemma ConditionMeans(field: string, text: string, v: CelValue)
    requires NoOperator(field) && NoOperator(text) && Trimmed(field) && Trimmed(text) && ParseValue(text) == Ok(v)
    ensures ParseSingleFilter(field + " " + (">=" + " " + text)) == Ok(Filter(field, Gte, v))
    ensures ParseSingleFilter(field + " " + ("<=" + " " + text)) == Ok(Filter(field, Lte, v))
    ensures ParseSingleFilter(field + " " + ("!=" + " " + text)) == Ok(Filter(field, NotEq, v))
    ensures ParseSingleFilter(field + " " + (">" + " " + text)) == Ok(Filter(field, Gt, v))
    ensures ParseSingleFilter(field + " " + ("<" + " " + text)) == Ok(Filter(field, Lt, v))
    ensures ParseSingleFilter(field + " " + ("contains" + " " + text)) == Ok(Filter(field, HasText, v))
    ensures ParseSingleFilter(field + " " + (":" + " " + text)) == Ok(Filter(field, Eq, v))
    ensures ParseSingleFilter(field + " " + ("=" + " " + text)) == Ok(Filter(field, Eq, v))
    ensures ParseSingleFilter(field) == Err(BadFilter(field))
  {
    ConditionOf(field, text, v, 0);
    ConditionOf(field, text, v, 1);
    ConditionOf(field, text, v, 2);
    ConditionOf(field, text, v, 3);
    ConditionOf(field, text, v, 4);
    ConditionOf(field, text, v, 5);
    ConditionOf(field, text, v, 6);
    ConditionOf(field, text, v, 7);
    NoCondition(field);
  }

  lemma NoCondition(s: string)
    requires NoOperator(s)
    ensures ParseSingleFilter(s) == Err(BadFilter(s))
  {
    forall j | 0 <= j < |OPERATORS| ensures !Contains(s, OPERATORS[j].0) {
      NoOperatorIn(s, j);
    }
  }

  /** The documented `==` is read as the operator `=` in front of a text that starts with `=`. */
  lemma DoubleEquals(field: string, text: string)
    requires NoOperator(field) && NoOperator(text) && Trimmed(field) && text != "" && Trimmed(text)
    ensures ParseSingleFilter(field + " " + ("==" + " " + text)) == Ok(Filter(field, Eq, TextValue("= " + text)))
  {
    var value := "= " + text;
    assert field + " " + ("==" + " " + text) == field + " " + "=" + value;
    EqualsText(text);
    NoOperatorIn(field, 7);
    EqualsAt(field, value);
    EqualsFound(field, text);
    ConditionWith(field + " " + "=" + value, 7, "=", Eq, |field| + 1, field, value, TextValue(value));
  }

  lemma EqualsFound(field: string, text: string)
    requires NoOperator(field) && NoOperator(text) && Find(field + " " + "=" + ("= " + text), "=").Some?
    ensures OperatorIn(field + " " + "=" + ("= " + text), 0) == 7
  {
    var s := field + " " + ("==" + " " + text);
    assert s == field + " " + "=" + ("= " + text);
    forall j | 0 <= j < 7 ensures !Contains(s, OPERATORS[j].0) {
      NotInDouble(j);
      NoOperatorIn(field, j);
      NoOperatorIn(text, j);
      OperatorShape(j);
      NotInCondition(field, "==", text, OPERATORS[j].0);
    }
    assert OPERATORS[7].0 == "=" && Contains(s, OPERATORS[7].0);
  }

  lemma NotInDouble(j: nat)
    requires j < 7
    ensures !Contains("==", OPERATORS[j].0)
  {
    forall i: nat ensures !HasAt("==", OPERATORS[j].0, i) {
      HasAtChar("==", OPERATORS[j].0, i, 0);
      HasAtChar("==", OPERATORS[j].0, i, |OPERATORS[j].0| - 1);
    }
  }

  lemma EqualsAt(field: string, value: string)
    requires Trimmed(field) && Trimmed(value) && !Contains(field, "=")
    ensures var s := field + " " + "=" + value;
            && Find(s, "=") == Some(|field| + 1) && Trim(s[..|field| + 1]) == field
            && Trim(s[|field| + 2..]) == value
  {
    var s := field + " " + "=" + value;
    FindBehind(field, " ", "=", value);
    assert s[..|field| + 1] == "" + field + " " && s[|field| + 2..] == value;
    TrimPad("", field, " ");
    TrimId(value);
  }

  lemma EqualsText(text: string)
    requires text != "" && Trimmed(text)
    ensures Trimmed("= " + text) && ParseValue("= " + text) == Ok(TextValue("= " + text))
  {
    var s := "= " + text;
    TrimId(s);
    assert s[0] == '=' && FloatStep(Start, '=') == Reject;
    RejectStays(s[1..]);
  }

  /** A condition in a segment. */
  lemma OneCondition(s: string, f: CelOp)
    requires s != "" && Trimmed(s) && ',' !in s && ParseSingleFilter(s) == Ok(f)
    ensures ParseSegment("filter " + s) == Ok(Some(f))
  {
    FilterSegment(s);
    OneFilterPart(s, f);
  }

  /** Of several conditions the first one counts; the others only have to parse. Blank ones are
      skipped. */
  lemma FirstCondition(first: string, rest: string)
    requires ',' !in first && Trimmed(first + "," + rest)
    ensures var others := ParseFilterParts(Split(rest, ","));
            ParseSegment("filter " + (first + "," + rest)) ==
              if Trim(first) == "" then
                (if others.Ok? then Ok(if others.value == [] then None else Some(others.value[0]))
                 else others.PropagateFailure())
              else
                match ParseSingleFilter(Trim(first))
                case Ok(f) => if others.Ok? then Ok(Some(f)) else others.PropagateFailure()
                case Err(e) => Err(e)
                case Panic => Panic
  {
    var body := first + "," + rest;
    FilterSegment(body);
    TrimId(body);
    CommaAt(first, rest);
    assert ([first] + Split(rest, ","))[1..] == Split(rest, ",");
  }

  lemma CommaAt(first: string, rest: string)
    requires ',' !in first
    ensures Split(first + "," + rest, ",") == [first] + Split(rest, ",")
  {
    var s := first + "," + rest;
    assert s[|first|..|first| + 1] == ",";
    forall j: nat | j < |first| ensures !HasAt(s, ",", j) {
      HasAtChar(s, ",", j, 0);
    }
    FindIs(s, ",", |first|);
    SplitStep(first, ",", rest);
  }

  // ---- Commands ----

  /** A command needs no parentheses: without them all that follows the action is its target. */
  lemma BareCommand(action: string, target: string)
    requires PrintableWord(action) && action != "filter" && action != "use"
    requires target != "" && Trimmed(target) && '(' !in target
    ensures ParseSegment(action + " " + target) == Ok(Some(Command(action, Some(target), map[])))
  {
    WordSegment(action + " " + target, action);
    WordCut(action, target);
    TrimId(action);
  }

  /** An opening parenthesis without a closing one gives no arguments. */
  lemma OpenCommand(action: string, target: string, more: string)
    requires PrintableWord(action) && action != "filter" && action != "use"
    requires target != "" && Trimmed(target) && '(' !in target && ')' !in target && ')' !in more
    requires Trimmed(target + ("(" + more))
    ensures ParseSegment(action + " " + (target + ("(" + more))) == Ok(Some(Command(action, Some(target), map[])))
  {
    var call := "(" + more;
    WordSegment(action + " " + (target + call), action);
    WordCut(action, target + call);
    ParenCut(target, call);
    TrimId(action);
    TrimId(target);
    NoClosing(target + call, |target|);
  }

  lemma NoClosing(s: string, open: nat)
    requires ')' !in s
    ensures ParenArgs(s, open) == Ok(map[])
  {
  }

  /** Behind the last `)` nothing is read, and parts without a colon are skipped. */
  lemma ArgumentSkipped(part: string, more: seq<string>, args: map<string, CelValue>)
    requires ':' !in Trim(part)
    ensures CommandArgs([part] + more, args) == CommandArgs(more, args)
  {
    assert ([part] + more)[1..] == more;
  }

  // ---- Arguments without quotes ----

  /** An argument without quotes is read up to the next comma. */
  lemma NamedPlain(body: string, key: string, at: nat, pad: string, v: string, rest: string)
    requires Find(body, key + ":") == Some(at) && at + |key| + 1 <= |body|
    requires body[at + |key| + 1..] == pad + (v + rest) && Blank(pad)
    requires v != "" && Trimmed(v) && ',' !in v && v[0] != '\"'
    requires rest != "" ==> rest[0] == ',' && !IsSpace(rest[|rest| - 1])
    ensures NamedString(body, key) == Some(v)
  {
    var after := v + rest;
    assert pad + after == pad + after + "";
    TrimPad(pad, after, "");
    BeforeComma(v, rest);
    TrimId(v);
  }

  lemma BeforeComma(v: string, rest: string)
    requires ',' !in v && (rest != "" ==> rest[0] == ',')
    ensures Before(v + rest, ",") == v
  {
    var s := v + rest;
    if rest == "" {
      NoCharNoFind(s, ',');
    } else {
      assert s[|v|..|v| + 1] == ",";
      forall j: nat | j < |v| ensures !HasAt(s, ",", j) {
        HasAtChar(s, ",", j, 0);
      }
      FindIs(s, ",", |v|);
    }
  }

  lemma KeyFirst(key: string, text: string)
    ensures Find(key + ":" + text, key + ":") == Some(0)
  {
    var s := key + ":" + text;
    assert s[0..|key + ":"|] == key + ":";
    FindIs(s, key + ":", 0);
  }

  /** A text that can be an argument without quotes. */
  predicate Bare(v: string) {
    v != "" && Trimmed(v) && ',' !in v && v[0] != '\"'
  }

  /** `key: v` */
  function BareArg(key: string, v: string): string {
    key + ": " + v
  }

  lemma BareFirst(key: string, v: string, rest: string)
    requires Bare(v) && (rest != "" ==> rest[0] == ',' && !IsSpace(rest[|rest| - 1]))
    ensures NamedString(BareArg(key, v) + rest, key) == Some(v)
  {
    var body := BareArg(key, v) + rest;
    assert body == key + ":" + (" " + (v + rest));
    KeyFirst(key, " " + (v + rest));
    NamedPlain(body, key, 0, " ", v, rest);
  }

  lemma BareAlone(key: string, v: string)
    requires Bare(v)
    ensures NamedString(BareArg(key, v), key) == Some(v)
  {
    BareFirst(key, v, "");
    assert BareArg(key, v) + "" == BareArg(key, v);
  }

  lemma BareBehind(front: string, key: string, v: string)
    requires key != "" && ' ' !in key && Bare(v) && !Contains(front, key + ":")
    ensures NamedString(front + " " + BareArg(key, v), key) == Some(v)
  {
    var body := front + " " + BareArg(key, v);
    assert body == front + " " + (key + ":") + (" " + v);
    FindBehind(front, " ", key + ":", " " + v);
    assert body[|front| + 1 + |key| + 1..] == " " + (v + "");
    NamedPlain(body, key, |front| + 1, " ", v, "");
  }

  lemma OtherKey(key: string, v: string, rest: string, other: string)
    requires ':' !in key && ':' !in v && ':' !in rest && |other| > |key| + 1 && other[|other| - 1] == ':'
    ensures !Contains(BareArg(key, v) + rest, other)
  {
    var s := BareArg(key, v) + rest;
    forall j: nat ensures !HasAt(s, other, j) {
      HasAtChar(s, other, j, |other| - 1);
    }
  }

  lemma WindowPlain(size: string)
    requires Bare(size)
    ensures ParseSegment("time_window(" + BareArg("size", size) + ")") == Ok(Some(TimeWindow(size)))
  {
    WindowSegment(BareArg("size", size));
    BareAlone("size", size);
  }

  function BareInvoke(name: string, payload: string): string {
    BareArg("method", name) + "," + " " + BareArg("payload", payload)
  }

  /** A method and a payload without quotes. */
  lemma InvokePlain(name: string, payload: string, v: CelValue)
    requires Bare(name) && ':' !in name && Bare(payload) && ParseValue(payload) == Ok(v)
    ensures ParseSegment("invoke(" + BareArg("method", name) + ")") == Ok(Some(InvokeAction(name, map[])))
    ensures ParseSegment("invoke(" + BareInvoke(name, payload) + ")")
            == Ok(Some(InvokeAction(name, map["payload" := v])))
  {
    InvokeSegment(BareArg("method", name));
    InvokeSegment(BareInvoke(name, payload));
    InvokeAlone(name);
    InvokeBoth(name, payload, v);
  }

  lemma InvokeAlone(name: string)
    requires Bare(name) && ':' !in name
    ensures ParseInvoke(BareArg("method", name)) == Ok(Some(InvokeAction(name, map[])))
  {
    BareAlone("method", name);
    OtherKey("method", name, "", "payload" + ":");
    assert BareArg("method", name) + "" == BareArg("method", name);
  }

  lemma InvokeBoth(name: string, payload: string, v: CelValue)
    requires Bare(name) && ':' !in name && Bare(payload) && ParseValue(payload) == Ok(v)
    ensures ParseInvoke(BareInvoke(name, payload)) == Ok(Some(InvokeAction(name, map["payload" := v])))
  {
    MethodInFront(name, payload);
    OtherKey("method", name, ",", "payload" + ":");
    BareBehind(BareArg("method", name) + ",", "payload", payload);
  }

  lemma MethodInFront(name: string, payload: string)
    requires Bare(name) && Bare(payload)
    ensures NamedString(BareInvoke(name, payload), "method") == Some(name)
  {
    var rest := "," + " " + BareArg("payload", payload);
    BareFirst("method", name, rest);
    Regrouped(BareArg("method", name), BareArg("payload", payload));
  }

  lemma Regrouped(a: string, b: string)
    ensures a + ("," + " " + b) == a + "," + " " + b
  {
  }

  function BareSimilar(inner: string, metric: string): string {
    "vector: [" + inner + "]," + " " + BareArg("metric", metric)
  }

  lemma MetricPlain(inner: string, metric: string)
    requires Bare(metric) && ']' !in inner && ':' !in inner
    ensures ParseSegment("similar_to(" + BareSimilar(inner, metric) + ")")
            == Ok(Some(SimilarTo(FloatLiterals(Split(inner, ",")), metric)))
  {
    SimilarSegment(BareSimilar(inner, metric));
    VectorInFront(inner, metric);
    MetricAtEnd(inner, metric);
  }

  lemma VectorInFront(inner: string, metric: string)
    requires Bare(metric) && ']' !in inner
    ensures FloatArray(BareSimilar(inner, metric), "vector") == Some(FloatLiterals(Split(inner, ",")))
  {
    SimilarCut(inner, BareArg("metric", metric));
    ArrayFirst(inner, ", " + BareArg("metric", metric));
  }

  lemma MetricAtEnd(inner: string, metric: string)
    requires Bare(metric) && ':' !in inner
    ensures NamedString(BareSimilar(inner, metric), "metric") == Some(metric)
  {
    OneColon("vector: [" + inner + "],", 6, "metric" + ":");
    BareBehind("vector: [" + inner + "],", "metric", metric);
  }

  /** The literals of a vector are kept in order, and what is no literal is dropped. */
  lemma {:induction false} LiteralsKept(a: seq<string>, b: seq<string>, part: string)
    ensures FloatLiterals(a + b) == FloatLiterals(a) + FloatLiterals(b)
    ensures FloatLiterals([part]) == if IsFloatLiteral(Trim(part)) then [Trim(part)] else []
  {
    LiteralsConcat(a, b);
    assert [part][1..] == [];
  }

  function Kept(part: string): seq<string> {
    if IsFloatLiteral(Trim(part)) then [Trim(part)] else []
  }

  lemma {:induction false} LiteralsConcat(a: seq<string>, b: seq<string>)
    ensures FloatLiterals(a + b) == FloatLiterals(a) + FloatLiterals(b)
    decreases |a|
  {
    if a == [] {
      assert a + b == b && FloatLiterals(a) == [];
    } else {
      LiteralsConcat(a[1..], b);
      LiteralsStep(a);
      LiteralsStep(a + b);
      assert (a + b)[1..] == a[1..] + b;
      LiteralsGroup(Kept(a[0]), FloatLiterals(a[1..]), FloatLiterals(b));
    }
  }

  lemma {:induction false} LiteralsStep(parts: seq<string>)
    requires parts != []
    ensures FloatLiterals(parts) == Kept(parts[0]) + FloatLiterals(parts[1..])
  {
  }

  lemma LiteralsGroup(x: seq<string>, y: seq<string>, z: seq<string>)
    ensures x + (y + z) == x + y + z
  {
  }

  // ---- Defaults ----

  /** Without its argument a call has the method `default`, the window `1h`, the metric `cosine` or
      an empty vector. */
  lemma CallDefaults(body: string)
    ensures !Contains(body, "method:") && !Contains(body, "payload:") ==>
              ParseSegment("invoke(" + body + ")") == Ok(Some(InvokeAction("default", map[])))
    ensures !Contains(body, "size:") ==> ParseSegment("time_window(" + body + ")") == Ok(Some(TimeWindow("1h")))
    ensures !Contains(body, "metric:") && !Contains(body, "vector:") ==>
              ParseSegment("similar_to(" + body + ")") == Ok(Some(SimilarTo([], "cosine")))
  {
    InvokeSegment(body);
    WindowSegment(body);
    SimilarSegment(body);
    InvokeDefaults(body);
    SimilarDefaults(body);
    assert "size" + ":" == "size:";
  }

  lemma InvokeDefaults(body: string)
    ensures !Contains(body, "method:") && !Contains(body, "payload:") ==>
              ParseInvoke(body) == Ok(Some(InvokeAction("default", map[])))
  {
    assert "method" + ":" == "method:" && "payload" + ":" == "payload:";
  }

  lemma SimilarDefaults(body: string)
    ensures !Contains(body, "metric:") && !Contains(body, "vector:") ==> ParseSimilar(body) == SimilarTo([], "cosine")
  {
    assert "metric" + ":" == "metric:" && "vector" + ":" == "vector:";
  }

  lemma UnclosedBody(call: string, body: string)
    requires body != "" && body[|body| - 1] != ')'
    ensures call <= call + body && CallBody(call + body, call) == ""
  {
    assert (call + body)[|call|..] == body;
  }

  lemma EmptyHasNo(p: string)
    requires p != ""
    ensures !Contains("", p)
  {
  }

  /** A call that is not closed by the last character counts as one without arguments. */
  lemma UnclosedCalls(body: string)
    requires body != "" && body[|body| - 1] != ')'
    ensures ParseSegment("process(" + body) == Ok(Some(FastProcess("process", "")))
    ensures ParseSegment("invoke(" + body) == Ok(Some(InvokeAction("default", map[])))
    ensures ParseSegment("select(" + body) == Ok(Some(Select([""])))
    ensures ParseSegment("time_window(" + body) == Ok(Some(TimeWindow("1h")))
    ensures ParseSegment("similar_to(" + body) == Ok(Some(SimilarTo([], "cosine")))
  {
    UnclosedProcess(body);
    UnclosedInvoke(body);
    UnclosedSelect(body);
    UnclosedWindow(body);
    UnclosedSimilar(body);
  }

  lemma UnclosedProcess(body: string)
    requires body != "" && body[|body| - 1] != ')'
    ensures ParseSegment("process(" + body) == Ok(Some(FastProcess("process", "")))
  {
    UnclosedBody("process(", body);
    FirstChar("process(" + body, "use plugin::");
  }

  lemma UnclosedInvoke(body: string)
    requires body != "" && body[|body| - 1] != ')'
    ensures ParseSegment("invoke(" + body) == Ok(Some(InvokeAction("default", map[])))
  {
    UnclosedBody("invoke(", body);
    FirstChar("invoke(" + body, "use plugin::");
    FirstChar("invoke(" + body, "process(");
    EmptyHasNo("method" + ":");
    EmptyHasNo("payload" + ":");
  }

  lemma UnclosedSelect(body: string)
    requires body != "" && body[|body| - 1] != ')'
    ensures ParseSegment("select(" + body) == Ok(Some(Select([""])))
  {
    var s := "select(" + body;
    UnclosedBody("select(", body);
    FirstChar(s, "use plugin::");
    FirstChar(s, "process(");
    FirstChar(s, "invoke(");
    FirstChar(s, "filter ");
    EmptyHasNo(",");
    assert Split("", ",") == [""] && TrimAll([""]) == [""];
  }

  lemma UnclosedWindow(body: string)
    requires body != "" && body[|body| - 1] != ')'
    ensures ParseSegment("time_window(" + body) == Ok(Some(TimeWindow("1h")))
  {
    var s := "time_window(" + body;
    UnclosedBody("time_window(", body);
    FirstChar(s, "use plugin::");
    FirstChar(s, "process(");
    FirstChar(s, "invoke(");
    FirstChar(s, "filter ");
    FirstChar(s, "select(");
    EmptyHasNo("size" + ":");
  }

  lemma UnclosedSimilar(body: string)
    requires body != "" && body[|body| - 1] != ')'
    ensures ParseSegment("similar_to(" + body) == Ok(Some(SimilarTo([], "cosine")))
  {
    var s := "similar_to(" + body;
    UnclosedBody("similar_to(", body);
    FirstChar(s, "use plugin::");
    FirstChar(s, "process(");
    FirstChar(s, "invoke(");
    FirstChar(s, "filter ");
    assert s[1] == 'i' && "select("[1] == 'e';
    FirstChar(s, "time_window(");
    EmptyHasNo("metric" + ":");
    EmptyHasNo("vector" + ":");
  }

  /** Both kinds of quotes are taken off a process call, single ones first. */
  lemma ProcessQuotes(text: string)
    requires text != "" ==> !IsQuote(text[0]) && !IsQuote(text[|text| - 1])
    ensures ParseSegment("process(" + text + ")") == Ok(Some(FastProcess("process", text)))
    ensures ParseSegment("process(" + ("'" + text + "'") + ")") == Ok(Some(FastProcess("process", text)))
    ensures ParseSegment("process(" + ("\"" + text + "\"") + ")") == Ok(Some(FastProcess("process", text)))
  {
    ProcessSegment(text);
    ProcessSegment("'" + text + "'");
    ProcessSegment("\"" + text + "\"");
    ParsePrintedProcess(text);
    DoubleQuotes(text);
  }

  lemma DoubleQuotes(text: string)
    requires text != "" ==> !IsQuote(text[0]) && !IsQuote(text[|text| - 1])
    ensures TrimMatches(TrimMatches(text, '\''), '\"') == text
    ensures var s := "\"" + text + "\""; TrimMatches(TrimMatches(s, '\''), '\"') == text
  {
    var s := "\"" + text + "\"";
    assert s[0] == '\"' && s[|s| - 1] == '\"';
    assert TrimMatches(s, '\'') == s;
    assert TrimMatches(text, '\'') == text;
    OffBothEnds(text, '\"');
  }

  lemma OffBothEnds(text: string, c: char)
    requires text != "" ==> text[0] != c && text[|text| - 1] != c
    ensures TrimMatches([c] + text + [c], c) == text && TrimMatches(text, c) == text
  {
    assert ([c] + text + [c])[1..] == text + [c];
    if text == "" {
      assert text + [c] == [c] && [c][1..] == "" && TrimMatches([c], c) == "";
    } else {
      assert (text + [c])[..|text|] == text && TrimMatches(text, c) == text;
      assert TrimMatches(text + [c], c) == text;
    }
  }

  // ---- Directives ----

  /** Without parentheses the argument of a directive is all of its name but the first character. */
  lemma BareDirective(name: string)
    requires name != "" && Trimmed(name) && '(' !in name && ')' !in name
    ensures EngineDirective(["engine", "kv_cache", name]) == Ok(Some(EngineMemoryControl(name, Trim(name[1..]))))
    ensures EngineDirective(["engine", "inference", name]) == Ok(Some(InferenceControl(name)))
  {
    BeforeIsAll(name);
    TrimId(name);
    assert name[1..|name|] == name[1..];
  }

  lemma BeforeIsAll(name: string)
    requires '(' !in name
    ensures Before(name, "(") == name
  {
    NoCharNoFind(name, '(');
  }

  /** When the last closing parenthesis stands in front of the first opening one, the argument is
      empty. */
  lemma InvertedDirective(front: string, back: string)
    requires '(' !in front && ')' in front && ')' !in back
    ensures var body := front + "(" + back;
            EngineDirective(["engine", "kv_cache", body]) == Ok(Some(EngineMemoryControl(Trim(front), "")))
  {
    var body := front + "(" + back;
    assert body == front + ['('] + back;
    FindCharIs(front, '(', back);
    BeforeParen(front, back);
    var i :| 0 <= i < |front| && front[i] == ')';
    assert body[i] == ')';
    forall j | |front| <= j < |body| ensures body[j] != ')' {
    }
  }

  /** What stands behind the third segment of a directive is dropped. */
  lemma DirectiveRest(domain: string, body: string, more: seq<string>)
    ensures EngineDirective(["engine", domain, body] + more) == EngineDirective(["engine", domain, body])
  {
    assert (["engine", domain, body] + more)[1] == domain && (["engine", domain, body] + more)[2] == body;
  }

  /** A chain that starts with `engine` is no directive unless a known domain and a third segment
      follow. */
  lemma NoDirective(domain: string, more: seq<string>)
    requires domain != "kv_cache" && domain != "mid_layer" && domain != "inference" && domain != "os"
    ensures EngineDirective(["engine", domain] + more) == Ok(None)
    ensures EngineDirective(["engine"]) == Ok(None) && EngineDirective(["engine", "kv_cache"]) == Ok(None)
  {
    assert (["engine", domain] + more)[1] == domain;
  }
}
