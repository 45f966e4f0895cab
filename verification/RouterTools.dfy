/** What a written trigger requests: the tool, the payload, and when a stream runs it. */
module RouterTools {
  import opened Text
  import opened TriggerScan
  import opened RouterInterceptor
  import opened RouterSearch
  import opened RouterRuns
  import opened RouterRequests

  /** A trigger as the model writes it. */
  function Trigger(header: string, body: string): string {
    OPEN + header + ">" + body + CLOSE
  }

  /** A header and a body that keep the trigger one trigger. */
  predicate Writable(header: string, body: string) {
    '<' !in header && '>' !in header && !Contains(body, OPEN) && !Contains(body, CLOSE)
  }

  // ---- Where the tags are ----

  /** A tag has its only `<` in front, so none reaches across the start of another one. */
  lemma NoSeam(a: string, b: string, p: string, j: nat)
    requires p == OPEN || p == CLOSE
    requires b != "" && b[0] == '<' && j < |a|
    ensures HasAt(a + b, p, j) <==> HasAt(a, p, j)
  {
    if j + |p| <= |a| {
      HasAtPrefix(a, b, p, j);
    } else {
      HasAtChar(a + b, p, j, |a| - j);
    }
  }

  /** Behind its first character, a trigger up to its close tag holds no tag. */
  lemma NoTagInside(header: string, body: string, p: string, j: nat)
    requires Writable(header, body) && (p == OPEN || p == CLOSE)
    requires p == OPEN ==> j > 0
    ensures !HasAt(OPEN + header + ">" + body, p, j)
  {
    var head := OPEN + header + ">";
    if j >= |head| {
      HasAtSuffix(head, body, p, j - |head|);
    } else {
      assert 0 < j < |head| ==> head[j] != '<';
      HasAtChar(head + body, p, j, 0);
      HasAtChar(head + body, p, j, 1);
    }
  }

  lemma NoTagBehind(back: string, j: nat)
    requires !Contains(back, OPEN)
    ensures !HasAt(CLOSE + back, OPEN, j)
  {
    if j >= |CLOSE| {
      HasAtSuffix(CLOSE, back, OPEN, j - |CLOSE|);
    } else {
      HasAtChar(CLOSE + back, OPEN, j, 0);
      HasAtChar(CLOSE + back, OPEN, j, 1);
    }
  }

  lemma CloseAt(header: string, body: string, back: string)
    requires Writable(header, body)
    ensures Find(Trigger(header, body) + back, CLOSE) == Some(|OPEN + header + ">" + body|)
  {
    var front := OPEN + header + ">" + body;
    var s := Trigger(header, body) + back;
    assert s == front + (CLOSE + back);
    forall j: nat | j < |front| ensures !HasAt(s, CLOSE, j) {
      NoSeam(front, CLOSE + back, CLOSE, j);
      NoTagInside(header, body, CLOSE, j);
    }
    assert s[|front|..|front| + |CLOSE|] == CLOSE;
    FindIs(s, CLOSE, |front|);
  }

  lemma OneOpenTag(header: string, body: string, back: string)
    requires Writable(header, body) && !Contains(back, OPEN)
    ensures OPEN <= Trigger(header, body) + back
    ensures forall j: nat :: j > 0 ==> !HasAt(Trigger(header, body) + back, OPEN, j)
  {
    var front := OPEN + header + ">" + body;
    var s := Trigger(header, body) + back;
    assert s == front + (CLOSE + back);
    forall j: nat | j > 0 ensures !HasAt(s, OPEN, j) {
      if j < |front| {
        NoSeam(front, CLOSE + back, OPEN, j);
        NoTagInside(header, body, OPEN, j);
      } else {
        HasAtSuffix(front, CLOSE + back, OPEN, j - |front|);
        NoTagBehind(back, j - |front|);
      }
    }
  }

  // ---- The request of a trigger ----

  /** What is left of a body: trimmed, with exactly one closing brace at its end. */
  function PayloadOf(body: string): string {
    TrimEndMatches(Trim(body), '}') + "}"
  }

  function Braces(n: nat): (r: string)
    ensures |r| == n && forall i :: 0 <= i < n ==> r[i] == '}'
  {
    seq(n, i requires 0 <= i < n => '}')
  }

  /** White space around a payload is dropped, and any number of closing braces becomes one. */
  lemma PayloadMeans(before: string, core: string, braces: nat, after: string)
    requires Blank(before) && Blank(after)
    requires core != "" ==> !IsSpace(core[0]) && core[|core| - 1] != '}'
    requires braces == 0 && core != "" ==> !IsSpace(core[|core| - 1])
    ensures PayloadOf(before + (core + Braces(braces)) + after) == core + "}"
  {
    TrimPad(before, core + Braces(braces), after);
    BracesGo(core, braces);
  }

  lemma {:induction false} BracesGo(core: string, n: nat)
    requires core != "" ==> core[|core| - 1] != '}'
    ensures TrimEndMatches(core + Braces(n), '}') == core
  {
    if n == 0 {
      assert core + Braces(0) == core;
    } else {
      BracesGo(core, n - 1);
      assert (core + Braces(n))[..|core| + n - 1] == core + Braces(n - 1);
    }
  }

  lemma HeaderAt(header: string, body: string)
    requires Writable(header, body)
    ensures var s := Trigger(header, body);
            && FindChar(s, '>') == Some(9 + |header|)
            && TrimStartMatches(s[..9 + |header|], OPEN) == header
            && s[9 + |header| + 1..9 + |header| + 1 + |body|] == body
  {
    var s := Trigger(header, body);
    assert s == (OPEN + header) + ['>'] + (body + CLOSE);
    FindCharIs(OPEN + header, '>', body + CLOSE);
    assert s[..9 + |header|] == OPEN + header && (OPEN + header)[|OPEN|..] == header;
    assert header != "" ==> header[0] in header;
  }

  lemma RequestParts(header: string, body: string, kind: string, name: string)
    requires Writable(header, body)
    requires var parts := Split(header, ":");
             if |parts| >= 2 then parts[0] == kind && parts[1] == name else kind == "extension" && parts[0] == name
    ensures ExtractFrom(Trigger(header, body)) == Request(Tool(kind + ":" + name, PayloadOf(body)), name)
  {
    HeaderAt(header, body);
    CloseAt(header, body, "");
    assert Trigger(header, body) + "" == Trigger(header, body);
    assert |OPEN + header + ">" + body| == 9 + |header| + 1 + |body|;
  }

  /** A header without a colon is the name of an extension. */
  lemma RequestOf(name: string, body: string)
    requires Writable(name, body) && ':' !in name
    ensures ExtractFrom(Trigger(name, body)) == Request(Tool("extension:" + name, PayloadOf(body)), name)
  {
    NoColon(name);
    RequestParts(name, body, "extension", name);
  }

  lemma NoColon(s: string)
    requires ':' !in s
    ensures Split(s, ":") == [s]
  {
    forall j: nat ensures !HasAt(s, ":", j) {
      HasAtChar(s, ":", j, 0);
    }
  }

  lemma ColonAt(a: string, b: string)
    requires ':' !in a
    ensures Split(a + ":" + b, ":") == [a] + Split(b, ":")
  {
    var s := a + ":" + b;
    assert s[|a|..|a| + 1] == ":";
    forall j: nat | j < |a| ensures !HasAt(s, ":", j) {
      HasAtChar(s, ":", j, 0);
    }
    FindIs(s, ":", |a|);
    SplitStep(a, ":", b);
  }

  /** The first part of a header with colons is the kind of the tool and the second one its name;
      what stands behind a further colon is dropped. */
  lemma RequestOfKind(kind: string, name: string, more: string, body: string)
    requires Writable(kind + ":" + name + more, body)
    requires ':' !in kind && ':' !in name && (more != "" ==> more[0] == ':')
    ensures ExtractFrom(Trigger(kind + ":" + name + more, body))
            == Request(Tool(kind + ":" + name, PayloadOf(body)), name)
  {
    assert kind + ":" + name + more == kind + ":" + (name + more);
    ColonAt(kind, name + more);
    if more == "" {
      assert name + more == name;
      NoColon(name);
    } else {
      assert name + more == name + ":" + more[1..];
      ColonAt(name, more[1..]);
    }
    RequestParts(kind + ":" + name + more, body, kind, name);
  }

  // ---- Streams ----

  /** A text with one written trigger and no other open tag. */
  lemma OneTrigger(front: string, header: string, body: string, back: string)
    requires !Contains(front, OPEN) && Writable(header, body) && !Contains(back, OPEN)
    ensures var all := front + (Trigger(header, body) + back);
            && OneRequest(all) && FromTag(all) == Trigger(header, body) + back
            && ExtractTool(FromTag(all)) == ExtractFrom(Trigger(header, body))
  {
    var rest := Trigger(header, body) + back;
    OneOpenTag(header, body, back);
    CloseAt(header, body, back);
    FirstTag(front, rest);
    var c := |OPEN + header + ">" + body|;
    assert rest[c..] == CLOSE + back;
    forall j: nat ensures !HasAt(rest[c..], OPEN, j) {
      NoTagBehind(back, j);
    }
    LastIsFirst(rest);
    CloseAt(header, body, "");
    assert Trigger(header, body) + "" == Trigger(header, body);
    ExtractGrows(Trigger(header, body), back);
  }

  lemma FirstTag(front: string, rest: string)
    requires !Contains(front, OPEN) && OPEN <= rest
    ensures Contains(front + rest, OPEN) && FromTag(front + rest) == rest
  {
    var s := front + rest;
    assert s[|front|..|front| + |OPEN|] == OPEN && rest[0] == '<';
    forall j: nat | j < |front| ensures !HasAt(s, OPEN, j) {
      NoSeam(front, rest, OPEN, j);
    }
    FindIs(s, OPEN, |front|);
  }

  lemma LastIsFirst(rest: string)
    requires OPEN <= rest && forall j: nat :: j > 0 ==> !HasAt(rest, OPEN, j)
    ensures ExtractTool(rest) == ExtractFrom(rest)
  {
    assert HasAt(rest, OPEN, 0) && rest[0..] == rest;
  }

  /** For every text with one written trigger and every cutting of it into tokens: the stream and
      the look behind it run the tool that the header names, with the payload of the body, if a
      token comes in behind the open tag or a `}` stands behind it; otherwise no tool runs. */
  lemma WrittenToolRuns(tokens: seq<string>, front: string, kind: string, name: string, more: string, body: string,
                        back: string)
    requires var header := kind + ":" + name + more;
             && Writable(header, body) && !Contains(front, OPEN) && !Contains(back, OPEN)
             && Flatten(tokens) == front + (Trigger(header, body) + back)
    requires ':' !in kind && ':' !in name && (more != "" ==> more[0] == ':')
    ensures Contains(Flatten(tokens), OPEN)
    ensures EffectOf(Outcome(tokens, [], ALWAYS))
            == if Acts(tokens) then Runs(Tool(kind + ":" + name, PayloadOf(body))) else NoTool
  {
    OneTrigger(front, kind + ":" + name + more, body, back);
    EffectOfText(tokens);
    RequestOfKind(kind, name, more, body);
  }

  /** A notice is no text of the model. */
  lemma {:induction false} RequestKeepsText(st: Interceptor)
    requires !ExtractTool(st.json).NoHeader?
    ensures AfterStream(st) != Crash ==> TextOf(AfterStream(st).st.sent) == TextOf(st.sent)
    ensures FinishTrigger(st, ExtractTool(st.json)).Stop? ==>
              var end := FinishTrigger(st, ExtractTool(st.json)).st;
              end.json == st.json && TextOf(end.sent) == TextOf(st.sent)
  {
    var request := ExtractTool(st.json);
    if request.Request? {
      SayText(st.sent, request.shownName);
    }
  }

  /** What the caller is shown of such a stream is the text in front of the open tag, whether or not
      a tool runs. */
  lemma {:induction false} ShownBeforeTool(tokens: seq<string>)
    requires OneRequest(Flatten(tokens)) && Outcome(tokens, [], ALWAYS) != Crash
    ensures var all := Flatten(tokens); TextOf(Outcome(tokens, [], ALWAYS).st.sent) == all[..Find(all, OPEN).value]
  {
    var r := RunOf(tokens, [], ALWAYS);
    var rest := FromTag(Flatten(tokens));
    SettledPanics(rest, Find(rest, CLOSE).value);
    InterceptorIsSearch(tokens);
    RunIsIntercept(tokens, [], ALWAYS);
    if Behind(tokens) {
      ClosedCapture(tokens);
      CaptureDecides(r.st.json, rest, Find(rest, CLOSE).value);
      InterceptStays(tokens, r.used, [], ALWAYS);
      RequestKeepsText(r.st);
      RequestKeepsText(FinishTrigger(r.st, ExtractTool(r.st.json)).st);
    } else {
      OpenCapture(tokens);
      RequestKeepsText(r.st);
    }
  }

  // ---- When the tool depends on the tokens ----

  lemma RequestLast(front: string, name: string, body: string)
    requires Writable(name, body) && ':' !in name
    ensures ExtractTool(front + Trigger(name, body)) == Request(ToolOf(name, body), name)
  {
    var t := Trigger(name, body);
    OneOpenTag(name, body, "");
    assert t + "" == t && (front + t)[|front|..] == t;
    LastTagIs(front, t);
    RequestOf(name, body);
  }

  lemma LastTagIs(front: string, t: string)
    requires OPEN <= t && forall j: nat :: j > 0 ==> !HasAt(t, OPEN, j)
    ensures RFind(front + t, OPEN) == Some(|front|)
  {
    HasAtSuffix(front, t, OPEN, 0);
    forall j: nat | j > |front| ensures !HasAt(front + t, OPEN, j) {
      HasAtSuffix(front, t, OPEN, j - |front|);
    }
  }

  /** The tool of a trigger whose header has no colon. */
  function ToolOf(name: string, body: string): Tool {
    Tool("extension:" + name, PayloadOf(body))
  }

  /** Two triggers in a row: cut so that the first one is checked alone, the stream runs its tool;
      cut between the triggers, it runs the tool of the second one. */
  lemma TokensDecide(a: string, x: string, b: string, y: string)
    requires Writable(a, x) && Writable(b, y) && ':' !in a && ':' !in b
    ensures var second := Trigger(b, y);
            var three, two := [OPEN, a + ">" + x + CLOSE, second], [Trigger(a, x), second];
            && Flatten(three) == Flatten(two)
            && EffectOf(Outcome(three, [], ALWAYS)) == Runs(ToolOf(a, x))
            && EffectOf(Outcome(two, [], ALWAYS)) == Runs(ToolOf(b, y))
  {
    FirstAlone(a, x, Trigger(b, y));
    BothChecked(a, x, b, y);
    TwoTokens(Trigger(a, x), Trigger(b, y));
  }

  lemma TriggerShape(name: string, body: string)
    requires Writable(name, body)
    ensures OPEN <= Trigger(name, body) && Contains(Trigger(name, body), CLOSE)
  {
    CloseAt(name, body, "");
    assert Trigger(name, body) + "" == Trigger(name, body);
  }

  lemma BothChecked(a: string, x: string, b: string, y: string)
    requires Writable(a, x) && Writable(b, y) && ':' !in b
    ensures EffectOf(Outcome([Trigger(a, x), Trigger(b, y)], [], ALWAYS)) == Runs(ToolOf(b, y))
  {
    var first, second := Trigger(a, x), Trigger(b, y);
    TriggerShape(a, x);
    FindGrows(first, second, CLOSE);
    CapturedInTwo(first, second);
    RequestLast(first, b, y);
    ClosedEffect([first, second]);
  }

  lemma FirstAlone(a: string, x: string, second: string)
    requires Writable(a, x) && ':' !in a
    ensures var tokens := [OPEN, a + ">" + x + CLOSE, second];
            Flatten(tokens) == Trigger(a, x) + second && EffectOf(Outcome(tokens, [], ALWAYS)) == Runs(ToolOf(a, x))
  {
    var body := a + ">" + x + CLOSE;
    var tokens := [OPEN, body, second];
    assert OPEN + body == Trigger(a, x) && tokens[..2] == [OPEN, body];
    TwoTokens(OPEN, body);
    TriggerShape(a, x);
    CapturedInTwo(OPEN, body);
    assert "" + Trigger(a, x) == Trigger(a, x);
    RequestLast("", a, x);
    ClosedEffect(tokens);
  }
}
