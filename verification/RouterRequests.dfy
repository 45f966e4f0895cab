/** The tool that a stream requests, as a function of its text, and when reading it panics. */
module RouterRequests {
  import opened Text
  import opened TriggerScan
  import opened RouterInterceptor
  import opened RouterSearch
  import opened RouterRuns

  // ---- Reading a request ----

  lemma FindCharGrows(a: string, b: string, c: char)
    requires c in a
    ensures FindChar(a + b, c) == FindChar(a, c)
  {
    var k := FindChar(a, c).value;
    assert a == a[..k] + [c] + a[k + 1..];
    assert a + b == a[..k] + [c] + (a[k + 1..] + b);
    FindCharIs(a[..k], c, a[k + 1..] + b);
  }

  lemma SliceOfFront(a: string, b: string, lo: nat, hi: nat)
    requires lo <= hi <= |a|
    ensures (a + b)[lo..hi] == a[lo..hi]
  {
  }

  lemma ExtractGrows(a: string, b: string)
    requires Contains(a, CLOSE)
    ensures ExtractFrom(a + b) == ExtractFrom(a)
  {
    var at := Find(a, CLOSE).value;
    HasAtChar(a, CLOSE, at, 9);
    assert a[at + 9] == '>';
    FindCharGrows(a, b, '>');
    FindGrows(a, b, CLOSE);
    var h := FindChar(a, '>').value;
    assert (a + b)[..h] == a[..h];
    if h + 1 <= at {
      SliceOfFront(a, b, h + 1, at);
    }
  }

  lemma TailGrows(seen: string, all: string, k: nat)
    requires seen <= all && k <= |seen|
    ensures seen[k..] <= all[k..]
  {
    assert seen == all[..|seen|];
  }

  /** The close tag that belongs to the first open tag stands at `c` behind it, and no open tag
      stands behind that close tag. */
  predicate Settled(rest: string, c: nat) {
    OPEN <= rest && Find(rest, CLOSE) == Some(c) && !Contains(rest[c..], OPEN)
  }

  /** In a settled text, the last open tag ends in front of the close tag. */
  lemma LastTagInFront(rest: string, c: nat)
    requires Settled(rest, c)
    ensures var m := RFind(rest, OPEN); m.Some? && m.value + |OPEN| <= c
  {
    assert HasAt(rest, OPEN, 0);
    var m := RFind(rest, OPEN).value;
    assert rest == rest[..c] + rest[c..] && |rest[..c]| == c;
    if m >= c {
      HasAtSuffix(rest[..c], rest[c..], OPEN, m - c);
    } else {
      HasAtChar(rest, CLOSE, c, 0);
      TagHasOneAngle(rest, m, c);
    }
  }

  lemma TagHasOneAngle(s: string, m: nat, c: nat)
    requires HasAt(s, OPEN, m) && c < |s| && s[c] == '<' && m < c
    ensures m + |OPEN| <= c
  {
    if c < m + |OPEN| {
      HasAtChar(s, OPEN, m, c - m);
    }
  }

  /** A capture that is complete requests what the whole text behind the first open tag would. */
  lemma CaptureDecides(json: string, rest: string, c: nat)
    requires Settled(rest, c) && json <= rest && Contains(json, CLOSE)
    ensures ExtractTool(json) == ExtractTool(rest)
  {
    LastTagInFront(rest, c);
    var m := RFind(rest, OPEN).value;
    FindInPrefix(json, rest, CLOSE);
    SameLastTag(json, rest, m);
    CloseInTail(json, m, c);
    TailGrows(json, rest, m);
    var a := json[m..];
    assert rest[m..] == a + rest[m..][|a|..];
    ExtractGrows(a, rest[m..][|a|..]);
  }

  lemma SameLastTag(json: string, rest: string, m: nat)
    requires json <= rest && RFind(rest, OPEN) == Some(m) && m + |OPEN| <= |json|
    ensures RFind(json, OPEN) == Some(m)
  {
    assert rest == json + rest[|json|..];
    HasAtPrefix(json, rest[|json|..], OPEN, m);
    forall j: nat | j > m ensures !HasAt(json, OPEN, j) {
      if j + |OPEN| <= |json| {
        HasAtPrefix(json, rest[|json|..], OPEN, j);
      }
    }
  }

  /** Cutting a front off moves the first close tag along. */
  lemma CloseInTail(s: string, m: nat, c: nat)
    requires m <= c && Find(s, CLOSE) == Some(c)
    ensures Find(s[m..], CLOSE) == Some(c - m)
  {
    assert s == s[..m] + s[m..];
    HasAtSuffix(s[..m], s[m..], CLOSE, c - m);
    forall j: nat | j < c - m ensures !HasAt(s[m..], CLOSE, j) {
      HasAtSuffix(s[..m], s[m..], CLOSE, j);
    }
    FindIs(s[m..], CLOSE, c - m);
  }

  /** Reading the request of a settled text panics exactly when no `>` stands between its last open
      tag and its close tag. */
  lemma SettledPanics(rest: string, c: nat)
    requires Settled(rest, c)
    ensures RFind(rest, OPEN).Some? && RFind(rest, OPEN).value <= c
    ensures ExtractTool(rest).SlicePanic? <==> '>' !in rest[RFind(rest, OPEN).value..c]
    ensures !ExtractTool(rest).NoHeader?
  {
    LastTagInFront(rest, c);
    var m := RFind(rest, OPEN).value;
    CloseInTail(rest, m, c);
    ExtractPanics(rest[m..], c - m);
    assert rest[m..][..c - m] == rest[m..c];
  }

  // ---- Streams ----

  /** The text from the first open tag on. */
  function FromTag(all: string): string
    requires Contains(all, OPEN)
  {
    all[Find(all, OPEN).value..]
  }

  /** The first trigger of the text is closed, and no open tag stands behind its close tag. */
  predicate OneRequest(all: string) {
    Contains(all, OPEN) && Contains(FromTag(all), CLOSE) && Settled(FromTag(all), Find(FromTag(all), CLOSE).value)
  }

  lemma {:induction false} RunHasNoTool(tokens: seq<string>)
    ensures RunOf(tokens, [], ALWAYS).st.tool == None
    decreases |tokens|
  {
    if tokens != [] {
      RunHasNoTool(tokens[..|tokens| - 1]);
    }
  }

  /** When a token comes in behind the open tag, the capture is checked and closes. */
  lemma ClosedCapture(tokens: seq<string>)
    requires OneRequest(Flatten(tokens)) && Behind(tokens)
    ensures var r := RunOf(tokens, [], ALWAYS);
            r.Closed? && OPEN <= r.st.json <= FromTag(Flatten(tokens)) && Contains(r.st.json, CLOSE)
  {
    InterceptorIsSearch(tokens);
    RunTracks(tokens);
    var r := RunOf(tokens, [], ALWAYS);
    var seen, all := Consumed(r, tokens), Flatten(tokens);
    FlattenPrefix(tokens, r.used);
    TrackedInFront(r.st, tokens, r.used);
    CapturedText(r.st, seen);
    FindInPrefix(seen, all, OPEN);
    TailGrows(seen, all, |TextOf(r.st.sent)|);
  }

  /** Otherwise the capture is still open when the stream ends, and holds all the rest. */
  lemma OpenCapture(tokens: seq<string>)
    requires OneRequest(Flatten(tokens)) && !Behind(tokens)
    ensures var r := RunOf(tokens, [], ALWAYS); r.Streaming? && r.st.capture && r.st.json == FromTag(Flatten(tokens))
  {
    InterceptorIsSearch(tokens);
  }

  /** What a stream and the look behind it do in the end. */
  datatype Effect = NoTool | Runs(tool: Tool) | Panics

  function EffectOf(r: Reply): Effect {
    match r
    case Crash => Panics
    case Go(st) => if st.tool.Some? then Runs(st.tool.value) else NoTool
    case Stop(st) => if st.tool.Some? then Runs(st.tool.value) else NoTool
  }

  function EffectOfRequest(request: Extraction): Effect {
    match request
    case Request(tool, _) => Runs(tool)
    case NoHeader => NoTool
    case SlicePanic => Panics
  }

  lemma ClosedEffect(tokens: seq<string>)
    requires RunOf(tokens, [], ALWAYS).Closed?
    requires var json := RunOf(tokens, [], ALWAYS).st.json;
             OPEN <= json && Contains(json, CLOSE) && ExtractTool(json) != NoHeader
    ensures var json := RunOf(tokens, [], ALWAYS).st.json;
            && (InterceptAll(tokens, [], ALWAYS) == Crash <==> ExtractTool(json) == SlicePanic)
            && EffectOf(Outcome(tokens, [], ALWAYS)) == EffectOfRequest(ExtractTool(json))
  {
    var r := RunOf(tokens, [], ALWAYS);
    RunIsIntercept(tokens, [], ALWAYS);
    FinishEffect(r.st, ExtractTool(r.st.json));
    InterceptStays(tokens, r.used, [], ALWAYS);
  }

  lemma FinishEffect(st: Interceptor, request: Extraction)
    requires request == ExtractTool(st.json) && request != NoHeader
    ensures var end := FinishTrigger(st, request);
            && !end.Go?
            && (end == Crash <==> request == SlicePanic)
            && (end.Stop? ==> EffectOf(AfterStream(end.st)) == EffectOfRequest(request))
  {
    if request.Request? {
      LateEffect(st.(tool := Some(request.tool), sent := st.sent + [Notice(request.shownName)]), request);
    }
  }

  lemma LateEffect(st: Interceptor, request: Extraction)
    requires request == ExtractTool(st.json) && request.Request? && st.tool == Some(request.tool)
    ensures EffectOf(AfterStream(st)) == Runs(request.tool)
  {
  }

  lemma OpenEffect(st: Interceptor, request: Extraction)
    requires request == ExtractTool(st.json) && request != NoHeader
    requires st.capture && OPEN <= st.json && st.tool == None
    ensures EffectOf(AfterStream(st)) == if '}' in st.json then EffectOfRequest(request) else NoTool
  {
  }

  /** The stream acts on its trigger: a token comes in behind the one that completed the open tag,
      or the look behind the stream finds a `}`. */
  predicate Acts(tokens: seq<string>)
    requires Contains(Flatten(tokens), OPEN)
  {
    Behind(tokens) || '}' in FromTag(Flatten(tokens))
  }

  /** For every cutting of a text with one closed trigger into tokens: when the stream acts, it
      does what the text behind the first open tag says, and otherwise nothing. */
  lemma EffectOfText(tokens: seq<string>)
    requires OneRequest(Flatten(tokens))
    ensures var request := ExtractTool(FromTag(Flatten(tokens)));
            && request != NoHeader
            && (InterceptAll(tokens, [], ALWAYS) == Crash <==> Behind(tokens) && request == SlicePanic)
            && EffectOf(Outcome(tokens, [], ALWAYS)) == if Acts(tokens) then EffectOfRequest(request) else NoTool
  {
    var rest := FromTag(Flatten(tokens));
    var c := Find(rest, CLOSE).value;
    SettledPanics(rest, c);
    if Behind(tokens) {
      ClosedCapture(tokens);
      CaptureDecides(RunOf(tokens, [], ALWAYS).st.json, rest, c);
      ClosedEffect(tokens);
    } else {
      OpenCapture(tokens);
      RunIsIntercept(tokens, [], ALWAYS);
      RunHasNoTool(tokens);
      OpenEffect(RunOf(tokens, [], ALWAYS).st, ExtractTool(rest));
    }
  }

  /** The exact condition under which two cuttings of such a text run the same tool, or both panic,
      or both do nothing: both act or neither does. */
  lemma EffectsAgreeIff(a: seq<string>, b: seq<string>)
    requires Flatten(a) == Flatten(b) && OneRequest(Flatten(a))
    ensures EffectOf(Outcome(a, [], ALWAYS)) == EffectOf(Outcome(b, [], ALWAYS)) <==> (Acts(a) <==> Acts(b))
  {
    EffectOfText(a);
    EffectOfText(b);
  }

  /** When such a text panics: no `>` stands between its last open tag and its close tag, and a
      token comes in behind the open tag (in the stream), or the stream acts at all (in the stream
      or behind it). */
  lemma PanicsOnTextIff(tokens: seq<string>)
    requires OneRequest(Flatten(tokens))
    ensures var rest := FromTag(Flatten(tokens));
            && RFind(rest, OPEN).Some? && RFind(rest, OPEN).value <= Find(rest, CLOSE).value
            && var bad := '>' !in rest[RFind(rest, OPEN).value..Find(rest, CLOSE).value];
            && (InterceptAll(tokens, [], ALWAYS) == Crash <==> bad && Behind(tokens))
            && (Outcome(tokens, [], ALWAYS) == Crash <==> bad && Acts(tokens))
  {
    var rest := FromTag(Flatten(tokens));
    EffectOfText(tokens);
    SettledPanics(rest, Find(rest, CLOSE).value);
  }

  /** Without a closed trigger the stream neither stops nor panics. */
  lemma UnclosedGoesOn(tokens: seq<string>)
    requires Contains(Flatten(tokens), OPEN) ==> !Contains(FromTag(Flatten(tokens)), CLOSE)
    ensures InterceptAll(tokens, [], ALWAYS).Go?
  {
    InterceptorIsSearch(tokens);
    RunIsIntercept(tokens, [], ALWAYS);
  }

  // ---- Inputs ----

  lemma OneToken(token: string)
    ensures Flatten([token]) == token
  {
    assert Flatten([token][..0]) == "" && "" + token == token;
  }

  /** The close tag is where its first character is. */
  lemma CloseIsAt(front: string, rest: string)
    requires forall i :: 0 <= i < |front| && front[i] == '<' ==> i + 1 < |front| && front[i + 1] != '/'
    ensures Find(front + CLOSE + rest, CLOSE) == Some(|front|)
  {
    var s := front + CLOSE + rest;
    assert s[|front|..|front| + |CLOSE|] == CLOSE;
    forall j: nat | j < |front| ensures !HasAt(s, CLOSE, j) {
      HasAtChar(s, CLOSE, j, 0);
      HasAtChar(s, CLOSE, j, 1);
    }
    FindIs(s, CLOSE, |front|);
  }

  /** Every `<` is followed by a `/`. */
  predicate NoTagIn(s: string) {
    forall i :: 0 <= i < |s| && s[i] == '<' ==> i + 1 < |s| && s[i + 1] == '/'
  }

  /** An open tag does not start where there is no `<`, nor where a `/` follows. */
  lemma NoOpenTag(s: string)
    requires NoTagIn(s)
    ensures !Contains(s, OPEN)
  {
    forall j: nat ensures !HasAt(s, OPEN, j) {
      HasAtChar(s, OPEN, j, 0);
      HasAtChar(s, OPEN, j, 1);
    }
  }

  lemma StartsWithTag(s: string)
    requires OPEN <= s
    ensures Find(s, OPEN) == Some(0) && s[0..] == s
  {
    assert s[0..|OPEN|] == OPEN;
    FindIs(s, OPEN, 0);
  }

  lemma OneClosedTag(front: string)
    requires OPEN <= front && forall i :: 0 < i < |front| ==> front[i] != '<'
    ensures OneRequest(front + CLOSE) && FromTag(front + CLOSE) == front + CLOSE
    ensures Find(front + CLOSE, CLOSE) == Some(|front|)
  {
    StartsWithTag(front + CLOSE);
    assert front + CLOSE + "" == front + CLOSE && front[1] == 'T';
    CloseIsAt(front, "");
    assert (front + CLOSE)[|front|..] == CLOSE;
    NoOpenTag(CLOSE);
  }

  lemma TwoTokens(first: string, second: string)
    ensures Flatten([first, second]) == first + second
    ensures OPEN <= first ==> Behind([first, second])
  {
    assert [first, second][..1] == [first];
    OneToken(first);
    BehindIff([first, second]);
    if OPEN <= first {
      StartsWithTag(first);
    }
  }

  lemma OneIsNotBehind(token: string)
    ensures !Behind([token])
  {
    assert [token][..0] == [];
    NothingInEmpty();
    BehindIff([token]);
  }

  lemma NothingInEmpty()
    ensures !Contains("", OPEN)
  {
  }

  /** Tokens that make the interceptor panic: a trigger without a `>` in front of its close tag,
      which comes in a token of its own. */
  lemma PanicsInStream(front: string)
    requires OPEN <= front && '>' !in front && forall i :: 0 < i < |front| ==> front[i] != '<'
    ensures InterceptAll([front, CLOSE], [], ALWAYS) == Crash
  {
    TwoTokens(front, CLOSE);
    OneClosedTag(front);
    PanicsOnTextIff([front, CLOSE]);
    FrontParts(front);
  }

  /** As one token the same text makes the look behind the stream panic, if it holds a `}`, and is
      ignored otherwise. */
  lemma PanicsBehindStream(front: string)
    requires OPEN <= front && '>' !in front && forall i :: 0 < i < |front| ==> front[i] != '<'
    ensures InterceptAll([front + CLOSE], [], ALWAYS) != Crash
    ensures Outcome([front + CLOSE], [], ALWAYS) == Crash <==> '}' in front
  {
    OneToken(front + CLOSE);
    OneIsNotBehind(front + CLOSE);
    OneClosedTag(front);
    PanicsOnTextIff([front + CLOSE]);
    FrontParts(front);
  }

  lemma FrontParts(front: string)
    ensures '}' in front + CLOSE <==> '}' in front
    ensures '>' !in front ==> forall m: nat :: m <= |front| ==> '>' !in (front + CLOSE)[m..|front|]
  {
  }

  lemma PanicInputs()
    ensures InterceptAll(["<TRIGGER:a", "</TRIGGER>"], [], ALWAYS) == Crash
    ensures Outcome(["<TRIGGER:a}" + CLOSE], [], ALWAYS) == Crash
  {
    PanicsInStream("<TRIGGER:a");
    PanicsBehindStream("<TRIGGER:a}");
  }

  // ---- Captures of one and two tokens ----

  lemma LastTagAt(front: string, t: string)
    requires OPEN <= t && forall i :: 0 < i < |t| && t[i] == '<' ==> i + 1 < |t| && t[i + 1] == '/'
    ensures RFind(front + t, OPEN) == Some(|front|)
  {
    assert t[0..|OPEN|] == OPEN;
    HasAtSuffix(front, t, OPEN, 0);
    forall j: nat | j > |front| ensures !HasAt(front + t, OPEN, j) {
      HasAtSuffix(front, t, OPEN, j - |front|);
      HasAtChar(t, OPEN, j - |front|, 0);
      HasAtChar(t, OPEN, j - |front|, 1);
    }
  }

  /** The second token is checked with the first one. */
  lemma CapturedInTwo(first: string, second: string)
    requires OPEN <= first && Contains(first + second, CLOSE)
    ensures RunOf([first, second], [], ALWAYS).Closed? && RunOf([first, second], [], ALWAYS).st.json == first + second
  {
    StartsWithTag(first);
    CaptureBegins(first);
    assert [first, second][..1] == [first];
  }

  /** The token that brings the open tag begins a capture, whatever else it holds. */
  lemma CaptureBegins(token: string)
    requires OPEN <= token
    ensures RunOf([token], [], ALWAYS) == Streaming(Interceptor(true, token, "", [ModelText("")], None))
    ensures InterceptAll([token], [], ALWAYS) == Reply.Go(Interceptor(true, token, "", [ModelText("")], None))
  {
    StartsWithTag(token);
    var none: seq<string> := [];
    assert [token][..0] == none && RunOf(none, [], ALWAYS) == Streaming(FRESH);
    assert FRESH.cache + token == token && FRESH.json + token == token;
    RunIsIntercept([token], [], ALWAYS);
  }

  // ---- Text that is passed on twice ----

  /** A second token that closes the trigger and starts another one: nothing can be read from the
      capture, it is given back, and the second token stays in the buffer. */
  lemma CaptureGivenBack(first: string, body: string)
    requires OPEN <= first && '<' !in body
    ensures var second := ">" + body + CLOSE + OPEN;
            Intercept(Interceptor(true, first, "", [ModelText("")], None), second, [], true)
            == Reply.Go(Interceptor(false, "", second, [ModelText(""), ModelText(first + second)], None))
  {
    NothingToRead(first + (">" + body));
    Regrouped(first, ">" + body, CLOSE, OPEN);
    HandBack(first, ">" + body + CLOSE + OPEN);
  }

  lemma Regrouped(a: string, b: string, c: string, d: string)
    ensures a + b + c + d == a + (b + c + d)
  {
  }

  lemma NothingToRead(front: string)
    requires OPEN <= front
    ensures var json := front + CLOSE + OPEN; Contains(json, CLOSE) && ExtractTool(json) == NoHeader
  {
    var json := front + CLOSE + OPEN;
    assert json == (front + CLOSE) + OPEN;
    LastTagAt(front + CLOSE, OPEN);
    assert json[|front + CLOSE|..] == OPEN && '>' !in OPEN;
    assert json[|front|..|front| + |CLOSE|] == CLOSE;
    ContainsAt(json, CLOSE, |front|);
  }

  lemma HandBack(first: string, second: string)
    requires OPEN <= first && Contains(first + second, CLOSE) && ExtractTool(first + second) == NoHeader
    ensures Intercept(Interceptor(true, first, "", [ModelText("")], None), second, [], true)
            == Reply.Go(Interceptor(false, "", second, [ModelText(""), ModelText(first + second)], None))
  {
    assert "" + second == second;
  }

  /** The third token then passes the end of the trigger on once more. Both captures begin with an
      empty message. */
  lemma TextRepeated(body: string) returns (tokens: seq<string>)
    requires '<' !in body
    ensures tokens == [OPEN + "a", ">" + body + CLOSE + OPEN, "b"]
    ensures var r := InterceptAll(tokens, [], ALWAYS);
            r.Go? && r.st.sent == [ModelText(""), ModelText(tokens[0] + tokens[1]),
                                   ModelText(">" + body + CLOSE), ModelText("")]
  {
    CaptureBegins(OPEN + "a");
    CaptureGivenBack(OPEN + "a", body);
    TriggerEndShape(body);
    tokens := Repeats(OPEN + "a", ">" + body + CLOSE);
  }

  lemma TriggerEndShape(body: string)
    requires '<' !in body
    ensures NoTagIn(">" + body + CLOSE)
  {
  }

  lemma Repeats(first: string, again: string) returns (tokens: seq<string>)
    requires again != ""
    requires NoTagIn(again)
    requires InterceptAll([first], [], ALWAYS) == Reply.Go(Interceptor(true, first, "", [ModelText("")], None))
    requires Intercept(Interceptor(true, first, "", [ModelText("")], None), again + OPEN, [], true)
             == Reply.Go(Interceptor(false, "", again + OPEN, [ModelText(""), ModelText(first + (again + OPEN))], None))
    ensures tokens == [first, again + OPEN, "b"]
    ensures var r := InterceptAll(tokens, [], ALWAYS);
            r.Go? && r.st.sent == [ModelText(""), ModelText(first + (again + OPEN)), ModelText(again), ModelText("")]
  {
    tokens := [first, again + OPEN, "b"];
    PassedOnAgain([ModelText(""), ModelText(first + (again + OPEN))], again);
    ThreeTokens(first, again + OPEN, "b");
  }

  lemma ThreeTokens(a: string, b: string, c: string)
    ensures InterceptAll([a], [], ALWAYS).Go? ==>
              var next := Intercept(InterceptAll([a], [], ALWAYS).st, b, [], true);
              next.Go? ==> InterceptAll([a, b, c], [], ALWAYS) == Intercept(next.st, c, [], true)
  {
    assert [a, b, c][..1] == [a] && [a, b, c][..2] == [a, b] && [a, b][..1] == [a];
    assert [a, b, c][..3] == [a, b, c];
    if InterceptAll([a], [], ALWAYS).Go? {
      InterceptNext([a, b, c], 1, [], ALWAYS);
      if InterceptAll([a, b], [], ALWAYS).Go? {
        InterceptNext([a, b, c], 2, [], ALWAYS);
      }
    }
  }

  lemma PassedOnAgain(sent: seq<Sent>, again: string)
    requires again != "" && NoTagIn(again)
    ensures Intercept(Interceptor(false, "", again + OPEN, sent, None), "b", [], true)
            == Reply.Go(Interceptor(true, OPEN + "b", "", sent + [ModelText(again)] + [ModelText("")], None))
  {
    var buffer := again + OPEN + "b";
    assert buffer[|again|..|again| + |OPEN|] == OPEN;
    forall j: nat | j < |again| ensures !HasAt(buffer, OPEN, j) {
      HasAtChar(buffer, OPEN, j, 0);
      HasAtChar(buffer, OPEN, j, 1);
    }
    FindIs(buffer, OPEN, |again|);
    assert buffer[..|again|] == again && buffer[|again|..] == OPEN + "b" && "" + (OPEN + "b") == OPEN + "b";
  }
}
