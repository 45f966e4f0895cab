/** The router's token interceptor: it passes model text on to the caller until a trigger starts,
    collects the trigger, and turns a completed one into a tool request. */
module RouterInterceptor {
  import opened Text
  import opened TriggerScan

  /** What the caller's callback is given: text of the model, or a notice about a tool. Of a notice
      only its subject is kept, not its wording. */
  datatype Sent = ModelText(text: string) | Notice(subject: string)

  datatype Tool = Tool(name: string, payload: string)

  datatype Interceptor = Interceptor(
    capture: bool, json: string, cache: string, sent: seq<Sent>, tool: Option<Tool>)

  const FRESH := Interceptor(false, "", "", [], None)

  /** What the callback does with a token: ask for more, stop the stream, or panic. */
  datatype Reply = Go(st: Interceptor) | Stop(st: Interceptor) | Crash

  datatype Verdict = Waiting | Refused | Captured

  // ---- Matching ----

  /** The fixed front of a dynamic trigger: what stands before `->` and `{`. */
  function BaseTrigger(trigger: string): string {
    Trim(Before(Before(trigger, "->"), "{"))
  }

  /** The place of the first trigger, in list order, that occurs in the buffer. */
  function FullMatch(triggers: seq<string>, buffer: string): (r: Option<nat>)
    ensures r.Some? ==> r.value <= |buffer|
    decreases |triggers|
  {
    if triggers == [] then None
    else
      var at := Find(buffer, BaseTrigger(triggers[0]));
      if at.Some? then at else FullMatch(triggers[1..], buffer)
  }

  /** The first place at or behind `i` where the rest of the buffer is a prefix of `base`. */
  function PartialFrom(buffer: string, base: string, i: nat): (r: Option<nat>)
    requires i <= |buffer|
    ensures r.Some? ==> i <= r.value < |buffer| && buffer[r.value..] <= base
    ensures forall j :: i <= j < (if r.Some? then r.value else |buffer|) ==> !(buffer[j..] <= base)
    decreases |buffer| - i
  {
    if i == |buffer| then None
    else if buffer[i..] <= base then Some(i)
    else PartialFrom(buffer, base, i + 1)
  }

  /** The place at which the first trigger, in list order, could be starting. */
  function PartialMatch(triggers: seq<string>, buffer: string): (r: Option<nat>)
    ensures r.Some? ==> r.value < |buffer|
    decreases |triggers|
  {
    if triggers == [] then None
    else
      var at := PartialFrom(buffer, BaseTrigger(triggers[0]), 0);
      if at.Some? then at else PartialMatch(triggers[1..], buffer)
  }

  // ---- Collecting ----

  function Say(sent: seq<Sent>, text: string): seq<Sent> {
    if text == "" then sent else sent + [ModelText(text)]
  }

  /** Starts a capture at `at`, passing on what stands before. */
  function StartCapture(st: Interceptor, buffer: string, at: nat): Interceptor
    requires at <= |buffer|
  {
    st.(capture := true, json := st.json + buffer[at..], cache := "", sent := Say(st.sent, buffer[..at]))
  }

  /** Keeps what could be the start of a trigger, passing on what stands before. */
  function Hold(st: Interceptor, buffer: string, at: nat): Interceptor
    requires at <= |buffer|
  {
    st.(cache := buffer[at..], sent := Say(st.sent, buffer[..at]))
  }

  /** Takes one token up to the point where a captured trigger is checked for completeness.
      `accept` is what the caller's callback answers when the whole buffer is passed on, or nothing. */
  function Take(st: Interceptor, token: string, triggers: seq<string>, accept: bool): (Interceptor, Verdict) {
    var buffer := st.cache + token;
    if st.capture then (st.(json := st.json + token, cache := buffer), Captured)
    else
      match FullMatch(triggers, buffer)
      case Some(at) => (StartCapture(st, buffer, at), Captured)
      case None =>
        match PartialMatch(triggers, buffer)
        case Some(at) => (Hold(st, buffer, at), Waiting)
        case None =>
          match Find(buffer, OPEN)
          case Some(at) => (SayNothing(StartCapture(st, buffer, at)), if accept then Waiting else Refused)
          case None =>
            match PartialFrom(buffer, OPEN, 0)
            case Some(at) => (Hold(st, buffer, at), Waiting)
            case None =>
              (st.(cache := "", sent := st.sent + [ModelText(buffer)]), if accept then Waiting else Refused)
  }

  /** When the open tag is found, the buffer that has just been cleared is passed on: an empty
      message, whose answer decides. The capture is not checked for completeness on that token. */
  function SayNothing(st: Interceptor): Interceptor {
    st.(sent := st.sent + [ModelText("")])
  }

  predicate IsComplete(json: string) {
    if OPEN <= json then Contains(json, CLOSE)
    else if '{' in json then '}' in json
    else '\n' in json || '>' in json
  }

  // ---- Tool requests ----

  function TrimEndMatches(s: string, c: char): string {
    if s != "" && s[|s| - 1] == c then TrimEndMatches(s[..|s| - 1], c) else s
  }

  function TrimStartMatches(s: string, p: string): string
    requires p != ""
    decreases |s|
  {
    if p <= s then TrimStartMatches(s[|p|..], p) else s
  }

  /** A request has the tool and the name that the caller is shown. */
  datatype Extraction = Request(tool: Tool, shownName: string) | NoHeader | SlicePanic

  /** The tool request in a text that starts with the last open tag of the capture. */
  function ExtractFrom(actual: string): Extraction {
    match FindChar(actual, '>')
    case None => NoHeader
    case Some(headerEnd) =>
      var parts := Split(TrimStartMatches(actual[..headerEnd], OPEN), ":");
      var kind := if |parts| >= 2 then parts[0] else "extension";
      var name := if |parts| >= 2 then parts[1] else parts[0];
      var jsonEnd := match Find(actual, CLOSE) case Some(i) => i case None => |actual|;
      if jsonEnd < headerEnd + 1 then SlicePanic
      else
        var payload := TrimEndMatches(Trim(actual[headerEnd + 1..jsonEnd]), '}') + "}";
        Request(Tool(kind + ":" + name, payload), name)
  }

  /** `rfind` of the open tag, then the request behind it. */
  function ExtractTool(json: string): Extraction {
    match RFind(json, OPEN)
    case None => NoHeader
    case Some(start) => ExtractFrom(json[start..])
  }

  /** What happens once a capture is under way: go on collecting, request a tool, or give the text
      back and start over. */
  function Finish(st: Interceptor): Reply {
    if !IsComplete(st.json) then Go(st)
    else if OPEN <= st.json then FinishTrigger(st, ExtractTool(st.json))
    else
      var tool := Tool("DYNAMIC_CEL", Trim(st.json));
      Stop(st.(tool := Some(tool), sent := st.sent + [Notice(tool.payload)]))
  }

  function FinishTrigger(st: Interceptor, request: Extraction): Reply {
    match request
    case Request(tool, shownName) =>
      Stop(st.(tool := Some(tool), sent := st.sent + [Notice(shownName)]))
    case NoHeader =>
      Go(st.(capture := false, json := "", sent := st.sent + [ModelText(st.json)]))
    case SlicePanic => Crash
  }

  /** The whole callback. */
  function Intercept(st: Interceptor, token: string, triggers: seq<string>, accept: bool): Reply {
    var (next, verdict) := Take(st, token, triggers, accept);
    match verdict
    case Waiting => Go(next)
    case Refused => Stop(next)
    case Captured => Finish(next)
  }

  /** When the stream ends inside a capture that has a closing brace, the tool runs all the same. */
  function AfterStream(st: Interceptor): Reply {
    if st.capture && OPEN <= st.json && '}' in st.json then RequestLate(st, ExtractTool(st.json)) else Go(st)
  }

  function RequestLate(st: Interceptor, request: Extraction): Reply {
    match request
    case Request(tool, shownName) => Stop(st.(tool := Some(tool), sent := st.sent + [Notice(shownName)]))
    case NoHeader => Go(st)
    case SlicePanic => Crash
  }

  // ---- Runs up to the first completed capture ----

  datatype Run = Streaming(st: Interceptor) | Closed(st: Interceptor, used: nat) | Turned(st: Interceptor, used: nat)

  /** The state after the tokens, or at the token that completes the first capture, or at the one
      that the caller's callback refuses. */
  function RunOf(tokens: seq<string>, triggers: seq<string>, accepts: nat -> bool): (r: Run)
    ensures !r.Streaming? ==> r.used <= |tokens|
    decreases |tokens|
  {
    if tokens == [] then Streaming(FRESH)
    else
      var n := |tokens| - 1;
      var r := RunOf(tokens[..n], triggers, accepts);
      if r.Streaming? then RunAfter(Take(r.st, tokens[n], triggers, accepts(n)), n + 1) else r
  }

  /** How a run goes on once the token with which `used` have been read is taken. */
  function RunAfter(taken: (Interceptor, Verdict), used: nat): (r: Run)
    ensures r.st == taken.0 && (r.Streaming? || r.used == used)
  {
    var (st, verdict) := taken;
    match verdict
    case Waiting => Streaming(st)
    case Refused => Turned(st, used)
    case Captured => if IsComplete(st.json) then Closed(st, used) else Streaming(st)
  }

  function Consumed(r: Run, tokens: seq<string>): string
    requires !r.Streaming? ==> r.used <= |tokens|
  {
    Flatten(if r.Streaming? then tokens else tokens[..r.used])
  }

  /** The model text passed on to the caller. */
  function TextOf(sent: seq<Sent>): string {
    if sent == [] then ""
    else
      var last := sent[|sent| - 1];
      TextOf(sent[..|sent| - 1]) + (if last.ModelText? then last.text else "")
  }

  function Held(st: Interceptor): string {
    if st.capture then st.json else st.cache
  }

  lemma SayText(sent: seq<Sent>, text: string)
    ensures TextOf(Say(sent, text)) == TextOf(sent) + text
    ensures TextOf(sent + [ModelText(text)]) == TextOf(sent) + text
    ensures TextOf(sent + [Notice(text)]) == TextOf(sent)
  {
    assert (sent + [ModelText(text)])[..|sent|] == sent;
    assert (sent + [Notice(text)])[..|sent|] == sent;
    assert TextOf(sent) + "" == TextOf(sent);
  }

  /** Invariant of a run before its first completed capture: nothing has been collected unless a
      capture is on. */
  ghost predicate Clean(st: Interceptor) {
    !st.capture ==> st.json == ""
  }

  /** A token is neither lost nor duplicated, whatever the triggers are. */
  lemma TakeConserves(st: Interceptor, token: string, triggers: seq<string>, accept: bool)
    requires Clean(st)
    ensures var next := Take(st, token, triggers, accept).0;
            Clean(next) && TextOf(next.sent) + Held(next) == TextOf(st.sent) + Held(st) + token
  {
    var buffer := st.cache + token;
    if st.capture {
      Regroup(TextOf(st.sent), st.json, token);
    } else {
      Regroup(TextOf(st.sent), st.cache, token);
      match FullMatch(triggers, buffer)
      case Some(at) => StartCaptureText(st, buffer, at);
      case None =>
        match PartialMatch(triggers, buffer)
        case Some(at) => HoldText(st, buffer, at);
        case None =>
          match Find(buffer, OPEN)
          case Some(at) =>
            StartCaptureText(st, buffer, at);
            NothingText(StartCapture(st, buffer, at));
          case None =>
            match PartialFrom(buffer, OPEN, 0)
            case Some(at) => HoldText(st, buffer, at);
            case None => SayText(st.sent, buffer);
    }
  }

  lemma NothingText(st: Interceptor)
    ensures TextOf(SayNothing(st).sent) == TextOf(st.sent)
  {
    SayText(st.sent, "");
    assert TextOf(st.sent) + "" == TextOf(st.sent);
  }

  lemma Regroup(a: string, b: string, c: string)
    ensures a + (b + c) == a + b + c
  {
  }

  lemma StartCaptureText(st: Interceptor, buffer: string, at: nat)
    requires at <= |buffer| && st.json == ""
    ensures var next := StartCapture(st, buffer, at); TextOf(next.sent) + next.json == TextOf(st.sent) + buffer
  {
    SayText(st.sent, buffer[..at]);
    assert st.json + buffer[at..] == buffer[at..];
    CutText(TextOf(st.sent), buffer, at);
  }

  lemma CutText(text: string, buffer: string, at: nat)
    requires at <= |buffer|
    ensures text + buffer[..at] + buffer[at..] == text + buffer
  {
  }

  lemma HoldText(st: Interceptor, buffer: string, at: nat)
    requires at <= |buffer|
    ensures var next := Hold(st, buffer, at); TextOf(next.sent) + next.cache == TextOf(st.sent) + buffer
  {
    SayText(st.sent, buffer[..at]);
    CutText(TextOf(st.sent), buffer, at);
  }

  /** Conservation: up to the first completed capture, what was passed on followed by what is held
      is exactly the text received, for any triggers, any tokens and any answers of the caller. */
  lemma {:induction false} Conservation(tokens: seq<string>, triggers: seq<string>, accepts: nat -> bool)
    ensures var r := RunOf(tokens, triggers, accepts);
            Clean(r.st) && TextOf(r.st.sent) + Held(r.st) == Consumed(r, tokens)
    decreases |tokens|
  {
    if tokens != [] {
      var n := |tokens| - 1;
      var front := tokens[..n];
      Conservation(front, triggers, accepts);
      var r := RunOf(front, triggers, accepts);
      if r.Streaming? {
        RunAfterConserves(r.st, tokens, triggers, accepts(n));
      } else {
        assert front[..r.used] == tokens[..r.used];
      }
    }
  }

  lemma RunAfterConserves(st: Interceptor, tokens: seq<string>, triggers: seq<string>, accept: bool)
    requires tokens != [] && Clean(st)
    requires TextOf(st.sent) + Held(st) == Flatten(tokens[..|tokens| - 1])
    ensures var n := |tokens|;
            var r := RunAfter(Take(st, tokens[n - 1], triggers, accept), n);
            Clean(r.st) && TextOf(r.st.sent) + Held(r.st) == Consumed(r, tokens)
  {
    var n := |tokens|;
    TakeConserves(st, tokens[n - 1], triggers, accept);
    ConsumedAll(RunAfter(Take(st, tokens[n - 1], triggers, accept), n), tokens);
  }

  lemma ConsumedAll(r: Run, tokens: seq<string>)
    requires tokens != [] && (r.Streaming? || r.used == |tokens|)
    ensures Consumed(r, tokens) == Flatten(tokens[..|tokens| - 1]) + tokens[|tokens| - 1]
  {
    assert tokens[..|tokens|] == tokens;
  }
}
