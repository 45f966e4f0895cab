/** The interceptor as an object with fields, and the request loop around it: stream, run the tool
    a trigger asks for, stream the final answer, stop. */
module AgenticLoop {
  import opened Text
  import opened TriggerScan
  import opened RouterInterceptor
  import opened RouterSearch
  import opened RouterRuns
  import opened RouterRequests
  import opened RouterTools
  import opened Continuation

  // ---- One stream through the interceptor ----

  class TokenInterceptor {
    const dynamicTriggers: seq<string>
    var capture: bool
    var jsonBuffer: string
    var bufferCache: string
    var sent: seq<Sent>
    var toolState: Option<Tool>

    constructor (triggers: seq<string>)
      ensures State() == FRESH && dynamicTriggers == triggers
    {
      dynamicTriggers := triggers;
      capture, jsonBuffer, bufferCache, sent, toolState := false, "", "", [], None;
    }

    function State(): Interceptor
      reads this
    {
      Interceptor(capture, jsonBuffer, bufferCache, sent, toolState)
    }

    method FindTrigger(buffer: string) returns (found: Option<nat>)
      ensures found == FullMatch(dynamicTriggers, buffer)
    {
      assert dynamicTriggers[0..] == dynamicTriggers;
      for i := 0 to |dynamicTriggers|
        invariant FullMatch(dynamicTriggers[i..], buffer) == FullMatch(dynamicTriggers, buffer)
      {
        found := Find(buffer, BaseTrigger(dynamicTriggers[i]));
        if found.Some? {
          return;
        }
        assert dynamicTriggers[i..][1..] == dynamicTriggers[i + 1..];
      }
      found := None;
    }

    static method FindPartial(buffer: string, base: string) returns (found: Option<nat>)
      ensures found == PartialFrom(buffer, base, 0)
    {
      for i := 0 to |buffer|
        invariant PartialFrom(buffer, base, i) == PartialFrom(buffer, base, 0)
      {
        if buffer[i..] <= base {
          return Some(i);
        }
      }
      found := None;
    }

    method FindPartialTrigger(buffer: string) returns (found: Option<nat>)
      ensures found == PartialMatch(dynamicTriggers, buffer)
    {
      assert dynamicTriggers[0..] == dynamicTriggers;
      for i := 0 to |dynamicTriggers|
        invariant PartialMatch(dynamicTriggers[i..], buffer) == PartialMatch(dynamicTriggers, buffer)
      {
        found := FindPartial(buffer, BaseTrigger(dynamicTriggers[i]));
        if found.Some? {
          return;
        }
        assert dynamicTriggers[i..][1..] == dynamicTriggers[i + 1..];
      }
      found := None;
    }

    method BeginCapture(at: nat)
      requires at <= |bufferCache|
      modifies this
      ensures State() == StartCapture(old(State()), old(bufferCache), at)
    {
      capture := true;
      jsonBuffer := jsonBuffer + bufferCache[at..];
      var prefix := bufferCache[..at];
      bufferCache := "";
      if prefix != "" {
        sent := sent + [ModelText(prefix)];
      }
    }

    /** One token; `ok` is false when the payload slice panics. */
    method OnToken(token: string, accept: bool) returns (go: bool, ok: bool)
      modifies this
      ensures match Intercept(old(State()), token, dynamicTriggers, accept)
              case Go(st) => ok && go && State() == st
              case Stop(st) => ok && !go && State() == st
              case Crash => !ok
    {
      ok := true;
      bufferCache := bufferCache + token;
      if capture {
        jsonBuffer := jsonBuffer + token;
      } else {
        var found := FindTrigger(bufferCache);
        if found.Some? {
          BeginCapture(found.value);
        } else {
          var partial := FindPartialTrigger(bufferCache);
          if partial.None? {
            var at := Find(bufferCache, OPEN);
            if at.Some? {
              BeginCapture(at.value);
            } else {
              partial := FindPartial(bufferCache, OPEN);
            }
          }
          if partial.Some? {
            var flush := bufferCache[..partial.value];
            bufferCache := bufferCache[partial.value..];
            if flush != "" {
              sent := sent + [ModelText(flush)];
            }
            return true, true;
          }
          sent := sent + [ModelText(bufferCache)];
          bufferCache := "";
          return accept, true;
        }
      }
      go, ok := CheckComplete();
    }

    method CheckComplete() returns (go: bool, ok: bool)
      requires capture
      modifies this
      ensures match Finish(old(State()))
              case Go(st) => ok && go && State() == st
              case Stop(st) => ok && !go && State() == st
              case Crash => !ok
    {
      if !IsComplete(jsonBuffer) {
        return true, true;
      }
      if OPEN <= jsonBuffer {
        match ExtractTool(jsonBuffer)
        case Request(tool, shownName) =>
          toolState := Some(tool);
          sent := sent + [Notice(shownName)];
          return false, true;
        case SlicePanic =>
          return false, false;
        case NoHeader =>
          sent := sent + [ModelText(jsonBuffer)];
          capture := false;
          jsonBuffer := "";
          return true, true;
      } else {
        toolState := Some(Tool("DYNAMIC_CEL", Trim(jsonBuffer)));
        sent := sent + [Notice(Trim(jsonBuffer))];
        return false, true;
      }
    }

    /** The check for an unclosed trigger after the stream. */
    method CheckUnclosed() returns (ok: bool)
      modifies this
      ensures match AfterStream(old(State()))
              case Go(st) => ok && State() == st
              case Stop(st) => ok && State() == st
              case Crash => !ok
    {
      ok := true;
      if capture && OPEN <= jsonBuffer && '}' in jsonBuffer {
        match ExtractTool(jsonBuffer)
        case Request(tool, shownName) =>
          toolState := Some(tool);
          sent := sent + [Notice(shownName)];
        case SlicePanic =>
          ok := false;
        case NoHeader =>
      }
    }

    /** A whole stream through the interceptor. */
    method Stream(tokens: seq<string>, accepts: nat -> bool) returns (ok: bool)
      requires State() == FRESH
      modifies this
      ensures match InterceptAll(tokens, dynamicTriggers, accepts)
              case Go(st) => ok && State() == st
              case Stop(st) => ok && State() == st
              case Crash => !ok
    {
      for i := 0 to |tokens|
        invariant InterceptAll(tokens[..i], dynamicTriggers, accepts) == Reply.Go(State())
      {
        InterceptNext(tokens, i, dynamicTriggers, accepts);
        var go;
        go, ok := OnToken(tokens[i], accepts(i));
        if !ok || !go {
          InterceptStays(tokens, i + 1, dynamicTriggers, accepts);
          return;
        }
      }
      assert tokens[..|tokens|] == tokens;
      ok := true;
    }
  }

  // ---- The request loop ----

  /** What the backend does on one call: the tokens it produces, and whether it reports an error. */
  datatype Generation = Generation(tokens: seq<string>, fails: bool)

  datatype Ending = Finished | BackendError | Panicked

  /** A finished request: how it ended, how often the backend was called, the tools that were run,
      and what the caller received before and after a tool. */
  datatype Answer = Answer(ending: Ending, calls: nat, tools: seq<Tool>, sent: seq<Sent>, final: seq<string>)

  /** The request as one expression: at most one intercepted stream and one final stream. */
  function AnswerOf(gens: nat -> Generation, triggers: seq<string>, accepts: (nat, nat) -> bool): Answer {
    match InterceptAll(gens(0).tokens, triggers, (i: nat) => accepts(0, i))
    case Crash => Answer(Panicked, 1, [], [], [])
    case Go(st) => AfterFirst(gens, st, accepts)
    case Stop(st) => AfterFirst(gens, st, accepts)
  }

  function AfterFirst(gens: nat -> Generation, st: Interceptor, accepts: (nat, nat) -> bool): Answer {
    if gens(0).fails then Answer(BackendError, 1, [], st.sent, [])
    else
      match AfterStream(st)
      case Crash => Answer(Panicked, 1, [], [], [])
      case Go(end) => WithTool(gens, end, accepts)
      case Stop(end) => WithTool(gens, end, accepts)
  }

  function WithTool(gens: nat -> Generation, st: Interceptor, accepts: (nat, nat) -> bool): Answer {
    if st.tool.None? then Answer(Finished, 1, [], st.sent, [])
    else
      var tail := TailRun(gens(1).tokens, (i: nat) => accepts(1, i)).0;
      Answer(if gens(1).fails then BackendError else Finished, 2, [st.tool.value], st.sent, tail.passed)
  }

  /** Whatever the backend generates and the caller answers: the backend is called at most twice,
      at most one tool request is run, and the text passed on after it contains no open tag. */
  lemma AgenticSafety(gens: nat -> Generation, triggers: seq<string>, accepts: (nat, nat) -> bool)
    ensures var a := AnswerOf(gens, triggers, accepts);
            && 1 <= a.calls <= 2 && |a.tools| <= 1
            && (a.calls == 2 <==> |a.tools| == 1)
            && a.final <= gens(1).tokens
            && !Contains(Flatten(a.final), OPEN)
  {
    NoTriggerAfterTool(gens(1).tokens, (i: nat) => accepts(1, i));
    var nothing: seq<string> := [];
    assert Flatten(nothing) == "";
  }

  /** A request panics exactly when its first stream does, or when that stream ends without an error
      on a token that begins a capture with a broken trigger. */
  lemma PanicsIff(gens: nat -> Generation, triggers: seq<string>, accepts: (nat, nat) -> bool)
    ensures AnswerOf(gens, triggers, accepts).ending == Panicked
            <==> InterceptAll(gens(0).tokens, triggers, (i: nat) => accepts(0, i)) == Crash
                 || (!gens(0).fails && EndsBroken(gens(0).tokens, triggers, (i: nat) => accepts(0, i)))
  {
    OutcomePanicsIff(gens(0).tokens, triggers, (i: nat) => accepts(0, i));
    ReceivedIsAll(gens(0).tokens, triggers, (i: nat) => accepts(0, i));
  }

  // ---- What the caller receives ----

  /** What the first stream and the look behind it come to. */
  function First(gens: nat -> Generation, triggers: seq<string>, accepts: (nat, nat) -> bool): Reply {
    Outcome(gens(0).tokens, triggers, (i: nat) => accepts(0, i))
  }

  /** When the first stream runs a tool, that tool is run, and the second generation is passed on up
      to the token that completes an open tag. */
  lemma AnswerAfterTool(gens: nat -> Generation, triggers: seq<string>, accepts: (nat, nat) -> bool, tool: Tool)
    requires !gens(0).fails && EffectOf(First(gens, triggers, accepts)) == Runs(tool)
    requires forall i: nat :: accepts(1, i)
    ensures var a := AnswerOf(gens, triggers, accepts);
            && a.tools == [tool] && a.calls == 2
            && a.ending == (if gens(1).fails then BackendError else Finished)
            && a.sent == First(gens, triggers, accepts).st.sent
            && a.final == gens(1).tokens[..TokensBefore(gens(1).tokens, OPEN)]
  {
    TailIsSearch(gens(1).tokens, (i: nat) => accepts(1, i));
  }

  /** A caller that refuses a token of the second generation is given that token and no further. */
  lemma AnswerRefused(gens: nat -> Generation, triggers: seq<string>, accepts: (nat, nat) -> bool, tool: Tool, n: nat)
    requires !gens(0).fails && EffectOf(First(gens, triggers, accepts)) == Runs(tool)
    requires n < TokensBefore(gens(1).tokens, OPEN)
    requires (forall i: nat :: i < n ==> accepts(1, i)) && !accepts(1, n)
    ensures AnswerOf(gens, triggers, accepts).final == gens(1).tokens[..n + 1]
  {
    TailRefused(gens(1).tokens, (i: nat) => accepts(1, i), n);
  }

  /** Without a tool, one call of the backend is the whole request. */
  lemma AnswerWithoutTool(gens: nat -> Generation, triggers: seq<string>, accepts: (nat, nat) -> bool)
    requires !gens(0).fails && EffectOf(First(gens, triggers, accepts)) == NoTool
    ensures First(gens, triggers, accepts) != Crash
    ensures AnswerOf(gens, triggers, accepts) == Answer(Finished, 1, [], First(gens, triggers, accepts).st.sent, [])
  {
  }

  /** When the backend reports an error on the first stream, no tool is run. */
  lemma AnswerOnError(gens: nat -> Generation, triggers: seq<string>, accepts: (nat, nat) -> bool)
    requires gens(0).fails
    requires InterceptAll(gens(0).tokens, triggers, (i: nat) => accepts(0, i)) != Crash
    ensures var st := InterceptAll(gens(0).tokens, triggers, (i: nat) => accepts(0, i)).st;
            AnswerOf(gens, triggers, accepts) == Answer(BackendError, 1, [], st.sent, [])
  {
  }

  lemma {:induction false} TriggerNotShown(tokens: seq<string>, front: string, header: string, body: string,
                                           back: string)
    requires Writable(header, body) && !Contains(front, OPEN) && !Contains(back, OPEN)
    requires Flatten(tokens) == front + (Trigger(header, body) + back) && Outcome(tokens, [], ALWAYS) != Crash
    ensures TextOf(Outcome(tokens, [], ALWAYS).st.sent) == front
  {
    OneTrigger(front, header, body, back);
    ShownBeforeTool(tokens);
    assert FromTag(Flatten(tokens)) == Trigger(header, body) + back;
    assert Flatten(tokens)[..Find(Flatten(tokens), OPEN).value] == front;
  }

  /** A whole request, from text to text: a first generation with one written trigger, in any tokens
      of which one comes in behind the open tag, runs the tool that the trigger names with its
      payload; the caller is shown the text in front of the trigger, and then the second generation
      up to an open tag. */
  lemma WrittenRequest(gens: nat -> Generation, accepts: (nat, nat) -> bool, front: string, kind: string,
                       name: string, more: string, body: string, back: string)
    requires !gens(0).fails && !gens(1).fails && forall n: nat, i: nat :: accepts(n, i)
    requires var header := kind + ":" + name + more;
             && Writable(header, body) && !Contains(front, OPEN) && !Contains(back, OPEN)
             && Flatten(gens(0).tokens) == front + (Trigger(header, body) + back)
    requires ':' !in kind && ':' !in name && (more != "" ==> more[0] == ':')
    requires Behind(gens(0).tokens)
    ensures var a := AnswerOf(gens, [], accepts);
            && a.ending == Finished && a.calls == 2
            && a.tools == [Tool(kind + ":" + name, PayloadOf(body))]
            && TextOf(a.sent) == front
            && a.final == gens(1).tokens[..TokensBefore(gens(1).tokens, OPEN)]
  {
    WrittenToolRuns(gens(0).tokens, front, kind, name, more, body, back);
    TriggerNotShown(gens(0).tokens, front, kind + ":" + name + more, body, back);
    SameAnswers(gens(0).tokens, [], (i: nat) => accepts(0, i), ALWAYS);
    AnswerAfterTool(gens, [], accepts, Tool(kind + ":" + name, PayloadOf(body)));
  }

  /** The loop: up to three iterations are allowed, a continuation ends it. */
  method GenerateStream(gens: nat -> Generation, triggers: seq<string>, accepts: (nat, nat) -> bool)
    returns (answer: Answer)
    ensures answer.ending == AnswerOf(gens, triggers, accepts).ending
    ensures answer.ending != Panicked ==> answer == AnswerOf(gens, triggers, accepts)
    ensures answer.calls <= 2 && |answer.tools| <= 1 && !Contains(Flatten(answer.final), OPEN)
  {
    AgenticSafety(gens, triggers, accepts);
    var maxIters, isContinuation := 3, false;
    var calls, tools, sent := 0, [], [];
    answer := Answer(Finished, calls, tools, sent, []);
    assert Flatten(answer.final) == "";
    while maxIters > 0
      invariant 0 <= maxIters <= 3
      invariant !isContinuation ==> calls == 0 && maxIters == 3
      invariant isContinuation ==> calls == 1 && maxIters == 2
      invariant answer.final == [] && |tools| <= calls
      invariant isContinuation ==>
                  exists st: Interceptor {:trigger st.tool} ::
                    st.tool.Some? && st.sent == sent && tools == [st.tool.value]
                    && AnswerOf(gens, triggers, accepts) == WithTool(gens, st, accepts)
    {
      maxIters := maxIters - 1;
      if isContinuation {
        var passed := StreamTail(gens(1).tokens, (i: nat) => accepts(1, i));
        calls := calls + 1;
        NoTriggerAfterTool(gens(1).tokens, (i: nat) => accepts(1, i));
        answer := Answer(if gens(1).fails then BackendError else Finished, calls, tools, sent, passed);
        break;
      }
      var interceptor := new TokenInterceptor(triggers);
      var ok := interceptor.Stream(gens(0).tokens, (i: nat) => accepts(0, i));
      calls := calls + 1;
      if !ok {
        return Answer(Panicked, calls, tools, [], []);
      }
      if gens(0).fails {
        return Answer(BackendError, calls, tools, interceptor.sent, []);
      }
      ok := interceptor.CheckUnclosed();
      if !ok {
        return Answer(Panicked, calls, tools, [], []);
      }
      sent := interceptor.sent;
      if interceptor.toolState.None? {
        return Answer(Finished, calls, tools, sent, []);
      }
      tools := tools + [interceptor.toolState.value];
      isContinuation := true;
      assert interceptor.State().tool.Some?;
    }
  }

  method StreamTail(tokens: seq<string>, accepts: nat -> bool) returns (passed: seq<string>)
    ensures passed == TailRun(tokens, accepts).0.passed
  {
    var tail := new TailStream();
    for i := 0 to |tokens|
      invariant TailRun(tokens[..i], accepts) == (tail.State(), true)
    {
      assert tokens[..i + 1][..i] == tokens[..i];
      var go := tail.OnToken(tokens[i], accepts(i));
      if !go {
        TailStays(tokens, i + 1, accepts);
        return tail.passed;
      }
    }
    assert tokens[..|tokens|] == tokens;
    passed := tail.passed;
  }
}
