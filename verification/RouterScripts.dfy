/** Dynamic triggers, and callers that stop listening: where the fixed front of a trigger ends, when
    a script that starts with one is complete, and what a refusal does. */
module RouterScripts {
  import opened Text
  import opened TriggerScan
  import opened RouterInterceptor
  import opened RouterSearch
  import opened RouterRuns
  import opened RouterRequests

  // ---- The fixed front of a trigger ----

  /** The fixed front of a trigger is its text up to the first `->` or `{`, without the white space
      around it. */
  lemma FrontIs(trigger: string, k: nat)
    requires k <= |trigger| && (k == |trigger| || trigger[k] == '{' || HasAt(trigger, "->", k))
    requires forall j :: 0 <= j < k ==> trigger[j] != '{' && !HasAt(trigger, "->", j)
    ensures BaseTrigger(trigger) == Trim(trigger[..k])
  {
    var front := Before(trigger, "->");
    BeforeIs(trigger, "->", k);
    BraceEnds(front, k);
    assert front[..k] == trigger[..k];
  }

  lemma BeforeIs(s: string, p: string, k: nat)
    requires k <= |s| && forall j :: 0 <= j < k ==> !HasAt(s, p, j)
    ensures Before(s, p) <= s && |Before(s, p)| >= k
    ensures HasAt(s, p, k) ==> Before(s, p) == s[..k]
  {
    if HasAt(s, p, k) {
      FindIs(s, p, k);
    }
  }

  lemma BraceEnds(s: string, k: nat)
    requires k <= |s| && (forall j :: 0 <= j < k ==> s[j] != '{') && (k < |s| ==> s[k] == '{')
    ensures Before(s, "{") == s[..k]
  {
    forall j: nat | j < k ensures !HasAt(s, "{", j) {
      HasAtChar(s, "{", j, 0);
    }
    if k < |s| {
      assert s[k..k + 1] == "{";
      FindIs(s, "{", k);
    }
  }

  /** The trigger that counts is the first one of the list whose front occurs. */
  lemma {:induction false} FirstOfList(triggers: seq<string>, buffer: string, i: nat)
    requires i <= |triggers| && forall j :: 0 <= j < i ==> !Contains(buffer, BaseTrigger(triggers[j]))
    requires i < |triggers| ==> Contains(buffer, BaseTrigger(triggers[i]))
    ensures FullMatch(triggers, buffer) == if i < |triggers| then Find(buffer, BaseTrigger(triggers[i])) else None
    decreases i
  {
    if i > 0 {
      FirstOfList(triggers[1..], buffer, i - 1);
    }
  }

  // ---- Scripts ----

  /** The text behind the first front of a trigger is a whole script: a first pair of braces, or,
      without an opening brace, a line end or a `>`. */
  predicate WholeScript(all: string, base: string) {
    match Find(all, base)
    case None => false
    case Some(k) => if '{' in all[k..] then '}' in all[k..] else '\n' in all[k..] || '>' in all[k..]
  }

  /** The state that belongs to the text read so far. */
  ghost predicate Follows(st: Interceptor, all: string, base: string) {
    var text := TextOf(st.sent);
    && Clean(st)
    && all == text + Held(st)
    && (st.capture ==> Find(all, base) == Some(|text|))
    && (!st.capture ==> Safe(text, st.cache, base))
  }

  lemma NoAngle(buffer: string)
    requires '<' !in buffer
    ensures Find(buffer, OPEN).None? && PartialFrom(buffer, OPEN, 0).None?
  {
    forall j: nat ensures !HasAt(buffer, OPEN, j) {
      HasAtChar(buffer, OPEN, j, 0);
    }
    forall i | 0 <= i < |buffer| ensures !(buffer[i..] <= OPEN) {
      assert buffer[i..][0] == buffer[i];
    }
  }

  lemma {:induction false} ScriptStarts(st: Interceptor, token: string, all: string, base: string, at: nat)
    requires base != "" && Follows(st, all, base) && !st.capture && Find(st.cache + token, base) == Some(at)
    ensures Follows(StartCapture(st, st.cache + token, at), all + token, base)
  {
    var buffer := st.cache + token;
    SayText(st.sent, buffer[..at]);
    WindowFind(TextOf(st.sent), st.cache, token, base);
    assert st.json + buffer[at..] == buffer[at..];
    CutAt(TextOf(st.sent), st.cache, token, at);
  }

  lemma {:induction false} ScriptHeld(st: Interceptor, token: string, all: string, base: string, at: nat)
    requires base != "" && Follows(st, all, base) && !st.capture && Find(st.cache + token, base).None?
    requires PartialFrom(st.cache + token, base, 0) == Some(at)
    ensures Follows(Hold(st, st.cache + token, at), all + token, base)
  {
    SayText(st.sent, (st.cache + token)[..at]);
    HoldSafe(TextOf(st.sent), st.cache, token, at, base);
    CutAt(TextOf(st.sent), st.cache, token, at);
  }

  lemma {:induction false} ScriptPassed(st: Interceptor, token: string, all: string, base: string)
    requires base != "" && Follows(st, all, base) && !st.capture && Find(st.cache + token, base).None?
    requires PartialFrom(st.cache + token, base, 0).None?
    ensures Follows(st.(cache := "", sent := st.sent + [ModelText(st.cache + token)]), all + token, base)
  {
    var buffer := st.cache + token;
    SayText(st.sent, buffer);
    HoldSafe(TextOf(st.sent), st.cache, token, |buffer|, base);
    CutAt(TextOf(st.sent), st.cache, token, |buffer|);
    assert buffer[..|buffer|] == buffer && buffer[|buffer|..] == "";
  }

  lemma OneTriggerMatch(trigger: string, buffer: string)
    ensures FullMatch([trigger], buffer) == Find(buffer, BaseTrigger(trigger))
    ensures PartialMatch([trigger], buffer) == PartialFrom(buffer, BaseTrigger(trigger), 0)
  {
    assert [trigger][1..] == [];
  }

  /** The three things that can happen to a token without `<` in front of a script. */
  function TakeScript(st: Interceptor, buffer: string, base: string): (Interceptor, Verdict) {
    match Find(buffer, base)
    case Some(at) => (StartCapture(st, buffer, at), Captured)
    case None =>
      match PartialFrom(buffer, base, 0)
      case Some(at) => (Hold(st, buffer, at), Waiting)
      case None => (st.(cache := "", sent := st.sent + [ModelText(buffer)]), Waiting)
  }

  lemma {:induction false} TakeOne(st: Interceptor, token: string, trigger: string)
    requires !st.capture && '<' !in st.cache + token
    ensures Take(st, token, [trigger], true) == TakeScript(st, st.cache + token, BaseTrigger(trigger))
  {
    OneTriggerMatch(trigger, st.cache + token);
    NoAngle(st.cache + token);
  }

  lemma TakeScriptFollows(st: Interceptor, token: string, all: string, base: string)
    requires base != "" && Follows(st, all, base) && !st.capture
    ensures var (next, verdict) := TakeScript(st, st.cache + token, base);
            && Follows(next, all + token, base)
            && (verdict == if next.capture then Captured else Waiting)
  {
    var buffer := st.cache + token;
    match Find(buffer, base)
    case Some(at) => ScriptStarts(st, token, all, base, at);
    case None =>
      match PartialFrom(buffer, base, 0)
      case Some(at) => ScriptHeld(st, token, all, base, at);
      case None => ScriptPassed(st, token, all, base);
  }

  lemma {:induction false} TakeFollows(st: Interceptor, token: string, all: string, trigger: string)
    requires BaseTrigger(trigger) != "" && Follows(st, all, BaseTrigger(trigger)) && '<' !in all + token
    ensures var (next, verdict) := Take(st, token, [trigger], true);
            && Follows(next, all + token, BaseTrigger(trigger))
            && (verdict == if next.capture then Captured else Waiting)
  {
    if st.capture {
      ScriptGrows(st, token, all, BaseTrigger(trigger));
    } else {
      assert forall c :: c in st.cache ==> c in all;
      TakeOne(st, token, trigger);
      TakeScriptFollows(st, token, all, BaseTrigger(trigger));
    }
  }

  lemma ScriptGrows(st: Interceptor, token: string, all: string, base: string)
    requires Follows(st, all, base) && st.capture
    ensures Follows(st.(json := st.json + token, cache := st.cache + token), all + token, base)
  {
    FindGrows(all, token, base);
    assert all + token == TextOf(st.sent) + (st.json + token);
  }

  /** Of the captures of a script, the complete ones are the whole scripts. */
  lemma CompleteIff(st: Interceptor, all: string, base: string)
    requires base != "" && Follows(st, all, base) && '<' !in all
    ensures !(OPEN <= Held(st))
    ensures st.capture <==> Contains(all, base)
    ensures st.capture ==> st.json == all[|TextOf(st.sent)|..] && (IsComplete(st.json) <==> WholeScript(all, base))
  {
    assert all[|TextOf(st.sent)|..] == Held(st);
    TagHasAngle(Held(st));
  }

  lemma TagHasAngle(s: string)
    requires '<' !in s
    ensures !(OPEN <= s)
  {
    assert s != "" ==> s[0] in s;
  }

  /** One token of a run: the capture closes when it makes the script whole. */
  lemma {:induction false} ScriptStep(st: Interceptor, token: string, seen: string, trigger: string, used: nat)
    requires BaseTrigger(trigger) != "" && Follows(st, seen, BaseTrigger(trigger)) && '<' !in seen + token
    ensures var r := RunAfter(Take(st, token, [trigger], true), used);
            && Follows(r.st, seen + token, BaseTrigger(trigger))
            && (if WholeScript(seen + token, BaseTrigger(trigger)) then r == Closed(r.st, used) && r.st.capture
                else r.Streaming?)
  {
    TakeFollows(st, token, seen, trigger);
    AfterTaken(Take(st, token, [trigger], true), seen + token, BaseTrigger(trigger), used);
  }

  lemma AfterTaken(taken: (Interceptor, Verdict), all: string, base: string, used: nat)
    requires base != "" && Follows(taken.0, all, base) && '<' !in all
    requires taken.1 == if taken.0.capture then Captured else Waiting
    ensures var r := RunAfter(taken, used);
            && r.st == taken.0
            && (if WholeScript(all, base) then r == Closed(r.st, used) && r.st.capture else r.Streaming?)
  {
    CompleteIff(taken.0, all, base);
  }

  /** The last token of a run that has been streaming. */
  lemma {:induction false} LastStep(tokens: seq<string>, trigger: string)
    requires tokens != [] && BaseTrigger(trigger) != "" && '<' !in Flatten(tokens)
    requires var front := tokens[..|tokens| - 1];
             var r := RunOf(front, [trigger], ALWAYS);
             r.Streaming? && Follows(r.st, Flatten(front), BaseTrigger(trigger))
    ensures var r := RunOf(tokens, [trigger], ALWAYS);
            && Follows(r.st, Flatten(tokens), BaseTrigger(trigger))
            && (if WholeScript(Flatten(tokens), BaseTrigger(trigger)) then r == Closed(r.st, |tokens|) && r.st.capture
                else r.Streaming?)
  {
    var n := |tokens| - 1;
    ScriptStep(RunOf(tokens[..n], [trigger], ALWAYS).st, tokens[n], Flatten(tokens[..n]), trigger, n + 1);
  }

  /** As long as no whole script has come in, the stream goes on. */
  lemma {:induction false} ScriptOpen(tokens: seq<string>, trigger: string)
    requires BaseTrigger(trigger) != "" && '<' !in Flatten(tokens)
    requires forall m: nat :: m <= |tokens| ==> !WholeScript(Flatten(tokens[..m]), BaseTrigger(trigger))
    ensures RunOf(tokens, [trigger], ALWAYS).Streaming?
    ensures Follows(RunOf(tokens, [trigger], ALWAYS).st, Flatten(tokens), BaseTrigger(trigger))
    decreases |tokens|
  {
    var base := BaseTrigger(trigger);
    if tokens == [] {
      assert "" + "" == "";
      forall j ensures !HasAt("", base, j) {
      }
    } else {
      var n := |tokens| - 1;
      var front := tokens[..n];
      forall m: nat | m <= n ensures front[..m] == tokens[..m] {
      }
      ScriptOpen(front, trigger);
      assert tokens[..|tokens|] == tokens;
      LastStep(tokens, trigger);
    }
  }

  /** The token that makes the script whole closes the capture. */
  lemma {:induction false} ScriptCloses(tokens: seq<string>, trigger: string)
    requires tokens != [] && BaseTrigger(trigger) != "" && '<' !in Flatten(tokens)
    requires WholeScript(Flatten(tokens), BaseTrigger(trigger))
    requires forall m: nat :: m < |tokens| ==> !WholeScript(Flatten(tokens[..m]), BaseTrigger(trigger))
    ensures var r := RunOf(tokens, [trigger], ALWAYS);
            var k := Find(Flatten(tokens), BaseTrigger(trigger)).value;
            && r == Closed(r.st, |tokens|) && IsComplete(r.st.json) && !(OPEN <= r.st.json)
            && TextOf(r.st.sent) == Flatten(tokens)[..k] && r.st.json == Flatten(tokens)[k..]
  {
    var n := |tokens| - 1;
    var front := tokens[..n];
    forall m: nat | m <= n ensures front[..m] == tokens[..m] {
    }
    ScriptOpen(front, trigger);
    LastStep(tokens, trigger);
    CapturedScript(RunOf(tokens, [trigger], ALWAYS).st, Flatten(tokens), BaseTrigger(trigger));
  }

  lemma {:induction false} CapturedScript(st: Interceptor, all: string, base: string)
    requires base != "" && Follows(st, all, base) && st.capture && WholeScript(all, base) && '<' !in all
    ensures IsComplete(st.json) && !(OPEN <= st.json)
    ensures var k := Find(all, base).value; TextOf(st.sent) == all[..k] && st.json == all[k..]
  {
    CompleteIff(st, all, base);
  }

  /** The tool of a script is the script. */
  lemma ScriptTool(st: Interceptor)
    requires IsComplete(st.json) && !(OPEN <= st.json)
    ensures Finish(st).Stop? && TextOf(Finish(st).st.sent) == TextOf(st.sent)
    ensures AfterStream(Finish(st).st) == Reply.Go(Finish(st).st)
    ensures EffectOf(AfterStream(Finish(st).st)) == Runs(Tool("DYNAMIC_CEL", Trim(st.json)))
  {
    SayText(st.sent, Trim(st.json));
  }

  /** With one dynamic trigger and text without `<`: for every cutting into tokens, the script that
      is run starts at the first front of the trigger and ends with the first token that makes it
      whole; everything in front of it is shown, and nothing of it. */
  lemma {:induction false} ScriptRuns(tokens: seq<string>, trigger: string, n: nat)
    requires BaseTrigger(trigger) != "" && '<' !in Flatten(tokens)
    requires 0 < n <= |tokens| && WholeScript(Flatten(tokens[..n]), BaseTrigger(trigger))
    requires forall m: nat :: m < n ==> !WholeScript(Flatten(tokens[..m]), BaseTrigger(trigger))
    ensures var got := Flatten(tokens[..n]);
            var k := Find(got, BaseTrigger(trigger)).value;
            && InterceptAll(tokens, [trigger], ALWAYS).Stop?
            && TextOf(InterceptAll(tokens, [trigger], ALWAYS).st.sent) == got[..k]
            && EffectOf(Outcome(tokens, [trigger], ALWAYS)) == Runs(Tool("DYNAMIC_CEL", Trim(got[k..])))
  {
    FlattenPrefix(tokens, n);
    assert Flatten(tokens[..n]) == Flatten(tokens)[..|Flatten(tokens[..n])|];
    forall m: nat | m < n ensures tokens[..n][..m] == tokens[..m] {
    }
    ScriptEnds(tokens[..n], trigger);
    InterceptStays(tokens, n, [trigger], ALWAYS);
  }

  lemma {:induction false} ScriptEnds(tokens: seq<string>, trigger: string)
    requires tokens != [] && BaseTrigger(trigger) != "" && '<' !in Flatten(tokens)
    requires WholeScript(Flatten(tokens), BaseTrigger(trigger))
    requires forall m: nat :: m < |tokens| ==> !WholeScript(Flatten(tokens[..m]), BaseTrigger(trigger))
    ensures var k := Find(Flatten(tokens), BaseTrigger(trigger)).value;
            var end := InterceptAll(tokens, [trigger], ALWAYS);
            && end.Stop? && TextOf(end.st.sent) == Flatten(tokens)[..k]
            && EffectOf(AfterStream(end.st)) == Runs(Tool("DYNAMIC_CEL", Trim(Flatten(tokens)[k..])))
  {
    ScriptCloses(tokens, trigger);
    RunIsIntercept(tokens, [trigger], ALWAYS);
    assert tokens[..|tokens|] == tokens;
    ScriptTool(RunOf(tokens, [trigger], ALWAYS).st);
  }

  /** Otherwise nothing is run. */
  lemma {:induction false} NoScriptRuns(tokens: seq<string>, trigger: string)
    requires BaseTrigger(trigger) != "" && '<' !in Flatten(tokens)
    requires forall m: nat :: m <= |tokens| ==> !WholeScript(Flatten(tokens[..m]), BaseTrigger(trigger))
    ensures EffectOf(Outcome(tokens, [trigger], ALWAYS)) == NoTool
  {
    ScriptOpen(tokens, trigger);
    RunIsIntercept(tokens, [trigger], ALWAYS);
    NoToolYet(tokens, [trigger]);
    NoLateTool(RunOf(tokens, [trigger], ALWAYS).st, Flatten(tokens), BaseTrigger(trigger));
  }

  lemma NoLateTool(st: Interceptor, all: string, base: string)
    requires base != "" && Follows(st, all, base) && '<' !in all && st.tool == None
    ensures EffectOf(AfterStream(st)) == NoTool
  {
    CompleteIff(st, all, base);
  }

  lemma {:induction false} NoToolYet(tokens: seq<string>, triggers: seq<string>)
    ensures RunOf(tokens, triggers, ALWAYS).st.tool == None
    decreases |tokens|
  {
    if tokens != [] {
      NoToolYet(tokens[..|tokens| - 1], triggers);
    }
  }

  // ---- Refusals ----

  function Messages(tokens: seq<string>): seq<Sent> {
    seq(|tokens|, i requires 0 <= i < |tokens| => ModelText(tokens[i]))
  }

  lemma PlainToken(st: Interceptor, token: string, accept: bool)
    requires '<' !in token && !st.capture && st.cache == ""
    ensures var next := st.(sent := st.sent + [ModelText(token)]);
            Intercept(st, token, [], accept) == if accept then Reply.Go(next) else Reply.Stop(next)
  {
    assert "" + token == token;
    NoAngle(token);
  }

  /** Text without `<` is passed on token by token, as long as the caller accepts it. */
  lemma {:induction false} PlainPasses(tokens: seq<string>, accepts: nat -> bool)
    requires '<' !in Flatten(tokens) && forall i: nat :: i < |tokens| ==> accepts(i)
    ensures InterceptAll(tokens, [], accepts) == Reply.Go(FRESH.(sent := Messages(tokens)))
    decreases |tokens|
  {
    if tokens == [] {
      assert Messages(tokens) == [];
    } else {
      var n := |tokens| - 1;
      PlainPasses(tokens[..n], accepts);
      PlainToken(FRESH.(sent := Messages(tokens[..n])), tokens[n], true);
      assert tokens[..|tokens|] == tokens;
      InterceptNext(tokens, n, [], accepts);
      assert Messages(tokens) == Messages(tokens[..n]) + [ModelText(tokens[n])];
    }
  }

  /** The first token that the caller refuses is the last one it is given. */
  lemma {:induction false} RefusalStops(tokens: seq<string>, accepts: nat -> bool, n: nat)
    requires n < |tokens| && '<' !in Flatten(tokens[..n + 1])
    requires (forall i: nat :: i < n ==> accepts(i)) && !accepts(n)
    ensures InterceptAll(tokens, [], accepts) == Reply.Stop(FRESH.(sent := Messages(tokens[..n + 1])))
  {
    assert tokens[..n + 1][..n] == tokens[..n];
    PlainPasses(tokens[..n], accepts);
    PlainToken(FRESH.(sent := Messages(tokens[..n])), tokens[n], false);
    assert Messages(tokens[..n + 1]) == Messages(tokens[..n]) + [ModelText(tokens[n])];
    InterceptNext(tokens, n, [], accepts);
    InterceptStays(tokens, n + 1, [], accepts);
  }
}
