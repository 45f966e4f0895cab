/** Whole streams through the interceptor, beyond the first capture. */
module RouterRuns {
  import opened Text
  import opened TriggerScan
  import opened RouterInterceptor

  /** The callback on the tokens in order, until it stops the stream. */
  function InterceptAll(tokens: seq<string>, triggers: seq<string>, accepts: nat -> bool): (r: Reply)
    decreases |tokens|
  {
    if tokens == [] then Reply.Go(FRESH)
    else
      var n := |tokens| - 1;
      match InterceptAll(tokens[..n], triggers, accepts)
      case Go(st) => Intercept(st, tokens[n], triggers, accepts(n))
      case other => other
  }

  lemma AfterIsIntercept(st: Interceptor, token: string, triggers: seq<string>, accept: bool, used: nat)
    ensures var r := RunAfter(Take(st, token, triggers, accept), used);
            Intercept(st, token, triggers, accept)
            == if r.Streaming? then Reply.Go(r.st) else if r.Closed? then Finish(r.st) else Reply.Stop(r.st)
  {
    var (next, verdict) := Take(st, token, triggers, accept);
  }

  /** Until the first capture is complete, the callback's state is the one of the run. */
  lemma {:induction false} RunIsIntercept(tokens: seq<string>, triggers: seq<string>, accepts: nat -> bool)
    ensures RunOf(tokens, triggers, accepts).Streaming? ==>
              InterceptAll(tokens, triggers, accepts) == Reply.Go(RunOf(tokens, triggers, accepts).st)
    ensures RunOf(tokens, triggers, accepts).Closed? ==>
              InterceptAll(tokens[..RunOf(tokens, triggers, accepts).used], triggers, accepts)
              == Finish(RunOf(tokens, triggers, accepts).st)
    ensures RunOf(tokens, triggers, accepts).Turned? ==>
              InterceptAll(tokens, triggers, accepts) == Reply.Stop(RunOf(tokens, triggers, accepts).st)
    decreases |tokens|
  {
    if tokens != [] {
      var n := |tokens| - 1;
      var front := tokens[..n];
      RunIsIntercept(front, triggers, accepts);
      var r := RunOf(front, triggers, accepts);
      assert tokens[..n + 1] == tokens;
      if r.Streaming? {
        AfterIsIntercept(r.st, tokens[n], triggers, accepts(n), n + 1);
      } else {
        assert front[..r.used] == tokens[..r.used];
      }
    }
  }

  lemma InterceptNext(tokens: seq<string>, i: nat, triggers: seq<string>, accepts: nat -> bool)
    requires i < |tokens| && InterceptAll(tokens[..i], triggers, accepts).Go?
    ensures InterceptAll(tokens[..i + 1], triggers, accepts)
            == Intercept(InterceptAll(tokens[..i], triggers, accepts).st, tokens[i], triggers, accepts(i))
  {
    assert tokens[..i + 1][..i] == tokens[..i];
  }

  lemma {:induction false} InterceptStays(tokens: seq<string>, k: nat, triggers: seq<string>, accepts: nat -> bool)
    requires k <= |tokens| && !InterceptAll(tokens[..k], triggers, accepts).Go?
    ensures InterceptAll(tokens, triggers, accepts) == InterceptAll(tokens[..k], triggers, accepts)
    decreases |tokens|
  {
    if k == |tokens| {
      assert tokens[..k] == tokens;
    } else {
      assert tokens[..|tokens| - 1][..k] == tokens[..k];
      InterceptStays(tokens[..|tokens| - 1], k, triggers, accepts);
    }
  }

  /** Only the answers to the tokens of the stream matter. */
  lemma {:induction false} SameAnswers(tokens: seq<string>, triggers: seq<string>, f: nat -> bool, g: nat -> bool)
    requires forall i: nat :: i < |tokens| ==> f(i) == g(i)
    ensures InterceptAll(tokens, triggers, f) == InterceptAll(tokens, triggers, g)
    ensures Outcome(tokens, triggers, f) == Outcome(tokens, triggers, g)
    decreases |tokens|
  {
    if tokens != [] {
      SameAnswers(tokens[..|tokens| - 1], triggers, f, g);
    }
  }

  /** The number of tokens that come in before the stream ends. */
  function Received(tokens: seq<string>, triggers: seq<string>, accepts: nat -> bool): (n: nat)
    ensures n <= |tokens|
    decreases |tokens|
  {
    if tokens == [] || InterceptAll(tokens[..|tokens| - 1], triggers, accepts).Go? then |tokens|
    else Received(tokens[..|tokens| - 1], triggers, accepts)
  }

  /** The stream has not stopped before its last token. */
  predicate Reading(tokens: seq<string>, triggers: seq<string>, accepts: nat -> bool) {
    tokens != [] ==> InterceptAll(tokens[..|tokens| - 1], triggers, accepts).Go?
  }

  lemma {:induction false} ReceivedIsAll(tokens: seq<string>, triggers: seq<string>, accepts: nat -> bool)
    ensures var got := tokens[..Received(tokens, triggers, accepts)];
            Reading(got, triggers, accepts)
            && InterceptAll(got, triggers, accepts) == InterceptAll(tokens, triggers, accepts)
    decreases |tokens|
  {
    var n := Received(tokens, triggers, accepts);
    if n == |tokens| {
      assert tokens[..n] == tokens;
    } else {
      ReceivedIsAll(tokens[..|tokens| - 1], triggers, accepts);
      assert tokens[..|tokens| - 1][..n] == tokens[..n];
    }
  }

  // ---- Panics ----

  /** Reading a request panics exactly when no `>` stands between the last open tag and the first
      close tag behind it. */
  lemma ExtractPanics(actual: string, close: nat)
    requires Find(actual, CLOSE) == Some(close)
    ensures ExtractFrom(actual).SlicePanic? <==> '>' !in actual[..close]
    ensures !ExtractFrom(actual).NoHeader?
  {
    HasAtChar(actual, CLOSE, close, 9);
    forall j | close <= j < close + 9 ensures actual[j] != '>' {
      HasAtChar(actual, CLOSE, close, j - close);
    }
    assert actual[close + 9] == '>';
    var h := FindChar(actual, '>').value;
    forall i | close + 9 < i <= |actual| ensures '>' in actual[..i] {
      assert actual[..i][close + 9] == '>';
    }
    if h < close {
      assert actual[..close][h] == '>';
    } else {
      assert forall i :: 0 <= i < close ==> actual[..h][i] == actual[i];
    }
  }

  /** Cutting a front off keeps a text without close tags without close tags. */
  lemma NoCloseBehind(s: string, m: nat)
    requires m <= |s| && !Contains(s[m..], CLOSE)
    ensures !ExtractFrom(s[m..]).SlicePanic?
  {
  }

  /** The text between the last open tag and the close tag behind it holds no `>`. */
  predicate HeaderMissing(json: string) {
    match RFind(json, OPEN)
    case None => false
    case Some(m) =>
      match Find(json[m..], CLOSE)
      case None => false
      case Some(c) => '>' !in json[m..][..c]
  }

  lemma ExtractToolPanicsIff(json: string)
    ensures ExtractTool(json).SlicePanic? <==> HeaderMissing(json)
  {
    match RFind(json, OPEN)
    case None =>
    case Some(m) =>
      match Find(json[m..], CLOSE)
      case None => NoCloseBehind(json, m);
      case Some(c) => ExtractPanics(json[m..], c);
  }

  /** The capture that is left makes the look behind the stream panic. */
  predicate Broken(json: string) {
    OPEN <= json && '}' in json && HeaderMissing(json)
  }

  lemma FallbackPanicsIff(st: Interceptor)
    ensures AfterStream(st) == Crash <==> st.capture && Broken(st.json)
  {
    ExtractToolPanicsIff(st.json);
  }

  lemma HeaderNeedsClose(json: string)
    requires HeaderMissing(json)
    ensures Contains(json, CLOSE)
  {
    var m := RFind(json, OPEN).value;
    var c := Find(json[m..], CLOSE).value;
    assert json == json[..m] + json[m..];
    HasAtSuffix(json[..m], json[m..], CLOSE, c);
    ContainsAt(json, CLOSE, m + c);
  }

  /** A token that goes on with a capture leaves nothing that the look behind the stream could
      panic on: either the capture is still open, or its request has been read. */
  lemma CheckedIsSafe(st: Interceptor, token: string, triggers: seq<string>, accept: bool)
    requires st.capture && Intercept(st, token, triggers, accept) != Crash
    ensures AfterStream(Intercept(st, token, triggers, accept).st) != Crash
  {
    var next := Take(st, token, triggers, accept).0;
    var end := Intercept(st, token, triggers, accept).st;
    FallbackPanicsIff(end);
    if IsComplete(next.json) {
      FinishIsSafe(next, ExtractTool(next.json));
      ExtractToolPanicsIff(next.json);
    } else if HeaderMissing(next.json) {
      HeaderNeedsClose(next.json);
    }
  }

  lemma FinishIsSafe(st: Interceptor, request: Extraction)
    requires st.capture
    ensures match FinishTrigger(st, request)
            case Go(next) => !next.capture
            case Stop(next) => next.json == st.json && request.Request?
            case Crash => true
  {
  }

  /** The last of these tokens began a capture. */
  predicate BeganLast(tokens: seq<string>, triggers: seq<string>, accepts: nat -> bool)
    requires Reading(tokens, triggers, accepts) && InterceptAll(tokens, triggers, accepts) != Crash
  {
    && tokens != []
    && !InterceptAll(tokens[..|tokens| - 1], triggers, accepts).st.capture
    && InterceptAll(tokens, triggers, accepts).st.capture
  }

  /** For any triggers, tokens and answers: the look at the capture behind a stream that did not
      panic itself panics if and only if the last token received began the capture, and what it
      captured holds a `}` and a close tag without a `>` between its last open tag and that close
      tag. */
  lemma AfterStreamPanicsIff(tokens: seq<string>, triggers: seq<string>, accepts: nat -> bool)
    requires Reading(tokens, triggers, accepts) && InterceptAll(tokens, triggers, accepts) != Crash
    ensures AfterStream(InterceptAll(tokens, triggers, accepts).st) == Crash
            <==> BeganLast(tokens, triggers, accepts) && Broken(InterceptAll(tokens, triggers, accepts).st.json)
  {
    FallbackPanicsIff(InterceptAll(tokens, triggers, accepts).st);
    if tokens != [] {
      var n := |tokens| - 1;
      var before := InterceptAll(tokens[..n], triggers, accepts).st;
      if before.capture {
        CheckedIsSafe(before, tokens[n], triggers, accepts(n));
      }
    }
  }

  /** The stream does not panic, and ends on a token that begins a capture with a broken trigger. */
  predicate EndsBroken(tokens: seq<string>, triggers: seq<string>, accepts: nat -> bool) {
    var got := tokens[..Received(tokens, triggers, accepts)];
    && Reading(got, triggers, accepts) && InterceptAll(got, triggers, accepts) != Crash
    && BeganLast(got, triggers, accepts) && Broken(InterceptAll(got, triggers, accepts).st.json)
  }

  /** What a stream and the look behind it come to. */
  function Outcome(tokens: seq<string>, triggers: seq<string>, accepts: nat -> bool): Reply {
    match InterceptAll(tokens, triggers, accepts)
    case Crash => Crash
    case Go(st) => AfterStream(st)
    case Stop(st) => AfterStream(st)
  }

  /** The two panics together, for every stream. */
  lemma OutcomePanicsIff(tokens: seq<string>, triggers: seq<string>, accepts: nat -> bool)
    ensures Outcome(tokens, triggers, accepts) == Crash
            <==> InterceptAll(tokens, triggers, accepts) == Crash || EndsBroken(tokens, triggers, accepts)
  {
    ReceivedIsAll(tokens, triggers, accepts);
    if InterceptAll(tokens, triggers, accepts) != Crash {
      AfterStreamPanicsIff(tokens[..Received(tokens, triggers, accepts)], triggers, accepts);
    }
  }

  // ---- Conservation ----

  /** The token goes on with a capture that is then given back, because it is complete and no tool
      can be read from it. */
  predicate GivesBack(st: Interceptor, token: string) {
    var json := st.json + token;
    st.capture && IsComplete(json) && OPEN <= json && ExtractTool(json).NoHeader?
  }

  /** What is left in the buffer when a capture is given back: all that came in behind the token
      that began the capture. */
  function LeftOver(st: Interceptor, token: string): string {
    if GivesBack(st, token) then st.cache + token else ""
  }

  lemma InterceptFeeds(st: Interceptor, token: string, triggers: seq<string>, accept: bool)
    requires Clean(st) && Intercept(st, token, triggers, accept) != Crash
    ensures var next := Intercept(st, token, triggers, accept).st;
            && Clean(next)
            && TextOf(next.sent) + Held(next) == TextOf(st.sent) + Held(st) + token + LeftOver(st, token)
  {
    TakeConserves(st, token, triggers, accept);
    var (next, verdict) := Take(st, token, triggers, accept);
    if verdict == Captured {
      FinishFeeds(next);
    }
  }

  lemma FinishFeeds(st: Interceptor)
    requires st.capture && Finish(st) != Crash
    ensures var next := Finish(st).st;
            && Clean(next)
            && TextOf(next.sent) + Held(next) == TextOf(st.sent) + st.json + (if next.capture then "" else st.cache)
  {
    if IsComplete(st.json) {
      TriggerFeeds(st, ExtractTool(st.json));
      ScriptFeeds(st, Trim(st.json));
    }
    assert TextOf(st.sent) + st.json + "" == TextOf(st.sent) + st.json;
  }

  lemma ScriptFeeds(st: Interceptor, subject: string)
    ensures TextOf(st.sent + [Notice(subject)]) == TextOf(st.sent)
  {
    SayText(st.sent, subject);
  }

  lemma TriggerFeeds(st: Interceptor, request: Extraction)
    requires st.capture
    ensures FinishTrigger(st, request) != Crash ==>
              var next := FinishTrigger(st, request).st;
              && Clean(next)
              && TextOf(next.sent) + Held(next) == TextOf(st.sent) + st.json + (if next.capture then "" else st.cache)
  {
    SayText(st.sent, st.json);
    if request.Request? {
      SayText(st.sent, request.shownName);
    }
    assert TextOf(st.sent) + st.json + "" == TextOf(st.sent) + st.json;
  }

  predicate LateAt(tokens: seq<string>, triggers: seq<string>, accepts: nat -> bool, i: nat)
    requires i < |tokens|
  {
    var r := InterceptAll(tokens[..i], triggers, accepts);
    r.Go? && GivesBack(r.st, tokens[i]) && r.st.cache + tokens[i] != ""
  }

  /** Some token gives back a capture behind whose first token more text has come in. */
  predicate GivesBackLate(tokens: seq<string>, triggers: seq<string>, accepts: nat -> bool) {
    exists i: nat :: i < |tokens| && LateAt(tokens, triggers, accepts, i)
  }

  /** The text received, with everything inserted once more that stays in the buffer when a capture
      is given back. */
  function Fed(tokens: seq<string>, triggers: seq<string>, accepts: nat -> bool): string
    decreases |tokens|
  {
    if tokens == [] then ""
    else
      var n := |tokens| - 1;
      var r := InterceptAll(tokens[..n], triggers, accepts);
      Fed(tokens[..n], triggers, accepts) + tokens[n] + (if r.Go? then LeftOver(r.st, tokens[n]) else "")
  }

  /** For any triggers, tokens and answers, and beyond any number of captures: the text passed on
      and held is the text that was fed. */
  lemma {:induction false} PassesOnFed(tokens: seq<string>, triggers: seq<string>, accepts: nat -> bool)
    requires Reading(tokens, triggers, accepts) && InterceptAll(tokens, triggers, accepts) != Crash
    ensures var st := InterceptAll(tokens, triggers, accepts).st;
            Clean(st) && TextOf(st.sent) + Held(st) == Fed(tokens, triggers, accepts)
    decreases |tokens|
  {
    if tokens != [] {
      var n := |tokens| - 1;
      PassesOnFed(tokens[..n], triggers, accepts);
      FeedStep(InterceptAll(tokens[..n], triggers, accepts).st, tokens[n], triggers, accepts(n),
               Fed(tokens[..n], triggers, accepts));
    }
  }

  lemma FeedStep(st: Interceptor, token: string, triggers: seq<string>, accept: bool, fed: string)
    requires Clean(st) && TextOf(st.sent) + Held(st) == fed && Intercept(st, token, triggers, accept) != Crash
    ensures var next := Intercept(st, token, triggers, accept).st;
            Clean(next) && TextOf(next.sent) + Held(next) == fed + token + LeftOver(st, token)
  {
    InterceptFeeds(st, token, triggers, accept);
  }

  lemma {:induction false} FedIsReceivedIff(tokens: seq<string>, triggers: seq<string>, accepts: nat -> bool)
    ensures |Fed(tokens, triggers, accepts)| >= |Flatten(tokens)|
    ensures Fed(tokens, triggers, accepts) == Flatten(tokens) <==> !GivesBackLate(tokens, triggers, accepts)
    decreases |tokens|
  {
    if tokens != [] {
      var n := |tokens| - 1;
      var front := tokens[..n];
      var r := InterceptAll(front, triggers, accepts);
      FedIsReceivedIff(front, triggers, accepts);
      LateSplits(tokens, triggers, accepts);
      SameEnd(Fed(front, triggers, accepts), Flatten(front), tokens[n],
              if r.Go? then LeftOver(r.st, tokens[n]) else "");
    }
  }

  lemma LateSplits(tokens: seq<string>, triggers: seq<string>, accepts: nat -> bool)
    requires tokens != []
    ensures GivesBackLate(tokens, triggers, accepts)
            <==> GivesBackLate(tokens[..|tokens| - 1], triggers, accepts)
                 || LateAt(tokens, triggers, accepts, |tokens| - 1)
  {
    var n := |tokens| - 1;
    forall i: nat | i < n ensures LateAt(tokens[..n], triggers, accepts, i) == LateAt(tokens, triggers, accepts, i) {
      assert tokens[..n][..i] == tokens[..i];
    }
  }

  lemma SameEnd(a: string, b: string, token: string, extra: string)
    requires |a| >= |b|
    ensures a + token + extra == b + token <==> a == b && extra == ""
  {
    if a + token + extra == b + token {
      assert |extra| == 0;
      assert a == (a + token + extra)[..|a|] && b == (b + token)[..|b|];
    }
  }

  /** The exact condition for conservation over whole streams, beyond any number of captures: up to
      the token that ends the stream, what was passed on followed by what is held is the text
      received if and only if no token gave back a capture behind whose first token more text had
      come in. */
  lemma ConservationIff(tokens: seq<string>, triggers: seq<string>, accepts: nat -> bool)
    requires InterceptAll(tokens, triggers, accepts) != Crash
    ensures var st := InterceptAll(tokens, triggers, accepts).st;
            var got := tokens[..Received(tokens, triggers, accepts)];
            TextOf(st.sent) + Held(st) == Flatten(got) <==> !GivesBackLate(got, triggers, accepts)
  {
    ReceivedIsAll(tokens, triggers, accepts);
    var got := tokens[..Received(tokens, triggers, accepts)];
    PassesOnFed(got, triggers, accepts);
    FedIsReceivedIff(got, triggers, accepts);
  }
}
