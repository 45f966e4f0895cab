/** Without dynamic triggers, the router's interceptor finds exactly what a search of the whole
    text finds, however the text is cut into tokens. */
module RouterSearch {
  import opened Text
  import opened TriggerScan
  import opened RouterInterceptor

  const ALWAYS: nat -> bool := (i: nat) => true

  /** The state that belongs to the text read so far. */
  ghost predicate Tracks(st: Interceptor, all: string) {
    var text := TextOf(st.sent);
    && Clean(st)
    && all == text + Held(st)
    && (st.capture ==> Find(all, OPEN) == Some(|text|))
    && (!st.capture ==> Safe(text, st.cache, OPEN) && st.cache <= OPEN)
  }

  lemma CaptureTracks(st: Interceptor, token: string, all: string, at: nat)
    requires Tracks(st, all) && !st.capture && Find(st.cache + token, OPEN) == Some(at)
    ensures Tracks(SayNothing(StartCapture(st, st.cache + token, at)), all + token)
  {
    var buffer := st.cache + token;
    SayText(st.sent, buffer[..at]);
    assert st.json + buffer[at..] == buffer[at..];
    CaptureStart(TextOf(st.sent), st.cache, token, at);
    CutAt(TextOf(st.sent), st.cache, token, at);
    NothingText(StartCapture(st, buffer, at));
  }

  lemma CaptureStart(text: string, cache: string, token: string, at: nat)
    requires Safe(text, cache, OPEN) && Find(cache + token, OPEN) == Some(at)
    ensures Find(text + cache + token, OPEN) == Some(|text + (cache + token)[..at]|)
  {
    WindowFind(text, cache, token, OPEN);
  }

  lemma CutAt(text: string, cache: string, token: string, at: nat)
    requires at <= |cache + token|
    ensures text + cache + token == text + (cache + token)[..at] + (cache + token)[at..]
  {
  }

  lemma HoldTracks(st: Interceptor, token: string, all: string, at: nat)
    requires Tracks(st, all) && !st.capture && Find(st.cache + token, OPEN).None?
    requires PartialFrom(st.cache + token, OPEN, 0) == Some(at)
    ensures Tracks(Hold(st, st.cache + token, at), all + token)
  {
    SayText(st.sent, (st.cache + token)[..at]);
    HoldSafe(TextOf(st.sent), st.cache, token, at, OPEN);
    CutAt(TextOf(st.sent), st.cache, token, at);
  }

  lemma FlushTracks(st: Interceptor, token: string, all: string)
    requires Tracks(st, all) && !st.capture && Find(st.cache + token, OPEN).None?
    requires PartialFrom(st.cache + token, OPEN, 0).None?
    ensures Tracks(st.(cache := "", sent := st.sent + [ModelText(st.cache + token)]), all + token)
  {
    var buffer := st.cache + token;
    SayText(st.sent, buffer);
    HoldSafe(TextOf(st.sent), st.cache, token, |buffer|, OPEN);
    CutAt(TextOf(st.sent), st.cache, token, |buffer|);
    assert buffer[..|buffer|] == buffer && buffer[|buffer|..] == "";
  }

  lemma TakeTracks(st: Interceptor, token: string, all: string)
    requires Tracks(st, all)
    ensures var (next, verdict) := Take(st, token, [], true);
            Tracks(next, all + token) && verdict != Refused && (verdict == Captured <==> st.capture)
  {
    var buffer := st.cache + token;
    if st.capture {
      FindGrows(all, token, OPEN);
      assert all + token == TextOf(st.sent) + (st.json + token);
    } else {
      match Find(buffer, OPEN)
      case Some(at) => CaptureTracks(st, token, all, at);
      case None =>
        match PartialFrom(buffer, OPEN, 0)
        case Some(at) => HoldTracks(st, token, all, at);
        case None => FlushTracks(st, token, all);
    }
  }

  /** Of the text in front of the last token: the open tag was complete already. */
  predicate TagInFront(tokens: seq<string>) {
    tokens != [] && Contains(Flatten(tokens[..|tokens| - 1]), OPEN)
  }

  /** A token has come in behind the one that completed the first open tag. */
  predicate Behind(tokens: seq<string>) {
    |tokens| > TokensBefore(tokens, OPEN) + 1
  }

  lemma BehindIff(tokens: seq<string>)
    ensures Behind(tokens) <==> TagInFront(tokens)
  {
    if TagInFront(tokens) {
      FlattenPrefix(tokens, |tokens| - 1);
      FindInPrefix(Flatten(tokens[..|tokens| - 1]), Flatten(tokens), OPEN);
      TokensBeforeIs(tokens[..|tokens| - 1], OPEN, TokensBefore(tokens[..|tokens| - 1], OPEN));
      WholeFront(tokens[..|tokens| - 1]);
    } else if tokens != [] && Contains(Flatten(tokens), OPEN) {
      TokensBeforeIs(tokens, OPEN, |tokens| - 1);
      WholeFront(tokens);
    }
  }

  lemma WholeFront(tokens: seq<string>)
    ensures tokens[..|tokens|] == tokens
  {
  }

  lemma TrackedCapture(st: Interceptor, all: string)
    requires Tracks(st, all)
    ensures st.capture <==> Contains(all, OPEN)
  {
  }

  lemma {:induction false} RunTracks(tokens: seq<string>)
    ensures var r := RunOf(tokens, [], ALWAYS);
            && !r.Turned?
            && Tracks(r.st, Consumed(r, tokens))
            && (r.Closed? ==> IsComplete(r.st.json) && TagInFront(tokens[..r.used]))
            && (r.Streaming? && TagInFront(tokens) ==> !IsComplete(r.st.json))
    decreases |tokens|
  {
    if tokens == [] {
      assert "" + "" == "";
    } else {
      var n := |tokens| - 1;
      var front := tokens[..n];
      RunTracks(front);
      var r := RunOf(front, [], ALWAYS);
      if r.Streaming? {
        RunAfterTracks(r.st, tokens);
      } else {
        assert front[..r.used] == tokens[..r.used];
      }
    }
  }

  lemma RunAfterTracks(st: Interceptor, tokens: seq<string>)
    requires tokens != [] && Tracks(st, Flatten(tokens[..|tokens| - 1]))
    ensures var n := |tokens|;
            var r := RunAfter(Take(st, tokens[n - 1], [], true), n);
            && !r.Turned?
            && Tracks(r.st, Consumed(r, tokens))
            && (r.Closed? ==> IsComplete(r.st.json) && TagInFront(tokens[..r.used]))
            && (r.Streaming? && TagInFront(tokens) ==> !IsComplete(r.st.json))
  {
    var n := |tokens|;
    TakeTracks(st, tokens[n - 1], Flatten(tokens[..n - 1]));
    TrackedCapture(st, Flatten(tokens[..n - 1]));
    ConsumedAll(RunAfter(Take(st, tokens[n - 1], [], true), n), tokens);
    WholeFront(tokens);
  }

  lemma CapturedText(st: Interceptor, all: string)
    requires Tracks(st, all) && st.capture
    ensures OPEN <= st.json && st.json == all[|TextOf(st.sent)|..]
    ensures IsComplete(st.json) <==> Contains(st.json, CLOSE)
  {
    var k := |TextOf(st.sent)|;
    assert all[k..k + |OPEN|] == OPEN;
    assert st.json == all[k..];
    assert st.json[..|OPEN|] == all[k..k + |OPEN|];
  }

  /** What a reader who has the whole text sees. */
  datatype View =
    | Passing(shown: string, held: string)
    | Capturing(before: string, trigger: string)
    | Complete(prefix: string)

  /** The longest suffix of `all`, from `i` on, that could be the start of an open tag. */
  function LongestStart(all: string, i: nat): (k: nat)
    requires i <= |all|
    ensures i <= k <= |all| && all[k..] <= OPEN
    ensures forall j :: i <= j < k ==> !(all[j..] <= OPEN)
    decreases |all| - i
  {
    if all[i..] <= OPEN then i else LongestStart(all, i + 1)
  }

  /** The view of a text; `behind` says whether a token has come in behind the open tag. */
  function ViewOf(all: string, behind: bool): View {
    match Find(all, OPEN)
    case None =>
      var k := LongestStart(all, 0);
      Passing(all[..k], all[k..])
    case Some(k) =>
      if behind && Contains(all[k..], CLOSE) then Complete(all[..k]) else Capturing(all[..k], all[k..])
  }

  function ViewRun(r: Run): View
    requires !r.Turned?
  {
    var text := TextOf(r.st.sent);
    if r.Closed? then Complete(text)
    else if r.st.capture then Capturing(text, r.st.json)
    else Passing(text, r.st.cache)
  }

  lemma PassingView(st: Interceptor, all: string)
    requires Tracks(st, all) && !st.capture
    ensures ViewOf(all, false) == ViewOf(all, true) == Passing(TextOf(st.sent), st.cache)
  {
    var text := TextOf(st.sent);
    var k := LongestStart(all, 0);
    assert all[|text|..] == st.cache && all[..|text|] == text;
    forall i | 0 <= i < |text| ensures !(all[i..] <= OPEN) {
      assert all[i..] == text[i..] + st.cache;
    }
    assert k == |text|;
  }

  /** The interceptor refines whole-text search: what it shows, holds and captures is a function
      of the text. Before a trigger it holds back exactly the longest suffix that could still
      become an open tag; from the first open tag on it captures; the capture completes exactly
      when a close tag follows and a token has come in behind the one that completed the open tag,
      because that one is not checked. */
  lemma InterceptorIsSearch(tokens: seq<string>)
    ensures var r := RunOf(tokens, [], ALWAYS);
            !r.Turned? && ViewRun(r) == ViewOf(Flatten(tokens), Behind(tokens))
  {
    RunTracks(tokens);
    BehindIff(tokens);
    var r := RunOf(tokens, [], ALWAYS);
    if r.Closed? {
      FlattenPrefix(tokens, r.used);
      ClosedIsBehind(tokens, r.used);
      TrackedInFront(r.st, tokens, r.used);
      CompleteView(r.st, Consumed(r, tokens), Flatten(tokens));
    } else if r.st.capture {
      CapturingView(r.st, Flatten(tokens), Behind(tokens));
    } else {
      PassingView(r.st, Flatten(tokens));
    }
  }

  lemma ClosedIsBehind(tokens: seq<string>, used: nat)
    requires used <= |tokens| && TagInFront(tokens[..used])
    ensures TagInFront(tokens)
  {
    assert tokens[..used][..used - 1] == tokens[..|tokens| - 1][..used - 1];
    FlattenPrefix(tokens[..|tokens| - 1], used - 1);
    FindInPrefix(Flatten(tokens[..used][..used - 1]), Flatten(tokens[..|tokens| - 1]), OPEN);
  }

  lemma TrackedInFront(st: Interceptor, tokens: seq<string>, used: nat)
    requires used <= |tokens| && TagInFront(tokens[..used]) && Tracks(st, Flatten(tokens[..used]))
    ensures st.capture
  {
    FlattenPrefix(tokens[..used], used - 1);
    FindInPrefix(Flatten(tokens[..used][..used - 1]), Flatten(tokens[..used]), OPEN);
    TrackedCapture(st, Flatten(tokens[..used]));
  }

  lemma CapturingView(st: Interceptor, all: string, behind: bool)
    requires Tracks(st, all) && st.capture && (behind ==> !IsComplete(st.json))
    ensures ViewOf(all, behind) == Capturing(TextOf(st.sent), st.json)
  {
    CapturedText(st, all);
    assert all[..|TextOf(st.sent)|] == TextOf(st.sent);
  }

  lemma CompleteView(st: Interceptor, seen: string, all: string)
    requires Tracks(st, seen) && st.capture && IsComplete(st.json) && seen <= all
    ensures ViewOf(all, true) == Complete(TextOf(st.sent))
  {
    CapturedText(st, seen);
    var k := |TextOf(st.sent)|;
    FindInPrefix(seen, all, OPEN);
    assert seen == all[..|seen|];
    FindInPrefix(st.json, all[k..], CLOSE);
    assert all[..k] == TextOf(st.sent);
  }

  /** The first open tag of the text is followed by a close tag. */
  predicate HasTrigger(all: string) {
    Contains(all, OPEN) && Contains(all[Find(all, OPEN).value..], CLOSE)
  }

  /** Two ways of cutting the same text always show the same text and capture from the same place. */
  lemma ShownIndependent(a: seq<string>, b: seq<string>)
    requires Flatten(a) == Flatten(b)
    ensures var ra, rb := RunOf(a, [], ALWAYS), RunOf(b, [], ALWAYS);
            && TextOf(ra.st.sent) == TextOf(rb.st.sent)
            && ra.st.capture == rb.st.capture
            && (ra.Streaming? && rb.Streaming? ==> Held(ra.st) == Held(rb.st))
  {
    InterceptorIsSearch(a);
    InterceptorIsSearch(b);
    RunCaptures(a);
    RunCaptures(b);
  }

  lemma RunCaptures(tokens: seq<string>)
    ensures RunOf(tokens, [], ALWAYS).st.capture <==> Contains(Flatten(tokens), OPEN)
  {
    RunTracks(tokens);
    var r := RunOf(tokens, [], ALWAYS);
    if r.Closed? {
      FlattenPrefix(tokens, r.used);
      TrackedInFront(r.st, tokens, r.used);
      FindInPrefix(Consumed(r, tokens), Flatten(tokens), OPEN);
    } else {
      TrackedCapture(r.st, Flatten(tokens));
    }
  }

  /** They also agree on whether the capture is complete if and only if the text has no closed
      trigger or a token comes in behind the open tag in both or in neither. */
  lemma CuttingsAgreeIff(a: seq<string>, b: seq<string>)
    requires Flatten(a) == Flatten(b)
    ensures !RunOf(a, [], ALWAYS).Turned? && !RunOf(b, [], ALWAYS).Turned?
    ensures ViewRun(RunOf(a, [], ALWAYS)) == ViewRun(RunOf(b, [], ALWAYS))
            <==> !HasTrigger(Flatten(a)) || (Behind(a) <==> Behind(b))
  {
    InterceptorIsSearch(a);
    InterceptorIsSearch(b);
  }
}
