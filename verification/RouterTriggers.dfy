/** What the interceptor shows when there are dynamic triggers: the trigger it looks for first is
    never shown, and every other tag can be. */
module RouterTriggers {
  import opened Text
  import opened TriggerScan
  import opened RouterInterceptor
  import opened RouterSearch

  /** The text that the interceptor looks for first. */
  function FirstTrigger(triggers: seq<string>): string {
    if triggers == [] then OPEN else BaseTrigger(triggers[0])
  }

  // ---- One token ----

  /** How much of a buffer is passed on, and why. */
  datatype Cut = Begin(at: nat) | Keep(at: nat) | PassAll

  function CutOf(triggers: seq<string>, buffer: string): Cut {
    match FullMatch(triggers, buffer)
    case Some(at) => Begin(at)
    case None =>
      match PartialMatch(triggers, buffer)
      case Some(at) => Keep(at)
      case None =>
        match Find(buffer, OPEN)
        case Some(at) => Begin(at)
        case None =>
          match PartialFrom(buffer, OPEN, 0)
          case Some(at) => Keep(at)
          case None => PassAll
  }

  function Length(cut: Cut, buffer: string): nat {
    if cut.PassAll? then |buffer| else cut.at
  }

  lemma TakeCuts(st: Interceptor, token: string, triggers: seq<string>, accept: bool)
    requires !st.capture
    ensures var buffer := st.cache + token;
            var cut := CutOf(triggers, buffer);
            var next := Take(st, token, triggers, accept).0;
            && Length(cut, buffer) <= |buffer|
            && TextOf(next.sent) == TextOf(st.sent) + buffer[..Length(cut, buffer)]
            && (cut.Begin? <==> next.capture)
            && (!next.capture ==> next.cache == buffer[Length(cut, buffer)..])
  {
    var buffer := st.cache + token;
    var cut := CutOf(triggers, buffer);
    match cut
    case Begin(at) => BeginText(st, buffer, at);
    case Keep(at) => SayText(st.sent, buffer[..at]);
    case PassAll =>
      SayText(st.sent, buffer);
      WholeText(buffer);
  }

  lemma BeginText(st: Interceptor, buffer: string, at: nat)
    requires at <= |buffer|
    ensures var next := StartCapture(st, buffer, at);
            TextOf(next.sent) == TextOf(SayNothing(next).sent) == TextOf(st.sent) + buffer[..at]
  {
    SayText(st.sent, buffer[..at]);
    NothingText(StartCapture(st, buffer, at));
  }

  lemma WholeText(s: string)
    ensures s[..|s|] == s && s[|s|..] == ""
  {
  }

  /** When the open tag has come in, the token shows it exactly when the cut lies behind it:
      behind it is where a dynamic trigger was found, or could be starting. */
  lemma TagShownIff(st: Interceptor, token: string, triggers: seq<string>, accept: bool, tag: nat)
    requires !st.capture && Find(st.cache + token, OPEN) == Some(tag)
    ensures var buffer := st.cache + token;
            var cut := Length(CutOf(triggers, buffer), buffer);
            && cut <= |buffer|
            && TextOf(Take(st, token, triggers, accept).0.sent) == TextOf(st.sent) + buffer[..cut]
            && (Contains(buffer[..cut], OPEN) <==> tag + |OPEN| <= cut)
  {
    var buffer := st.cache + token;
    var cut := Length(CutOf(triggers, buffer), buffer);
    TakeCuts(st, token, triggers, accept);
    TagInBuffer(buffer, tag, cut);
  }

  lemma TagInBuffer(buffer: string, tag: nat, cut: nat)
    requires Find(buffer, OPEN) == Some(tag) && cut <= |buffer|
    ensures Contains(buffer[..cut], OPEN) <==> tag + |OPEN| <= cut
  {
    assert buffer == buffer[..cut] + buffer[cut..];
    forall j: nat | j + |OPEN| <= cut ensures HasAt(buffer[..cut], OPEN, j) <==> HasAt(buffer, OPEN, j) {
      HasAtPrefix(buffer[..cut], buffer[cut..], OPEN, j);
    }
    if tag + |OPEN| <= cut {
      ContainsAt(buffer[..cut], OPEN, tag);
    }
  }

  /** The cut never lies behind the first trigger, and a cut without a capture keeps everything
      that could be its start. */
  lemma CutRespectsFirst(triggers: seq<string>, buffer: string)
    ensures var cut, p := CutOf(triggers, buffer), FirstTrigger(triggers);
            && Length(cut, buffer) <= |buffer|
            && (Find(buffer, p).Some? ==> cut.Begin? && cut.at <= Find(buffer, p).value)
            && (!cut.Begin? ==> forall i :: 0 <= i < Length(cut, buffer) ==> !(buffer[i..] <= p))
  {
  }

  // ---- Runs ----

  /** The first trigger has not been shown, and nothing shown could be the start of it. */
  ghost predicate Guarded(st: Interceptor, p: string) {
    !Contains(TextOf(st.sent), p) && (!st.capture ==> Safe(TextOf(st.sent), st.cache, p))
  }

  lemma TakeGuards(st: Interceptor, token: string, triggers: seq<string>, accept: bool)
    requires FirstTrigger(triggers) != "" && Guarded(st, FirstTrigger(triggers))
    ensures Guarded(Take(st, token, triggers, accept).0, FirstTrigger(triggers))
  {
    if !st.capture {
      var p, buffer := FirstTrigger(triggers), st.cache + token;
      var cut := CutOf(triggers, buffer);
      TakeCuts(st, token, triggers, accept);
      CutRespectsFirst(triggers, buffer);
      FrontHasNone(TextOf(st.sent), st.cache, token, Length(cut, buffer), p);
      if !cut.Begin? {
        HoldSafe(TextOf(st.sent), st.cache, token, Length(cut, buffer), p);
      }
    }
  }

  /** Whatever the tokens and the caller's answers: the first trigger is never shown, not even
      across tokens; when it is empty nothing is shown at all. */
  lemma {:induction false} FirstTriggerKeptOut(tokens: seq<string>, triggers: seq<string>, accepts: nat -> bool)
    ensures var st, p := RunOf(tokens, triggers, accepts).st, FirstTrigger(triggers);
            if p == "" then TextOf(st.sent) == "" else Guarded(st, p)
    decreases |tokens|
  {
    if tokens != [] {
      var n := |tokens| - 1;
      FirstTriggerKeptOut(tokens[..n], triggers, accepts);
      var r := RunOf(tokens[..n], triggers, accepts);
      if r.Streaming? {
        TakeKeepsOut(r.st, tokens[n], triggers, accepts(n));
      }
    }
  }

  lemma TakeKeepsOut(st: Interceptor, token: string, triggers: seq<string>, accept: bool)
    requires var p := FirstTrigger(triggers); if p == "" then TextOf(st.sent) == "" else Guarded(st, p)
    ensures var next, p := Take(st, token, triggers, accept).0, FirstTrigger(triggers);
            if p == "" then TextOf(next.sent) == "" else Guarded(next, p)
  {
    if FirstTrigger(triggers) != "" {
      TakeGuards(st, token, triggers, accept);
    } else if !st.capture {
      TakeCuts(st, token, triggers, accept);
      CutRespectsFirst(triggers, st.cache + token);
      EmptyIsEverywhere(st.cache + token);
    }
  }

  lemma EmptyIsEverywhere(s: string)
    ensures Find(s, "") == Some(0)
  {
    assert HasAt(s, "", 0);
  }

  // ---- When the open tag can be shown ----

  /** The text passed on up to the first completed capture contains an open tag. */
  predicate ShowsTag(tokens: seq<string>, triggers: seq<string>, accepts: nat -> bool) {
    Contains(TextOf(RunOf(tokens, triggers, accepts).st.sent), OPEN)
  }

  /** Among more characters than a text has, one does not occur in it. */
  lemma {:induction false} SpareChar(s: string, candidates: set<char>) returns (c: char)
    requires |candidates| > |s|
    ensures c in candidates && c !in s
    decreases |s|
  {
    if s == "" {
      c :| c in candidates;
    } else {
      c := SpareChar(s[1..], candidates - {s[0]});
      assert s == [s[0]] + s[1..];
    }
  }

  lemma SpareDigit(s: string) returns (c: char)
    requires |s| <= 10
    ensures c !in s
  {
    c := SpareChar(s, {'0', '1', '2', '3', '4', '5', '6', '7', '8', '9', 'a'});
  }

  function Start(s: string, n: nat): string {
    if |s| <= n then s else s[..n]
  }

  lemma NotBefore(base: string, c: char, j: nat)
    requires base != "" && !Contains(OPEN, base) && c !in Start(base, 10) && j < 10
    ensures !HasAt(OPEN + [c] + base, base, j)
  {
    var token := OPEN + [c] + base;
    if j + |base| <= 9 {
      assert token == OPEN + ([c] + base);
      HasAtPrefix(OPEN, [c] + base, base, j);
    } else {
      assert token[9] == c && base[9 - j] == Start(base, 10)[9 - j];
      HasAtChar(token, base, j, 9 - j);
    }
  }

  /** A first trigger that is not part of the open tag lets a token show the tag. */
  lemma TagIsShown(triggers: seq<string>) returns (token: string)
    requires triggers != [] && !Contains(OPEN, BaseTrigger(triggers[0]))
    ensures ShowsTag([token], triggers, ALWAYS)
  {
    var base := BaseTrigger(triggers[0]);
    EmptyIsEverywhere(OPEN);
    var c := SpareDigit(Start(base, 10));
    token := OPEN + [c] + base;
    FoundBehind(base, c);
    ShownInFront(token, triggers, 10);
    TagAndMore(c, base);
  }

  lemma FoundBehind(base: string, c: char)
    requires base != "" && !Contains(OPEN, base) && c !in Start(base, 10)
    ensures Find(OPEN + [c] + base, base) == Some(10)
  {
    var token := OPEN + [c] + base;
    forall j: nat | j < 10 ensures !HasAt(token, base, j) {
      NotBefore(base, c, j);
    }
    assert token[10..10 + |base|] == base;
    FindIs(token, base, 10);
  }

  lemma TagAndMore(c: char, base: string)
    ensures Contains((OPEN + [c] + base)[..10], OPEN)
  {
    assert (OPEN + [c] + base)[..10] == OPEN + [c];
    assert (OPEN + [c])[0..|OPEN|] == OPEN;
    ContainsAt(OPEN + [c], OPEN, 0);
  }

  lemma ShownInFront(token: string, triggers: seq<string>, at: nat)
    requires FullMatch(triggers, token) == Some(at)
    ensures TextOf(RunOf([token], triggers, ALWAYS).st.sent) == token[..at]
  {
    var none: seq<string> := [];
    assert [token][..0] == none && RunOf(none, triggers, ALWAYS) == Streaming(FRESH);
    TakeCuts(FRESH, token, triggers, true);
    assert FRESH.cache + token == token;
    assert TextOf(FRESH.sent) + token[..at] == token[..at];
  }

  /** The exact condition: no run shows an open tag, whatever the tokens and the caller's answers,
      if and only if there are no dynamic triggers or the first one is part of the open tag. */
  lemma NoTagShownIff(triggers: seq<string>)
    ensures (forall tokens: seq<string>, accepts: nat -> bool :: !ShowsTag(tokens, triggers, accepts))
            <==> triggers == [] || Contains(OPEN, BaseTrigger(triggers[0]))
  {
    if triggers == [] || Contains(OPEN, BaseTrigger(triggers[0])) {
      forall tokens: seq<string>, accepts: nat -> bool
        ensures !ShowsTag(tokens, triggers, accepts)
      {
        NoTagShown(tokens, triggers, accepts);
      }
    } else {
      var token := TagIsShown(triggers);
      assert ShowsTag([token], triggers, ALWAYS);
    }
  }

  lemma NoTagShown(tokens: seq<string>, triggers: seq<string>, accepts: nat -> bool)
    requires triggers == [] || Contains(OPEN, BaseTrigger(triggers[0]))
    ensures !ShowsTag(tokens, triggers, accepts)
  {
    var text, p := TextOf(RunOf(tokens, triggers, accepts).st.sent), FirstTrigger(triggers);
    FirstTriggerKeptOut(tokens, triggers, accepts);
    ContainsItself(OPEN);
    if p != "" && Contains(text, OPEN) {
      ContainsTransitive(text, OPEN, p);
    }
  }

  lemma ContainsItself(s: string)
    ensures Contains(s, s)
  {
    ContainsAt(s, s, 0);
  }
}
