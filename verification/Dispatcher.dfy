/** The dispatcher's stream callback: it forwards tokens until a trigger starts, and delivers the
    trigger as one message. Before a trigger it keeps the last 100 characters. */
module Dispatcher {
  import opened Text
  import opened TriggerScan

  const WINDOW := 100

  datatype Dispatch = Dispatch(buffer: string, cancelled: bool, sent: seq<string>)

  datatype Reply = Go(d: Dispatch) | Stop(d: Dispatch) | Crash

  function LastOf(s: string): string {
    if |s| > WINDOW then s[|s| - WINDOW..] else s
  }

  /** `buffer[start..end + 10]`, which panics when the range is inverted. */
  function Deliver(d: Dispatch, buffer: string, start: nat, end: nat): Reply
    requires start <= |buffer| && end + |CLOSE| <= |buffer|
  {
    if end + |CLOSE| < start then Crash
    else Stop(Dispatch(buffer, true, d.sent + [buffer[start..end + |CLOSE|]]))
  }

  /** One token; `accept` says whether the channel takes a forwarded token. */
  function Receive(d: Dispatch, token: string, accept: bool): Reply {
    if d.cancelled then Stop(d)
    else
      var buffer := d.buffer + token;
      match Find(buffer, OPEN)
      case Some(start) =>
        (match Find(buffer, CLOSE)
         case Some(end) => Deliver(d, buffer, start, end)
         case None => Go(d.(buffer := buffer)))
      case None =>
        var next := Dispatch(LastOf(buffer), false, d.sent + [token]);
        if accept then Go(next) else Stop(next)
  }

  /** The final look at the buffer when generation has ended. */
  function Conclude(d: Dispatch): Reply {
    if d.cancelled then Stop(d)
    else
      match Find(d.buffer, OPEN)
      case None => Stop(d)
      case Some(start) =>
        match Find(d.buffer, CLOSE)
        case Some(end) => if end + |CLOSE| < start then Crash
                          else Stop(d.(sent := d.sent + [d.buffer[start..end + |CLOSE|]]))
        case None => Stop(d.(sent := d.sent + [d.buffer[start..]]))
  }

  /** The tokens in order until one stops the stream, with a channel that accepts. */
  function Feed(tokens: seq<string>): Reply
    decreases |tokens|
  {
    if tokens == [] then Go(Dispatch("", false, []))
    else
      var n := |tokens| - 1;
      match Feed(tokens[..n])
      case Go(d) => Receive(d, tokens[n], true)
      case other => other
  }

  /** Everything a request sends to the client for these tokens. */
  function Request(tokens: seq<string>): Reply {
    match Feed(tokens)
    case Go(d) => Conclude(d)
    case Stop(d) => Conclude(d)
    case Crash => Crash
  }

  // ---- Before the first open tag ----

  function GoneOf(s: string): string {
    if |s| > WINDOW then s[..|s| - WINDOW] else ""
  }

  lemma WindowSplits(s: string)
    ensures s == GoneOf(s) + LastOf(s)
  {
  }

  lemma WindowSafe(s: string)
    requires !Contains(s, OPEN)
    ensures Safe(GoneOf(s), LastOf(s), OPEN)
  {
    WindowSplits(s);
    if |s| > WINDOW {
      LongWindowCovers(GoneOf(s), LastOf(s), OPEN);
    }
  }

  lemma LastOfExtended(s: string, token: string)
    ensures LastOf(LastOf(s) + token) == LastOf(s + token)
  {
    if |s| > WINDOW {
      WindowSplits(s);
      assert s + token == GoneOf(s) + (LastOf(s) + token);
      LastOfTail(GoneOf(s), LastOf(s) + token);
    }
  }

  lemma LastOfTail(gone: string, x: string)
    requires |x| >= WINDOW
    ensures LastOf(gone + x) == LastOf(x)
  {
  }

  lemma NoTagYet(tokens: seq<string>)
    requires tokens != [] && !Contains(Flatten(tokens), OPEN)
    ensures !Contains(Flatten(tokens[..|tokens| - 1]), OPEN)
  {
    NotInPrefix(Flatten(tokens[..|tokens| - 1]), Flatten(tokens), OPEN);
  }

  lemma {:induction false} ForwardsAll(tokens: seq<string>)
    requires !Contains(Flatten(tokens), OPEN)
    ensures Feed(tokens) == Go(Dispatch(LastOf(Flatten(tokens)), false, tokens))
    decreases |tokens|
  {
    if tokens != [] {
      var n := |tokens| - 1;
      var front := tokens[..n];
      NoTagYet(tokens);
      ForwardsAll(front);
      ForwardStep(front, Flatten(front), tokens[n], true);
      assert tokens == front + [tokens[n]];
    }
  }

  lemma ForwardStep(front: seq<string>, seen: string, token: string, accept: bool)
    requires !Contains(seen, OPEN) && !Contains(seen + token, OPEN)
    ensures var next := Dispatch(LastOf(seen + token), false, front + [token]);
            Receive(Dispatch(LastOf(seen), false, front), token, accept) == if accept then Go(next) else Stop(next)
  {
    WindowSafe(seen);
    WindowSplits(seen);
    WindowFind(GoneOf(seen), LastOf(seen), token, OPEN);
    LastOfExtended(seen, token);
  }

  // ---- From the first open tag on ----

  /** The text from the first open tag through the first close tag behind it, or to the end. */
  function TriggerOf(all: string): string
    requires Contains(all, OPEN)
  {
    var rest := all[Find(all, OPEN).value..];
    match Find(rest, CLOSE)
    case None => rest
    case Some(c) => rest[..c + |CLOSE|]
  }

  /** A close tag that starts before an open tag also ends before it. */
  lemma NoStraddle(s: string, start: nat, e: nat)
    requires HasAt(s, OPEN, start) && HasAt(s, CLOSE, e) && e < start
    ensures e + |CLOSE| <= start
  {
    HasAtChar(s, OPEN, start, 0);
    forall i | e < i < e + |CLOSE| ensures s[i] != '<' {
      HasAtChar(s, CLOSE, e, i - e);
    }
  }

  /** Without a close tag in front of the open tag, the first close tag is the one behind it. */
  lemma CloseBehind(s: string, start: nat)
    requires HasAt(s, OPEN, start) && !Contains(s[..start], CLOSE)
    ensures Find(s, CLOSE) == match Find(s[start..], CLOSE) case None => None case Some(c) => Some(start + c)
  {
    assert s == s[..start] + s[start..];
    forall j: nat | j < start ensures !HasAt(s, CLOSE, j) {
      if j + |CLOSE| <= start {
        HasAtPrefix(s[..start], s[start..], CLOSE, j);
      } else if HasAt(s, CLOSE, j) {
        NoStraddle(s, start, j);
      }
    }
    forall j: nat ensures HasAt(s, CLOSE, start + j) <==> HasAt(s[start..], CLOSE, j) {
      HasAtSuffix(s[..start], s[start..], CLOSE, j);
    }
    var c := Find(s[start..], CLOSE);
    forall j: nat | j >= start ensures HasAt(s, CLOSE, j) <==> HasAt(s[start..], CLOSE, j - start) {
      assert HasAt(s, CLOSE, start + (j - start)) <==> HasAt(s[start..], CLOSE, j - start);
    }
    if c.Some? {
      FindIs(s, CLOSE, start + c.value);
    }
  }

  /** The part of the text in front of the first open tag that is still in the window when the
      token that completes the tag arrives. */
  function InWindow(tokens: seq<string>): string
    requires Contains(Flatten(tokens), OPEN)
  {
    var seen := |Flatten(tokens[..TokensBefore(tokens, OPEN)])|;
    var gone := if seen > 100 then seen - 100 else 0;
    var at := Find(Flatten(tokens), OPEN).value;
    if gone <= at then Flatten(tokens)[gone..at] else ""
  }

  /** The buffer once the open tag is in it. */
  ghost predicate Holds(gone: string, buffer: string, all: string, start: nat) {
    all == gone + buffer && Find(buffer, OPEN) == Some(start) && Find(all, OPEN) == Some(|gone| + start)
  }

  lemma HoldsTrigger(gone: string, buffer: string, all: string, start: nat)
    requires Holds(gone, buffer, all, start) && !Contains(buffer[..start], CLOSE)
    ensures Contains(all, OPEN)
    ensures var c := Find(buffer, CLOSE);
            && (c.Some? <==> Contains(all[Find(all, OPEN).value..], CLOSE))
            && (c.Some? ==> start <= c.value && buffer[start..c.value + |CLOSE|] == TriggerOf(all))
            && (c.None? ==> buffer[start..] == TriggerOf(all))
  {
    SameTail(gone, buffer, all, start);
    TailTrigger(all, |gone| + start, buffer[start..]);
    CloseInTail(buffer, start, buffer[start..]);
  }

  lemma CloseInTail(buffer: string, start: nat, rest: string)
    requires HasAt(buffer, OPEN, start) && !Contains(buffer[..start], CLOSE) && rest == buffer[start..]
    ensures match Find(buffer, CLOSE)
            case None => Find(rest, CLOSE).None?
            case Some(c) => start <= c && Find(rest, CLOSE) == Some(c - start)
                            && buffer[start..c + |CLOSE|] == rest[..c - start + |CLOSE|]
  {
    CloseBehind(buffer, start);
    var c := Find(rest, CLOSE);
    if c.Some? {
      SliceOfTail(buffer, start, c.value + |CLOSE|);
    }
  }

  lemma TailTrigger(all: string, at: nat, rest: string)
    requires Find(all, OPEN) == Some(at) && all[at..] == rest
    ensures TriggerOf(all) == match Find(rest, CLOSE) case None => rest case Some(c) => rest[..c + |CLOSE|]
  {
  }

  lemma SameTail(gone: string, buffer: string, all: string, start: nat)
    requires all == gone + buffer && start <= |buffer|
    ensures all[|gone| + start..] == buffer[start..]
  {
  }

  lemma SliceOfTail(s: string, start: nat, n: nat)
    requires start + n <= |s|
    ensures s[start..][..n] == s[start..start + n]
  {
  }

  lemma HoldsGrows(gone: string, buffer: string, all: string, start: nat, token: string)
    requires Holds(gone, buffer, all, start)
    ensures Holds(gone, buffer + token, all + token, start)
    ensures (buffer + token)[..start] == buffer[..start]
  {
    FindGrows(buffer, token, OPEN);
    FindGrows(all, token, OPEN);
    assert all + token == gone + (buffer + token);
  }

  /** The state when the tag-completing token has been taken in. */
  lemma TagArrives(front: string, token: string)
    requires !Contains(front, OPEN) && Contains(front + token, OPEN)
    ensures var buffer := LastOf(front) + token;
            && Contains(buffer, OPEN)
            && Holds(GoneOf(front), buffer, front + token, Find(buffer, OPEN).value)
  {
    WindowSafe(front);
    WindowSplits(front);
    WindowFind(GoneOf(front), LastOf(front), token, OPEN);
    assert front + token == GoneOf(front) + (LastOf(front) + token);
  }

  /** What `Feed` has done with tokens that contain an open tag, for a trigger in good order. */
  ghost predicate Caught(tokens: seq<string>, gone: string, k: nat) {
    var all := Flatten(tokens);
    && k <= |tokens|
    && match Feed(tokens)
       case Go(d) =>
         && !d.cancelled && d.sent == tokens[..k]
         && Find(d.buffer, CLOSE).None?
         && exists start: nat {:trigger Holds(gone, d.buffer, all, start)} ::
              Holds(gone, d.buffer, all, start) && !Contains(d.buffer[..start], CLOSE)
       case Stop(d) => d.cancelled && Contains(all, OPEN) && d.sent == tokens[..k] + [TriggerOf(all)]
                       && Contains(all[Find(all, OPEN).value..], CLOSE)
       case Crash => false
  }

  lemma TriggerGrows(all: string, token: string)
    requires Contains(all, OPEN) && Contains(all[Find(all, OPEN).value..], CLOSE)
    ensures Contains(all + token, OPEN) && Contains((all + token)[Find(all + token, OPEN).value..], CLOSE)
    ensures TriggerOf(all + token) == TriggerOf(all)
  {
    var at := Find(all, OPEN).value;
    FindGrows(all, token, OPEN);
    assert (all + token)[at..] == all[at..] + token;
    FindGrows(all[at..], token, CLOSE);
    var c := Find(all[at..], CLOSE).value;
    assert (all[at..] + token)[..c + |CLOSE|] == all[at..][..c + |CLOSE|];
  }

  /** Taking in a token while the open tag is in the buffer and no close tag stands in front. */
  lemma CatchStep(d: Dispatch, token: string, gone: string, all: string, start: nat)
    requires !d.cancelled && Holds(gone, d.buffer + token, all, start)
    requires !Contains((d.buffer + token)[..start], CLOSE)
    ensures match Receive(d, token, true)
            case Go(e) => e == d.(buffer := d.buffer + token) && Find(e.buffer, CLOSE).None?
            case Stop(e) => e.cancelled && e.sent == d.sent + [TriggerOf(all)] && Contains(all, OPEN)
                            && Contains(all[Find(all, OPEN).value..], CLOSE)
            case Crash => false
  {
    HoldsTrigger(gone, d.buffer + token, all, start);
  }

  lemma TagWindow(seen: string, token: string) returns (start: nat)
    requires !Contains(seen, OPEN) && Contains(seen + token, OPEN)
    ensures Holds(GoneOf(seen), LastOf(seen) + token, seen + token, start)
    ensures (LastOf(seen) + token)[..start] == (seen + token)[|GoneOf(seen)|..Find(seen + token, OPEN).value]
  {
    TagArrives(seen, token);
    start := Find(LastOf(seen) + token, OPEN).value;
    WindowFront(GoneOf(seen), LastOf(seen) + token, seen + token, start);
  }

  /** The token that completes the open tag. */
  lemma FirstCatch(tokens: seq<string>)
    requires tokens != [] && Contains(Flatten(tokens), OPEN) && !Contains(InWindow(tokens), CLOSE)
    requires !Contains(Flatten(tokens[..|tokens| - 1]), OPEN)
    ensures var k := TokensBefore(tokens, OPEN); Caught(tokens, GoneOf(Flatten(tokens[..k])), k)
  {
    var n := |tokens| - 1;
    FirstFeed(tokens);
    var seen := Flatten(tokens[..n]);
    var start := TagWindow(seen, tokens[n]);
    CatchStep(Dispatch(LastOf(seen), false, tokens[..n]), tokens[n], GoneOf(seen), Flatten(tokens), start);
  }

  lemma FirstFeed(tokens: seq<string>)
    requires tokens != [] && Contains(Flatten(tokens), OPEN)
    requires !Contains(Flatten(tokens[..|tokens| - 1]), OPEN)
    ensures var n := |tokens| - 1;
            && TokensBefore(tokens, OPEN) == n
            && Feed(tokens) == Receive(Dispatch(LastOf(Flatten(tokens[..n])), false, tokens[..n]), tokens[n], true)
  {
    LastCompletes(tokens);
    ForwardsAll(tokens[..|tokens| - 1]);
  }

  lemma LastCompletes(tokens: seq<string>)
    requires tokens != [] && Contains(Flatten(tokens), OPEN)
    requires !Contains(Flatten(tokens[..|tokens| - 1]), OPEN)
    ensures TokensBefore(tokens, OPEN) == |tokens| - 1
  {
    assert tokens[..|tokens|] == tokens;
    TokensBeforeIs(tokens, OPEN, |tokens| - 1);
  }

  lemma {:induction false} Catches(tokens: seq<string>)
    requires Contains(Flatten(tokens), OPEN) && !Contains(InWindow(tokens), CLOSE)
    ensures var k := TokensBefore(tokens, OPEN); Caught(tokens, GoneOf(Flatten(tokens[..k])), k)
    decreases |tokens|
  {
    var n := |tokens| - 1;
    var front := tokens[..n];
    var all, seen := Flatten(tokens), Flatten(front);
    var k := TokensBefore(tokens, OPEN);
    var gone := GoneOf(Flatten(tokens[..k]));
    if !Contains(seen, OPEN) {
      FirstCatch(tokens);
    } else {
      FrontCatches(tokens);
      assert front[..k] == tokens[..k];
      match Feed(front)
      case Go(d) =>
        var start: nat :| Holds(gone, d.buffer, seen, start) && !Contains(d.buffer[..start], CLOSE);
        HoldsGrows(gone, d.buffer, seen, start, tokens[n]);
        CatchStep(d, tokens[n], gone, all, start);
      case Stop(d) =>
        TriggerGrows(seen, tokens[n]);
    }
  }

  lemma {:induction false} FrontCatches(tokens: seq<string>)
    requires Contains(Flatten(tokens), OPEN) && !Contains(InWindow(tokens), CLOSE)
    requires Contains(Flatten(tokens[..|tokens| - 1]), OPEN)
    ensures var front := tokens[..|tokens| - 1];
            var k := TokensBefore(tokens, OPEN);
            k == TokensBefore(front, OPEN) && k <= |front| && Caught(front, GoneOf(Flatten(front[..k])), k)
    decreases |tokens|, 0
  {
    var front := tokens[..|tokens| - 1];
    var k := TokensBefore(front, OPEN);
    assert front[..k] == tokens[..k];
    FindInPrefix(Flatten(front), Flatten(tokens), OPEN);
    assert Flatten(front) == Flatten(tokens)[..|Flatten(front)|];
    assert InWindow(front) == InWindow(tokens);
    Catches(front);
  }

  // ---- Whole requests ----

  /** What the client should get: the tokens in front of the first open tag, then the trigger. */
  function Expected(tokens: seq<string>): seq<string> {
    if Contains(Flatten(tokens), OPEN) then
      tokens[..TokensBefore(tokens, OPEN)] + [TriggerOf(Flatten(tokens))]
    else tokens
  }

  lemma ConcludesWith(d: Dispatch, gone: string, all: string, start: nat)
    requires !d.cancelled && Holds(gone, d.buffer, all, start) && !Contains(d.buffer[..start], CLOSE)
    ensures Conclude(d) == Stop(d.(sent := d.sent + [TriggerOf(all)]))
  {
    HoldsTrigger(gone, d.buffer, all, start);
  }

  /** The dispatcher refines whole-text search: for every cutting of a text into tokens it sends
      the tokens up to the first open tag and then the one trigger message, whether or not the
      trigger is closed before generation ends, provided no close tag stands in the window in
      front of the open tag. */
  lemma RequestIsSearch(tokens: seq<string>)
    requires Contains(Flatten(tokens), OPEN) ==> !Contains(InWindow(tokens), CLOSE)
    ensures Request(tokens).Stop? && Request(tokens).d.sent == Expected(tokens)
  {
    var all := Flatten(tokens);
    if Contains(all, OPEN) {
      Catches(tokens);
      var k := TokensBefore(tokens, OPEN);
      var gone := GoneOf(Flatten(tokens[..k]));
      var r := Feed(tokens);
      if r.Go? {
        var start: nat :| Holds(gone, r.d.buffer, all, start) && !Contains(r.d.buffer[..start], CLOSE);
        ConcludesWith(r.d, gone, all, start);
      }
    } else {
      ForwardsAll(tokens);
      WindowSplits(all);
      NoTagInWindow(all);
    }
  }

  lemma NoTagInWindow(all: string)
    requires !Contains(all, OPEN)
    ensures !Contains(LastOf(all), OPEN)
  {
    WindowSplits(all);
    forall j: nat ensures !HasAt(LastOf(all), OPEN, j) {
      HasAtSuffix(GoneOf(all), LastOf(all), OPEN, j);
      assert !HasAt(all, OPEN, |GoneOf(all)| + j);
    }
  }

  lemma {:induction false} StopStays(tokens: seq<string>, k: nat)
    requires k <= |tokens| && !Feed(tokens[..k]).Go?
    ensures Feed(tokens) == Feed(tokens[..k])
    decreases |tokens|
  {
    if k == |tokens| {
      assert tokens[..k] == tokens;
    } else {
      assert tokens[..|tokens| - 1][..k] == tokens[..k];
      StopStays(tokens[..|tokens| - 1], k);
    }
  }

  /** What slicing the buffer from the open tag back to a close tag in the text in front of it does:
      it panics, unless the first close tag stands right in front of the open tag. */
  predicate SlicesBack(r: Reply, sent: seq<string>, front: string)
    requires Contains(front, CLOSE)
  {
    if Find(front, CLOSE).value + 10 < |front| then r == Crash
    else r.Stop? && r.d.cancelled && r.d.sent == sent + [""]
  }

  /** With a close tag in the window in front of the open tag, the buffer is sliced backwards: the
      callback panics, or delivers an empty message when the first close tag stands right in front of
      the open tag. */
  lemma CloseInFront(tokens: seq<string>)
    requires Contains(Flatten(tokens), OPEN) && Contains(InWindow(tokens), CLOSE)
    ensures SlicesBack(Request(tokens), tokens[..TokensBefore(tokens, OPEN)], InWindow(tokens))
  {
    var k := TokensBefore(tokens, OPEN);
    TokensBeforeIs(tokens, OPEN, k);
    assert tokens[..|tokens|] == tokens;
    var front, upto := tokens[..k], tokens[..k + 1];
    var seen := Flatten(front);
    assert upto[..k] == front;
    FlattenPrefix(tokens, k + 1);
    FindInPrefix(Flatten(upto), Flatten(tokens), OPEN);
    ForwardsAll(front);
    TagSlicedBackwards(front, seen, tokens[k], Flatten(tokens));
    StopStays(tokens, k + 1);
  }

  lemma TagSlicedBackwards(front: seq<string>, seen: string, token: string, all: string)
    requires seen + token <= all && !Contains(seen, OPEN) && Contains(seen + token, OPEN)
    ensures Contains(all, OPEN) && |GoneOf(seen)| <= Find(all, OPEN).value
    ensures var window := all[|GoneOf(seen)|..Find(all, OPEN).value];
            Contains(window, CLOSE) ==>
              SlicesBack(Receive(Dispatch(LastOf(seen), false, front), token, true), front, window)
  {
    TagArrives(seen, token);
    var start := Find(LastOf(seen) + token, OPEN).value;
    SlicedIn(Dispatch(LastOf(seen), false, front), token, GoneOf(seen), seen + token, all, start);
  }

  lemma SlicedIn(d: Dispatch, token: string, gone: string, upto: string, all: string, start: nat)
    requires !d.cancelled && Holds(gone, d.buffer + token, upto, start) && upto <= all
    ensures Find(all, OPEN) == Some(|gone| + start)
    ensures var window := all[|gone|..|gone| + start];
            Contains(window, CLOSE) ==> SlicesBack(Receive(d, token, true), d.sent, window)
  {
    FindInPrefix(upto, all, OPEN);
    WindowFront(gone, d.buffer + token, all, start);
    if Contains((d.buffer + token)[..start], CLOSE) {
      SlicesBackwards(d, token, start);
    }
  }

  lemma SlicesBackwards(d: Dispatch, token: string, start: nat)
    requires !d.cancelled && Find(d.buffer + token, OPEN) == Some(start)
    requires Contains((d.buffer + token)[..start], CLOSE)
    ensures SlicesBack(Receive(d, token, true), d.sent, (d.buffer + token)[..start])
  {
    var buffer := d.buffer + token;
    assert buffer == buffer[..start] + buffer[start..];
    FindInPrefix(buffer[..start], buffer, CLOSE);
    assert buffer[start..start] == "";
  }

  lemma WindowFront(gone: string, buffer: string, all: string, start: nat)
    requires gone + buffer <= all && start <= |buffer|
    ensures buffer[..start] == all[|gone|..|gone| + start]
  {
    assert gone + buffer == all[..|gone + buffer|];
  }

  /** The exact condition, for every request with a trigger: the client gets what it should if
      and only if no close tag stands in the window in front of the open tag. */
  lemma RequestCorrectIff(tokens: seq<string>)
    requires Contains(Flatten(tokens), OPEN)
    ensures (Request(tokens).Stop? && Request(tokens).d.sent == Expected(tokens))
            <==> !Contains(InWindow(tokens), CLOSE)
  {
    if Contains(InWindow(tokens), CLOSE) {
      CloseInFront(tokens);
      TriggerNotEmpty(Flatten(tokens));
      var k := TokensBefore(tokens, OPEN);
      assert (tokens[..k] + [""])[k] == "";
      assert Expected(tokens)[TokensBefore(tokens, OPEN)] == TriggerOf(Flatten(tokens));
    } else {
      RequestIsSearch(tokens);
    }
  }

  lemma TriggerNotEmpty(all: string)
    requires Contains(all, OPEN)
    ensures TriggerOf(all) != ""
  {
  }

  /** When generation ends, the buffer never holds both tags: the first branch of the final check is
      never taken. */
  lemma {:induction false} NothingLeftToClose(tokens: seq<string>)
    requires Feed(tokens).Go?
    ensures !Contains(Feed(tokens).d.buffer, OPEN) || !Contains(Feed(tokens).d.buffer, CLOSE)
  {
    if tokens == [] {
      NoTagInEmpty();
    } else {
      var d := Feed(tokens[..|tokens| - 1]).d;
      NoTagInWindowOf(d.buffer + tokens[|tokens| - 1]);
    }
  }

  lemma NoTagInWindowOf(buffer: string)
    ensures !Contains(buffer, OPEN) ==> !Contains(LastOf(buffer), OPEN)
  {
    if !Contains(buffer, OPEN) {
      NoTagInWindow(buffer);
    }
  }

  /** A request that loses its trigger. */
  lemma TriggerLost()
    ensures var tokens := ["</TRIGGER><TRIGGER:x"];
            !(Request(tokens).Stop? && Request(tokens).d.sent == Expected(tokens))
  {
    var token := "</TRIGGER><TRIGGER:x";
    var none: seq<string> := [];
    assert [token][..0] == none && "" + token == token;
    assert Flatten(none) == "" && Flatten([token]) == token;
    TagAtTen(token);
    TokensBeforeIs([token], OPEN, 0);
    assert [token][..1] == [token];
    NoTagInEmpty();
    assert token[0..10] == CLOSE && CLOSE[0..10] == CLOSE;
    ContainsAt(CLOSE, CLOSE, 0);
    RequestCorrectIff([token]);
  }

  lemma NoTagInEmpty()
    ensures !Contains("", OPEN)
  {
  }

  lemma TagAtTen(token: string)
    requires token == "</TRIGGER><TRIGGER:x"
    ensures Find(token, OPEN) == Some(10)
  {
    assert token[10..19] == OPEN;
    forall j: nat | j < 10 ensures !HasAt(token, OPEN, j) {
      HasAtChar(token, OPEN, j, 0);
      HasAtChar(token, OPEN, j, 1);
    }
    FindIs(token, OPEN, 10);
  }

  // ---- A channel that refuses tokens ----

  /** The tokens in order until one stops the stream, with the answers of the channel. */
  function FeedTo(tokens: seq<string>, accepts: nat -> bool): Reply
    decreases |tokens|
  {
    if tokens == [] then Go(Dispatch("", false, []))
    else
      var n := |tokens| - 1;
      match FeedTo(tokens[..n], accepts)
      case Go(d) => Receive(d, tokens[n], accepts(n))
      case other => other
  }

  function RequestTo(tokens: seq<string>, accepts: nat -> bool): Reply {
    match FeedTo(tokens, accepts)
    case Go(d) => Conclude(d)
    case Stop(d) => Conclude(d)
    case Crash => Crash
  }

  /** Once the open tag has come in, it stays in the buffer. */
  lemma {:induction false} TagStays(tokens: seq<string>)
    requires Contains(Flatten(tokens), OPEN) && Feed(tokens).Go?
    ensures Contains(Feed(tokens).d.buffer, OPEN)
    decreases |tokens|
  {
    var n := |tokens| - 1;
    var seen := Flatten(tokens[..n]);
    if Contains(seen, OPEN) {
      TagStays(tokens[..n]);
      FindGrows(Feed(tokens[..n]).d.buffer, tokens[n], OPEN);
    } else {
      ForwardsAll(tokens[..n]);
      TagArrives(seen, tokens[n]);
    }
  }

  /** The answer of the channel to a token that is not forwarded does not matter. */
  lemma {:induction false} AnswerIgnored(tokens: seq<string>, accept: bool)
    requires tokens != [] && Contains(Flatten(tokens), OPEN) && Feed(tokens[..|tokens| - 1]).Go?
    ensures var n := |tokens| - 1;
            Receive(Feed(tokens[..n]).d, tokens[n], accept) == Receive(Feed(tokens[..n]).d, tokens[n], true)
  {
    var n := |tokens| - 1;
    var seen, d := Flatten(tokens[..n]), Feed(tokens[..n]).d;
    if Contains(seen, OPEN) {
      TagStays(tokens[..n]);
      FindGrows(d.buffer, tokens[n], OPEN);
    } else {
      ForwardsAll(tokens[..n]);
      TagArrives(seen, tokens[n]);
    }
  }

  /** A channel that accepts every token in front of the first open tag might as well accept all. */
  lemma {:induction false} LaterAnswersIgnored(tokens: seq<string>, accepts: nat -> bool)
    requires forall i: nat :: i < TokensBefore(tokens, OPEN) ==> accepts(i)
    ensures FeedTo(tokens, accepts) == Feed(tokens) && RequestTo(tokens, accepts) == Request(tokens)
    decreases |tokens|
  {
    if tokens != [] {
      var n := |tokens| - 1;
      if Contains(Flatten(tokens), OPEN) {
        LaterAnswersIgnored(tokens[..n], accepts);
        if Feed(tokens[..n]).Go? {
          AnswerIgnored(tokens, accepts(n));
        }
      } else {
        NoTagYet(tokens);
        LaterAnswersIgnored(tokens[..n], accepts);
      }
    }
  }

  /** The first refused token in front of the open tag ends the request: the client is sent nothing
      behind it, not even a trigger. */
  lemma {:induction false} RefusalEnds(tokens: seq<string>, accepts: nat -> bool, n: nat)
    requires n < TokensBefore(tokens, OPEN) && (forall i: nat :: i < n ==> accepts(i)) && !accepts(n)
    ensures RequestTo(tokens, accepts)
            == Stop(Dispatch(LastOf(Flatten(tokens[..n + 1])), false, tokens[..n + 1]))
  {
    NotUpTo(tokens, OPEN, n + 1);
    RefusedAt(tokens[..n + 1], accepts);
    RefusedStays(tokens, accepts, n + 1);
    WindowSplits(Flatten(tokens[..n + 1]));
    NoTagInWindow(Flatten(tokens[..n + 1]));
  }

  lemma {:induction false} RefusedAt(tokens: seq<string>, accepts: nat -> bool)
    requires tokens != [] && !Contains(Flatten(tokens), OPEN)
    requires (forall i: nat :: i < |tokens| - 1 ==> accepts(i)) && !accepts(|tokens| - 1)
    ensures FeedTo(tokens, accepts) == Stop(Dispatch(LastOf(Flatten(tokens)), false, tokens))
  {
    var n := |tokens| - 1;
    NoTagYet(tokens);
    ForwardsTo(tokens[..n], accepts);
    ForwardStep(tokens[..n], Flatten(tokens[..n]), tokens[n], false);
    assert tokens == tokens[..n] + [tokens[n]];
  }

  lemma {:induction false} ForwardsTo(tokens: seq<string>, accepts: nat -> bool)
    requires !Contains(Flatten(tokens), OPEN) && forall i: nat :: i < |tokens| ==> accepts(i)
    ensures FeedTo(tokens, accepts) == Go(Dispatch(LastOf(Flatten(tokens)), false, tokens))
  {
    LaterAnswersIgnored(tokens, accepts);
    ForwardsAll(tokens);
  }

  lemma {:induction false} RefusedStays(tokens: seq<string>, accepts: nat -> bool, k: nat)
    requires k <= |tokens| && FeedTo(tokens[..k], accepts).Stop?
    ensures FeedTo(tokens, accepts) == FeedTo(tokens[..k], accepts)
    decreases |tokens|
  {
    if k == |tokens| {
      assert tokens[..k] == tokens;
    } else {
      assert tokens[..|tokens| - 1][..k] == tokens[..k];
      RefusedStays(tokens[..|tokens| - 1], accepts, k);
    }
  }

  /** The callback's data: the buffer, the cancel flag and the channel. */
  class CallbackData {
    var buffer: string
    var cancelFlag: bool
    var sent: seq<string>

    constructor ()
      ensures State() == Dispatch("", false, [])
    {
      buffer, cancelFlag, sent := "", false, [];
    }

    function State(): Dispatch
      reads this
    {
      Dispatch(buffer, cancelFlag, sent)
    }

    /** Handles a token; `ok` is false when the slice panics. */
    method Callback(token: string, accept: bool) returns (go: bool, ok: bool)
      modifies this
      ensures match Receive(old(State()), token, accept)
              case Go(d) => ok && go && State() == d
              case Stop(d) => ok && !go && State() == d
              case Crash => !ok
    {
      ok := true;
      if cancelFlag {
        return false, true;
      }
      buffer := buffer + token;
      var start := Find(buffer, OPEN);
      if start.Some? {
        var end := Find(buffer, CLOSE);
        if end.Some? {
          if end.value + |CLOSE| < start.value {
            return false, false;
          }
          sent := sent + [buffer[start.value..end.value + |CLOSE|]];
          cancelFlag := true;
          return false, true;
        }
        return true, true;
      }
      if |buffer| > WINDOW {
        buffer := buffer[|buffer| - WINDOW..];
      }
      sent := sent + [token];
      go := accept;
    }

    /** The buffer check after generation. */
    method FinalCheck() returns (ok: bool)
      modifies this
      ensures match Conclude(old(State()))
              case Go(_) => false
              case Stop(d) => ok && State() == d
              case Crash => !ok
    {
      ok := true;
      if cancelFlag {
        return;
      }
      var start := Find(buffer, OPEN);
      if start.Some? {
        var end := Find(buffer, CLOSE);
        if end.Some? {
          if end.value + |CLOSE| < start.value {
            return false;
          }
          sent := sent + [buffer[start.value..end.value + |CLOSE|]];
        } else {
          sent := sent + [buffer[start.value..]];
        }
      }
    }
  }
}
