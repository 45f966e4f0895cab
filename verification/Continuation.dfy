/** The callback that streams the final answer after a tool has run. It keeps 20 to 30 characters
    to notice a new trigger, and stops the stream before one is passed on. */
module Continuation {
  import opened Text
  import opened TriggerScan

  /** `acc` is the kept end of the text, `passed` the tokens given to the caller. */
  datatype Tail = Tail(acc: string, passed: seq<string>)

  function Trimmed20(acc: string): (r: string)
    ensures |r| <= |acc| && (|r| == |acc| || |r| == 20)
  {
    if |acc| > 30 then acc[|acc| - 20..] else acc
  }

  /** One token: the new state, and whether the stream goes on. */
  function Continue(t: Tail, token: string, accept: bool): (Tail, bool) {
    var acc := t.acc + token;
    if Contains(acc, OPEN) then (t.(acc := acc), false)
    else (Tail(Trimmed20(acc), t.passed + [token]), accept)
  }

  /** The state after the tokens, with the stream still open or not. */
  function TailRun(tokens: seq<string>, accepts: nat -> bool): (Tail, bool)
    decreases |tokens|
  {
    if tokens == [] then (Tail("", []), true)
    else
      var n := |tokens| - 1;
      var (t, open) := TailRun(tokens[..n], accepts);
      if open then Continue(t, tokens[n], accepts(n)) else (t, false)
  }

  /** While the stream is open, the kept text is a safe end of everything passed on. */
  lemma TrimKeepsSafe(gone: string, acc: string) returns (dropped: string)
    requires Safe(gone, acc, OPEN)
    ensures acc == dropped + Trimmed20(acc) && Safe(gone + dropped, Trimmed20(acc), OPEN)
  {
    var kept := Trimmed20(acc);
    dropped := acc[..|acc| - |kept|];
    assert acc == dropped + kept;
    if dropped == "" {
      assert gone + dropped == gone;
    } else {
      assert !Contains(dropped + kept, OPEN) by {
        forall j: nat ensures !HasAt(acc, OPEN, j) {
          HasAtSuffix(gone, acc, OPEN, j);
          assert !HasAt(gone + acc, OPEN, |gone| + j);
        }
      }
      LongWindowCovers(dropped, kept, OPEN);
      SafeDrop(gone, dropped, kept, OPEN);
    }
  }

  lemma TailStep(gone: string, acc: string, token: string, all: string) returns (next: string)
    requires Safe(gone, acc, OPEN) && all == gone + acc && !Contains(acc + token, OPEN)
    ensures all + token == next + Trimmed20(acc + token) && Safe(next, Trimmed20(acc + token), OPEN)
  {
    SafeExtend(gone, acc, token, OPEN);
    var dropped := TrimKeepsSafe(gone, acc + token);
    next := gone + dropped;
    assert gone + acc + token == gone + (acc + token);
  }

  /** One token of an open stream whose text so far is `gone + t.acc`. */
  lemma NextTail(t: Tail, token: string, accept: bool, gone: string, seen: string) returns (next: string)
    requires seen == gone + t.acc && Safe(gone, t.acc, OPEN)
    ensures var (u, open) := Continue(t, token, accept);
            if Contains(seen + token, OPEN) then u.passed == t.passed && !open
            else u.passed == t.passed + [token] && open == accept && seen + token == next + u.acc
                 && Safe(next, u.acc, OPEN)
  {
    next := gone;
    WindowFind(gone, t.acc, token, OPEN);
    if !Contains(t.acc + token, OPEN) {
      next := TailStep(gone, t.acc, token, seen);
    }
  }

  /** The whole state of a run: what was passed on is the tokens in front of the first one that
      would complete an open tag, or in front of the point where the caller stopped. */
  lemma {:induction false} TailInvariant(tokens: seq<string>, accepts: nat -> bool) returns (gone: string)
    ensures var (t, open) := TailRun(tokens, accepts);
            && t.passed <= tokens && !Contains(Flatten(t.passed), OPEN)
            && (open ==> t.passed == tokens && Flatten(tokens) == gone + t.acc && Safe(gone, t.acc, OPEN))
            && (!open && (forall i: nat :: accepts(i)) ==>
                  |t.passed| < |tokens| && Contains(Flatten(tokens[..|t.passed| + 1]), OPEN))
    decreases |tokens|
  {
    gone := "";
    if tokens != [] {
      var n := |tokens| - 1;
      var front := tokens[..n];
      var before := TailInvariant(front, accepts);
      var (t, open) := TailRun(front, accepts);
      assert tokens == front + [tokens[n]] && tokens[..n + 1] == tokens;
      if open {
        gone := NextTail(t, tokens[n], accepts(n), before, Flatten(front));
      } else if |t.passed| < n {
        assert front[..|t.passed| + 1] == tokens[..|t.passed| + 1];
      }
    }
  }

  /** How much text is kept: all of it up to 30 characters, and from then on 20 to 30. */
  lemma {:induction false} KeptLength(tokens: seq<string>, accepts: nat -> bool)
    requires TailRun(tokens, accepts).1
    ensures var acc := TailRun(tokens, accepts).0.acc;
            && |acc| <= 30
            && (|Flatten(tokens)| <= 30 ==> acc == Flatten(tokens))
            && (|Flatten(tokens)| > 30 ==> |acc| >= 20)
    decreases |tokens|
  {
    if tokens != [] {
      KeptLength(tokens[..|tokens| - 1], accepts);
    }
  }

  /** After a tool has run, the text passed to the caller never contains an open tag, not even
      across tokens: the trim cannot hide one. */
  lemma NoTriggerAfterTool(tokens: seq<string>, accepts: nat -> bool)
    ensures var (t, _) := TailRun(tokens, accepts); t.passed <= tokens && !Contains(Flatten(t.passed), OPEN)
  {
    var _ := TailInvariant(tokens, accepts);
  }

  lemma NoTagInFront(tokens: seq<string>)
    requires tokens != [] && !Contains(Flatten(tokens), OPEN)
    ensures !Contains(Flatten(tokens[..|tokens| - 1]), OPEN)
  {
    NotInPrefix(Flatten(tokens[..|tokens| - 1]), Flatten(tokens), OPEN);
  }

  /** Text without an open tag, all accepted, is passed on completely. */
  lemma {:induction false} TailOpen(tokens: seq<string>, accepts: nat -> bool)
    requires !Contains(Flatten(tokens), OPEN) && forall i: nat :: i < |tokens| ==> accepts(i)
    ensures TailRun(tokens, accepts).1 && TailRun(tokens, accepts).0.passed == tokens
    decreases |tokens|
  {
    if tokens != [] {
      var m := |tokens| - 1;
      var front := tokens[..m];
      NoTagInFront(tokens);
      TailOpen(front, accepts);
      var gone := TailInvariant(front, accepts);
      var _ := NextTail(TailRun(front, accepts).0, tokens[m], accepts(m), gone, Flatten(front));
      assert tokens == front + [tokens[m]];
    }
  }

  lemma {:induction false} TailStays(tokens: seq<string>, k: nat, accepts: nat -> bool)
    requires k <= |tokens| && !TailRun(tokens[..k], accepts).1
    ensures TailRun(tokens, accepts).0 == TailRun(tokens[..k], accepts).0
    decreases |tokens|
  {
    if k == |tokens| {
      assert tokens[..k] == tokens;
    } else {
      assert tokens[..|tokens| - 1][..k] == tokens[..k];
      TailStays(tokens[..|tokens| - 1], k, accepts);
      TailClosed(tokens[..|tokens| - 1], k, accepts);
    }
  }

  lemma {:induction false} TailClosed(tokens: seq<string>, k: nat, accepts: nat -> bool)
    requires k <= |tokens| && !TailRun(tokens[..k], accepts).1
    ensures !TailRun(tokens, accepts).1
    decreases |tokens|
  {
    if k == |tokens| {
      assert tokens[..k] == tokens;
    } else {
      assert tokens[..|tokens| - 1][..k] == tokens[..k];
      TailClosed(tokens[..|tokens| - 1], k, accepts);
    }
  }

  /** A caller that refuses a token in front of the first open tag is given that token and no
      further one. */
  lemma {:induction false} TailRefused(tokens: seq<string>, accepts: nat -> bool, n: nat)
    requires n < TokensBefore(tokens, OPEN) && (forall i: nat :: i < n ==> accepts(i)) && !accepts(n)
    ensures TailRun(tokens, accepts).0.passed == tokens[..n + 1]
  {
    var upto := tokens[..n + 1];
    assert upto[..n] == tokens[..n] && upto == tokens[..n] + [tokens[n]];
    NotUpTo(tokens, OPEN, n + 1);
    NoTagInFront(upto);
    TailOpen(tokens[..n], accepts);
    var gone := TailInvariant(tokens[..n], accepts);
    var _ := NextTail(TailRun(tokens[..n], accepts).0, tokens[n], accepts(n), gone, Flatten(tokens[..n]));
    TailStays(tokens, n + 1, accepts);
  }

  /** With a caller that keeps accepting, exactly the tokens in front of the first open tag are
      passed on. */
  lemma TailIsSearch(tokens: seq<string>, accepts: nat -> bool)
    requires forall i: nat :: accepts(i)
    ensures var (t, open) := TailRun(tokens, accepts);
            && t.passed == tokens[..TokensBefore(tokens, OPEN)]
            && (open <==> !Contains(Flatten(tokens), OPEN))
  {
    var _ := TailInvariant(tokens, accepts);
    var (t, open) := TailRun(tokens, accepts);
    assert t.passed == tokens[..|t.passed|];
    TokensBeforeIs(tokens, OPEN, |t.passed|);
    if !open {
      FlattenPrefix(tokens, |t.passed| + 1);
      FindInPrefix(Flatten(tokens[..|t.passed| + 1]), Flatten(tokens), OPEN);
    }
  }

  /** The closure with its own accumulator. */
  class TailStream {
    var trigAcc: string
    var passed: seq<string>

    constructor ()
      ensures State() == Tail("", [])
    {
      trigAcc, passed := "", [];
    }

    function State(): Tail
      reads this
    {
      Tail(trigAcc, passed)
    }

    method OnToken(token: string, accept: bool) returns (go: bool)
      modifies this
      ensures (State(), go) == Continue(old(State()), token, accept)
    {
      trigAcc := trigAcc + token;
      if Contains(trigAcc, OPEN) {
        return false;
      }
      if |trigAcc| > 30 {
        trigAcc := trigAcc[|trigAcc| - 20..];
      }
      passed := passed + [token];
      go := accept;
    }
  }
}
