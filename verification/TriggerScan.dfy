/** Searching a growing text for a tag while only its end is kept.

    The text read so far is `gone + kept`. The kept part is enough to decide whether more text
    completes an occurrence when no suffix that starts in `gone` could still become one. */
module TriggerScan {
  import opened Text

  const OPEN := "<TRIGGER:"
  const CLOSE := "</TRIGGER>"

  function Flatten(tokens: seq<string>): string {
    if tokens == [] then "" else Flatten(tokens[..|tokens| - 1]) + tokens[|tokens| - 1]
  }

  lemma {:induction false} FlattenPrefix(tokens: seq<string>, k: nat)
    requires k <= |tokens|
    ensures Flatten(tokens[..k]) <= Flatten(tokens)
    decreases |tokens| - k
  {
    if k == |tokens| {
      assert tokens[..k] == tokens;
    } else {
      FlattenPrefix(tokens, k + 1);
      assert tokens[..k + 1][..k] == tokens[..k];
    }
  }

  /** No suffix of `gone + kept` that starts in `gone` is a prefix of `p`. */
  ghost predicate Covers(gone: string, kept: string, p: string) {
    forall i :: 0 <= i < |gone| ==> !(gone[i..] + kept <= p)
  }

  ghost predicate Safe(gone: string, kept: string, p: string) {
    !Contains(gone + kept, p) && Covers(gone, kept, p)
  }

  lemma HasAtSuffix(a: string, b: string, p: string, j: nat)
    ensures HasAt(a + b, p, |a| + j) <==> HasAt(b, p, j)
  {
    if |a| + j + |p| <= |a + b| {
      assert (a + b)[|a| + j..|a| + j + |p|] == b[j..j + |p|];
    }
  }

  lemma PrefixOfPrefix(a: string, b: string, p: string)
    requires a + b <= p
    ensures a <= p
  {
    assert a == (a + b)[..|a|];
    assert p[..|a|] == p[..|a + b|][..|a|];
  }

  /** An occurrence that ends behind `front` leaves a prefix of itself at its end. */
  lemma CutOccurrence(front: string, token: string, p: string, j: nat)
    requires j < |front| < j + |p|
    ensures HasAt(front + token, p, j) ==> front[j..] <= p
  {
    var all := front + token;
    if HasAt(all, p, j) {
      assert p[..|front| - j] == all[j..j + |p|][..|front| - j] == front[j..];
    }
  }

  /** In a safe state, searching the kept text and the new token is searching everything. */
  lemma WindowFind(gone: string, kept: string, token: string, p: string)
    requires p != "" && Safe(gone, kept, p)
    ensures var k := Find(kept + token, p);
            Find(gone + kept + token, p) == match k case None => None case Some(i) => Some(|gone| + i)
  {
    var all := gone + kept + token;
    assert all == gone + (kept + token);
    forall j: nat | j < |gone| ensures !HasAt(all, p, j) {
      if j + |p| <= |gone + kept| {
        HasAtPrefix(gone + kept, token, p, j);
      } else {
        CutOccurrence(gone + kept, token, p, j);
        assert (gone + kept)[j..] == gone[j..] + kept;
      }
    }
    forall j: nat ensures HasAt(all, p, |gone| + j) <==> HasAt(kept + token, p, j) {
      HasAtSuffix(gone, kept + token, p, j);
    }
    var k := Find(kept + token, p);
    if k.Some? {
      forall j: nat | j < |gone| + k.value ensures !HasAt(all, p, j) {
        if j >= |gone| {
          assert !HasAt(kept + token, p, j - |gone|);
          assert HasAt(all, p, |gone| + (j - |gone|)) <==> HasAt(kept + token, p, j - |gone|);
        }
      }
      FindIs(all, p, |gone| + k.value);
    } else {
      forall j: nat ensures !HasAt(all, p, j) {
        if j >= |gone| {
          assert HasAt(all, p, |gone| + (j - |gone|)) <==> HasAt(kept + token, p, j - |gone|);
        }
      }
    }
  }

  /** A token that completes no occurrence may be appended to the kept text. */
  lemma SafeExtend(gone: string, kept: string, token: string, p: string)
    requires p != "" && Safe(gone, kept, p) && !Contains(kept + token, p)
    ensures Safe(gone, kept + token, p)
  {
    WindowFind(gone, kept, token, p);
    assert gone + (kept + token) == gone + kept + token;
    forall i | 0 <= i < |gone| ensures !(gone[i..] + (kept + token) <= p) {
      assert gone[i..] + (kept + token) == gone[i..] + kept + token;
      if gone[i..] + kept + token <= p {
        PrefixOfPrefix(gone[i..] + kept, token, p);
      }
    }
  }

  /** The front `a` of the kept text may go when no occurrence can start in it. */
  lemma SafeDrop(gone: string, a: string, b: string, p: string)
    requires Safe(gone, a + b, p) && Covers(a, b, p)
    ensures Safe(gone + a, b, p)
  {
    assert gone + a + b == gone + (a + b);
    forall i | 0 <= i < |gone + a| ensures !((gone + a)[i..] + b <= p) {
      if i < |gone| {
        assert (gone + a)[i..] + b == gone[i..] + (a + b);
      } else {
        assert (gone + a)[i..] == a[i - |gone|..];
      }
    }
  }

  /** The front of the kept text and the new token may go when none of its suffixes could be the
      start of an occurrence. */
  lemma HoldSafe(gone: string, kept: string, token: string, at: nat, p: string)
    requires p != "" && Safe(gone, kept, p) && Find(kept + token, p).None? && at <= |kept + token|
    requires forall i :: 0 <= i < at ==> !((kept + token)[i..] <= p)
    ensures Safe(gone + (kept + token)[..at], (kept + token)[at..], p)
  {
    var buffer := kept + token;
    SafeExtend(gone, kept, token, p);
    forall i | 0 <= i < at ensures !(buffer[..at][i..] + buffer[at..] <= p) {
      assert buffer[..at][i..] + buffer[at..] == buffer[i..];
    }
    assert buffer[..at] + buffer[at..] == buffer;
    SafeDrop(gone, buffer[..at], buffer[at..], p);
  }

  /** No occurrence is in the text in front of the first one. */
  lemma FrontHasNone(gone: string, kept: string, token: string, at: nat, p: string)
    requires p != "" && Safe(gone, kept, p) && at <= |kept + token|
    requires Find(kept + token, p).Some? ==> at <= Find(kept + token, p).value
    ensures !Contains(gone + (kept + token)[..at], p)
  {
    var buffer := kept + token;
    WindowFind(gone, kept, token, p);
    assert gone + kept + token == gone + buffer[..at] + buffer[at..];
    forall j: nat ensures !HasAt(gone + buffer[..at], p, j) {
      if j + |p| <= |gone + buffer[..at]| {
        HasAtPrefix(gone + buffer[..at], buffer[at..], p, j);
        assert j < |gone| + at;
      }
    }
  }

  lemma ContainsTransitive(s: string, p: string, q: string)
    requires Contains(s, p) && Contains(p, q)
    ensures Contains(s, q)
  {
    var i, j := Find(s, p).value, Find(p, q).value;
    assert s[i + j..i + j + |q|] == s[i..i + |p|][j..j + |q|];
    ContainsAt(s, q, i + j);
  }

  /** Keeping one character less than the tag is long is enough. */
  lemma LongWindowCovers(a: string, b: string, p: string)
    requires |b| + 1 >= |p| && !Contains(a + b, p)
    ensures Covers(a, b, p)
  {
    forall i | 0 <= i < |a| ensures !(a[i..] + b <= p) {
      assert a[i..] + b == (a + b)[i..] && |a[i..] + b| >= |p|;
      assert !HasAt(a + b, p, i);
    }
  }

  /** Extending a text behind an occurrence does not move its first occurrence. */
  lemma FindGrows(a: string, b: string, p: string)
    requires Contains(a, p)
    ensures Find(a + b, p) == Find(a, p)
  {
    var k := Find(a, p).value;
    HasAtPrefix(a, b, p, k);
    forall j: nat | j < k ensures !HasAt(a + b, p, j) {
      HasAtPrefix(a, b, p, j);
    }
    FindIs(a + b, p, k);
  }

  lemma FindInPrefix(a: string, all: string, p: string)
    requires a <= all && Contains(a, p)
    ensures Find(all, p) == Find(a, p)
  {
    assert all == a + all[|a|..];
    FindGrows(a, all[|a|..], p);
  }

  lemma NotInPrefix(a: string, all: string, p: string)
    requires a <= all && !Contains(all, p)
    ensures !Contains(a, p)
  {
    if Contains(a, p) {
      FindInPrefix(a, all, p);
    }
  }

  /** The number of tokens before the first one that completes an occurrence of `p`. */
  function TokensBefore(tokens: seq<string>, p: string): (k: nat)
    ensures k <= |tokens|
  {
    if tokens == [] || !Contains(Flatten(tokens), p) then |tokens|
    else TokensBefore(tokens[..|tokens| - 1], p)
  }

  /** `TokensBefore` is the one cut at which the text in front has no occurrence, and the next
      token, if there is one, completes one. */
  lemma {:induction false} TokensBeforeIs(tokens: seq<string>, p: string, k: nat)
    requires p != "" && k <= |tokens|
    ensures k == TokensBefore(tokens, p) <==>
              !Contains(Flatten(tokens[..k]), p) && (k < |tokens| ==> Contains(Flatten(tokens[..k + 1]), p))
    decreases |tokens|
  {
    var n := |tokens|;
    assert tokens[..n] == tokens;
    if tokens == [] || !Contains(Flatten(tokens), p) {
      if k < n {
        FlattenPrefix(tokens, k + 1);
        NotInPrefix(Flatten(tokens[..k + 1]), Flatten(tokens), p);
      }
    } else {
      var front := tokens[..n - 1];
      if k < n {
        TokensBeforeIs(front, p, k);
        assert front[..k] == tokens[..k];
        if k < n - 1 {
          assert front[..k + 1] == tokens[..k + 1];
        }
      }
    }
  }

  lemma NotUpTo(tokens: seq<string>, p: string, n: nat)
    requires p != "" && n <= TokensBefore(tokens, p)
    ensures !Contains(Flatten(tokens[..n]), p)
  {
    var k := TokensBefore(tokens, p);
    TokensBeforeIs(tokens, p, k);
    assert tokens[..k][..n] == tokens[..n];
    FlattenPrefix(tokens[..k], n);
    NotInPrefix(Flatten(tokens[..n]), Flatten(tokens[..k]), p);
  }
}
