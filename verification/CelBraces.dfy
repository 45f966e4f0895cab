/** What statement splitting and brace matching find, stated with the brace balance of a text
    instead of a scan, and the loops that compute them. */
module CelBraces {
  import opened Text
  import opened CelAst
  import opened CelLexer

  /** Opening minus closing braces. */
  function Balance(s: string): int {
    if s == "" then 0
    else
      var last := s[|s| - 1];
      Balance(s[..|s| - 1]) + (if last == '{' then 1 else if last == '}' then -1 else 0)
  }

  /** No `;` of `s` stands at balance 0. */
  ghost predicate NoTopSemi(s: string) {
    forall i :: 0 <= i < |s| && s[i] == ';' ==> Balance(s[..i]) != 0
  }

  function JoinSemi(pieces: seq<string>): string
    requires |pieces| >= 1
  {
    if |pieces| == 1 then pieces[0] else pieces[0] + ";" + JoinSemi(pieces[1..])
  }

  /** `pieces` is `s` cut at exactly the `;` of balance 0. */
  ghost predicate IsCut(s: string, pieces: seq<string>) {
    && |pieces| >= 1
    && JoinSemi(pieces) == s
    && (forall i :: 0 <= i < |pieces| ==> NoTopSemi(pieces[i]))
    && (forall i :: 0 <= i < |pieces| - 1 ==> Balance(pieces[i]) == 0)
  }

  lemma {:induction false} BalanceConcat(a: string, b: string)
    ensures Balance(a + b) == Balance(a) + Balance(b)
  {
    if b == "" {
      assert a + b == a;
    } else {
      BalanceConcat(a, b[..|b| - 1]);
      assert (a + b)[..|a + b| - 1] == a + b[..|b| - 1];
    }
  }

  lemma BalanceStep(s: string, lo: nat, i: nat)
    requires lo <= i < |s|
    ensures Balance(s[lo..i + 1]) == Balance(s[lo..i]) + Delta(s[i])
  {
    assert s[lo..i + 1][..i - lo] == s[lo..i];
  }

  // ---- Splitting ----

  /** Text without a `;` at balance 0 is read into the current piece. */
  lemma {:induction false} PiecesAbsorb(t: string, rest: string, current: string)
    requires NoTopSemi(current + t)
    ensures Pieces(t + rest, current, Balance(current)) == Pieces(rest, current + t, Balance(current + t))
    decreases |t|
  {
    if t == "" {
      assert t + rest == rest && current + t == current;
    } else {
      var next := current + [t[0]];
      assert current + t == next + t[1..];
      assert (t + rest)[1..] == t[1..] + rest;
      assert next[..|current|] == current;
      assert (current + t)[..|current|] == current;
      PiecesAbsorb(t[1..], rest, next);
    }
  }

  lemma PiecesStep(text: string, rest: string)
    requires NoTopSemi(text) && Balance(text) == 0
    ensures Pieces(text + ";" + rest, "", 0) == [text] + Pieces(rest, "", 0)
  {
    assert "" + text == text;
    PiecesAbsorb(text, ";" + rest, "");
    assert text + (";" + rest) == text + ";" + rest;
    assert (";" + rest)[1..] == rest;
  }

  lemma {:induction false} PiecesAreCut(s: string, current: string)
    requires NoTopSemi(current)
    ensures IsCut(current + s, Pieces(s, current, Balance(current)))
    decreases |s|
  {
    if s == "" {
      assert current + s == current;
    } else {
      var d := Balance(current) + Delta(s[0]);
      var next := current + [s[0]];
      assert next[..|current|] == current;
      assert current + s == next + s[1..];
      if s[0] == ';' && d == 0 {
        PiecesAreCut(s[1..], "");
        var tail := Pieces(s[1..], "", 0);
        var whole := [current] + tail;
        assert "" + s[1..] == s[1..];
        assert whole[1..] == tail;
        assert next + s[1..] == current + ";" + s[1..];
        forall i | 0 <= i < |whole| ensures NoTopSemi(whole[i]) && (i < |whole| - 1 ==> Balance(whole[i]) == 0) {
          assert i > 0 ==> whole[i] == tail[i - 1];
        }
      } else {
        forall i | 0 <= i < |next| && next[i] == ';' ensures Balance(next[..i]) != 0 {
          assert next[..i] == current[..i];
        }
        PiecesAreCut(s[1..], next);
      }
    }
  }

  lemma {:induction false} CutIsPieces(s: string, pieces: seq<string>)
    requires IsCut(s, pieces)
    ensures pieces == Pieces(s, "", 0)
    decreases |pieces|
  {
    var p := pieces[0];
    if |pieces| == 1 {
      assert p + "" == p && "" + p == p;
      PiecesAbsorb(p, "", "");
    } else {
      PiecesStep(p, JoinSemi(pieces[1..]));
      CutIsPieces(JoinSemi(pieces[1..]), pieces[1..]);
      assert pieces == [p] + pieces[1..];
    }
  }

  /** Splitting is the one way to cut a text at its `;` of balance 0: rejoining gives the text
      back, and nothing but a blank last piece is dropped. */
  lemma SplitIsTheCut(s: string, pieces: seq<string>)
    ensures IsCut(s, pieces) <==> pieces == Pieces(s, "", 0)
    ensures exists tail :: Blank(tail) && (IsCut(s, SplitStatements(s)) || IsCut(s, SplitStatements(s) + [tail]))
  {
    PiecesAreCut(s, "");
    assert "" + s == s;
    if IsCut(s, pieces) {
      CutIsPieces(s, pieces);
    }
    var all := Pieces(s, "", 0);
    var tail := if Trim(all[|all| - 1]) == "" then all[|all| - 1] else "";
    assert all == all[..|all| - 1] + [all[|all| - 1]];
    TrimBlank(tail);
    assert Blank(tail) && (IsCut(s, SplitStatements(s)) || IsCut(s, SplitStatements(s) + [tail]));
  }

  lemma PlainPieces(s: string)
    requires ';' !in s
    ensures Pieces(s, "", 0) == [s]
  {
    assert NoTopSemi(s);
    SplitIsTheCut(s, [s]);
  }

  // ---- Brace matching ----

  ghost predicate Closes(s: string, start: nat, k: nat) {
    start <= k < |s| && Balance(s[start..k + 1]) == 0
  }

  lemma {:induction false} ClosingFromIsFirst(s: string, start: nat, i: nat)
    requires start < i <= |s|
    requires forall j :: start < j <= i ==> Balance(s[start..j]) > 0
    ensures var r := ClosingFrom(s, i, Balance(s[start..i]));
            && (r.Ok? ==> Closes(s, start, r.value) && forall j :: start <= j < r.value ==> !Closes(s, start, j))
            && (r.Err? ==> forall j :: start <= j ==> !Closes(s, start, j))
    decreases |s| - i
  {
    if i < |s| {
      BalanceStep(s, start, i);
      if Balance(s[start..i + 1]) > 0 {
        ClosingFromIsFirst(s, start, i + 1);
      }
    }
  }

  /** From an opening brace, the closing brace is the first index at which the balance is back
      at 0, and the search fails exactly when there is none. */
  lemma FindClosingBraceIsFirst(s: string, start: nat)
    requires start < |s| && s[start] == '{'
    ensures var r := FindClosingBrace(s, start);
            && (r.Ok? <==> exists k :: Closes(s, start, k))
            && (r.Ok? ==> Closes(s, start, r.value) && forall j :: start <= j < r.value ==> !Closes(s, start, j))
  {
    BalanceStep(s, start, start);
    assert s[start..start] == "";
    ClosingFromIsFirst(s, start, start + 1);
  }

  // ---- The loops ----

  method SplitStatementsLoop(input: string) returns (statements: seq<string>)
    ensures statements == SplitStatements(input)
  {
    statements := [];
    var current, braceDepth := "", 0;
    for i := 0 to |input|
      invariant statements + Pieces(input[i..], current, braceDepth) == Pieces(input, "", 0)
    {
      var c := input[i];
      assert input[i..][0] == c && input[i..][1..] == input[i + 1..];
      if c == '{' { braceDepth := braceDepth + 1; }
      if c == '}' { braceDepth := braceDepth - 1; }
      if c == ';' && braceDepth == 0 {
        statements := statements + [current];
        current := "";
      } else {
        current := current + [c];
      }
    }
    if Trim(current) != "" {
      statements := statements + [current];
    }
  }

  method FindClosingBraceLoop(input: string, start: nat) returns (r: Outcome<nat>)
    requires start <= |input|
    ensures r == FindClosingBrace(input, start)
  {
    var depth := 0;
    for i := start to |input|
      invariant ClosingFrom(input, i, depth) == FindClosingBrace(input, start)
    {
      if input[i] == '{' { depth := depth + 1; }
      if input[i] == '}' {
        depth := depth - 1;
        if depth == 0 {
          return Ok(i);
        }
      }
    }
    return Err(MissingCloseBrace);
  }
}
