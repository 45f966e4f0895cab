/** The grammar of number literals, and how values are told apart. */
module CelLiterals {
  import opened Text
  import opened CelAst
  import opened CelLexer
  import opened CelPrintedValues

  // ---- The grammar ----

  predicate IsSign(c: char) {
    c == '+' || c == '-'
  }

  function LeadingDigits(s: string): (n: nat)
    ensures n <= |s| && (n < |s| ==> !IsDigit(s[n]))
  {
    if s != "" && IsDigit(s[0]) then 1 + LeadingDigits(s[1..]) else 0
  }

  predicate AllDigits(s: string) {
    s != "" && LeadingDigits(s) == |s|
  }

  /** Nothing, or an `e` of either case and digits with an optional sign. */
  predicate ExponentForm(s: string) {
    s == "" || ((s[0] == 'e' || s[0] == 'E') && SignedDigits(s[1..]))
  }

  predicate SignedDigits(s: string) {
    AllDigits(if s != "" && IsSign(s[0]) then s[1..] else s)
  }

  /** Digits on at least one side of an optional point, and an optional exponent. */
  predicate NumberForm(s: string) {
    var n := LeadingDigits(s);
    var rest := s[n..];
    if rest != "" && rest[0] == '.' then
      var m := LeadingDigits(rest[1..]);
      n + m > 0 && ExponentForm(rest[1..][m..])
    else n > 0 && ExponentForm(rest)
  }

  /** What may stand behind the digits in front of a number. */
  predicate RestForm(rest: string) {
    if rest != "" && rest[0] == '.' then ExponentForm(rest[1..][LeadingDigits(rest[1..])..]) else ExponentForm(rest)
  }

  /** The word in any case of letters. */
  predicate IsWord(s: string, word: string) {
    |s| == |word| && forall i :: 0 <= i < |s| ==> LowerChar(s[i]) == word[i]
  }

  predicate UnsignedForm(s: string) {
    NumberForm(s) || IsWord(s, "inf") || IsWord(s, "infinity") || IsWord(s, "nan")
  }

  predicate LiteralForm(s: string) {
    UnsignedForm(if s != "" && IsSign(s[0]) then s[1..] else s)
  }

  // ---- The automaton reads the grammar ----

  predicate Accepts(q: FloatState) {
    q == Whole || q == Fraction || q == Exponent || q == Word("") || q == Word("inity")
  }

  /** Reading digits does not change these states. */
  lemma {:induction false} SkipDigits(s: string, q: FloatState)
    requires q == Whole || q == Fraction || q == Exponent
    ensures FloatRun(s, q) == FloatRun(s[LeadingDigits(s)..], q)
    decreases |s|
  {
    if s != "" && IsDigit(s[0]) {
      SkipDigits(s[1..], q);
      assert s[1..][LeadingDigits(s[1..])..] == s[LeadingDigits(s)..];
    } else {
      assert s[0..] == s;
    }
  }

  lemma {:induction false} ReadExponent(s: string)
    ensures Accepts(FloatRun(s, Exponent)) <==> s == "" || AllDigits(s)
    ensures Accepts(FloatRun(s, ExpSigned)) <==> AllDigits(s)
  {
    AfterExponent(s);
    if s != "" {
      AfterExponent(s[1..]);
      RejectStays(s[1..]);
    }
  }

  lemma {:induction false} AfterExponent(s: string)
    ensures Accepts(FloatRun(s, Exponent)) <==> LeadingDigits(s) == |s|
  {
    SkipDigits(s, Exponent);
    var n := LeadingDigits(s);
    if n < |s| {
      RejectStays(s[n..][1..]);
    }
  }

  lemma {:induction false} ReadSigned(s: string)
    ensures Accepts(FloatRun(s, ExpMark)) <==> SignedDigits(s)
  {
    if s != "" {
      ReadExponent(s[1..]);
      ReadExponent(s);
      RejectStays(s[1..]);
    }
  }

  /** Behind the digits of a fraction, or of a number, only an exponent can follow. */
  lemma {:induction false} ReadTail(s: string)
    ensures Accepts(FloatRun(s, Fraction)) <==> ExponentForm(s[LeadingDigits(s)..])
  {
    SkipDigits(s, Fraction);
    var rest := s[LeadingDigits(s)..];
    if rest != "" {
      ReadSigned(rest[1..]);
      RejectStays(rest[1..]);
    }
  }

  lemma {:induction false} ReadPoint(s: string)
    ensures Accepts(FloatRun(s, Point)) <==> LeadingDigits(s) > 0 && ExponentForm(s[LeadingDigits(s)..])
  {
    if s != "" {
      ReadTail(s[1..]);
      RejectStays(s[1..]);
      assert IsDigit(s[0]) ==> s[LeadingDigits(s)..] == s[1..][LeadingDigits(s[1..])..];
    }
  }

  lemma {:induction false} ReadRest(rest: string)
    requires rest != "" ==> !IsDigit(rest[0])
    ensures Accepts(FloatRun(rest, Whole)) <==> RestForm(rest)
  {
    if rest != "" {
      ReadTail(rest[1..]);
      ReadSigned(rest[1..]);
      RejectStays(rest[1..]);
    }
  }

  lemma {:induction false} ReadWord(s: string, rest: string)
    ensures FloatRun(s, Word(rest))
            == if |s| <= |rest| && forall i :: 0 <= i < |s| ==> LowerChar(s[i]) == rest[i] then Word(rest[|s|..])
               else Reject
    decreases |s|
  {
    if s == "" {
      assert rest[0..] == rest;
    } else if rest != "" && LowerChar(s[0]) == rest[0] {
      ReadWord(s[1..], rest[1..]);
      assert forall i :: 0 < i < |s| ==> s[i] == s[1..][i - 1];
      assert forall i :: 0 < i < |rest| ==> rest[i] == rest[1..][i - 1];
      assert |s| <= |rest| ==> rest[1..][|s| - 1..] == rest[|s|..];
    } else {
      RejectStays(s[1..]);
    }
  }

  lemma {:induction false} ReadNumber(s: string)
    requires s != "" && (IsDigit(s[0]) || s[0] == '.')
    ensures Accepts(FloatRun(s, Signed)) <==> NumberForm(s)
  {
    var rest := s[1..];
    if IsDigit(s[0]) {
      SkipDigits(rest, Whole);
      ReadRest(rest[LeadingDigits(rest)..]);
      DigitsBehind(s);
    } else {
      ReadPoint(rest);
      assert s[0..] == s;
    }
  }

  lemma {:induction false} DigitsBehind(s: string)
    requires s != "" && IsDigit(s[0])
    ensures NumberForm(s) <==> RestForm(s[1..][LeadingDigits(s[1..])..])
  {
    assert s[LeadingDigits(s)..] == s[1..][LeadingDigits(s[1..])..];
  }

  /** A word starts with neither a digit nor a point. */
  lemma {:induction false} ReadLetter(s: string)
    requires s != "" && !IsDigit(s[0]) && s[0] != '.'
    ensures !NumberForm(s)
    ensures Accepts(FloatRun(s, Signed)) <==> IsWord(s, "inf") || IsWord(s, "infinity") || IsWord(s, "nan")
  {
    assert LeadingDigits(s) == 0;
    var rest := s[1..];
    RejectStays(rest);
    if LowerChar(s[0]) == 'i' {
      ReadWord(rest, "nfinity");
      InfinityWord(s);
    } else if LowerChar(s[0]) == 'n' {
      ReadWord(rest, "an");
      NanWord(s);
    }
  }

  lemma {:induction false} InfinityWord(s: string)
    requires s != "" && LowerChar(s[0]) == 'i'
    ensures var rest := s[1..];
            (|rest| <= 7 && (forall i :: 0 <= i < |rest| ==> LowerChar(rest[i]) == "nfinity"[i])
             && ("nfinity"[|rest|..] == "" || "nfinity"[|rest|..] == "inity"))
            <==> IsWord(s, "inf") || IsWord(s, "infinity") || IsWord(s, "nan")
  {
    var rest := s[1..];
    assert forall i :: 0 <= i < |rest| ==> rest[i] == s[i + 1];
    assert forall i :: 0 <= i < 7 ==> "infinity"[i + 1] == "nfinity"[i];
    assert "inf"[1] == "nfinity"[0] && "inf"[2] == "nfinity"[1] && "nan"[0] == 'n';
    if |rest| <= 7 {
      assert |"nfinity"[|rest|..]| == 7 - |rest|;
      assert "nfinity"[2..] == "inity";
    }
  }

  lemma {:induction false} NanWord(s: string)
    requires s != "" && LowerChar(s[0]) == 'n'
    ensures var rest := s[1..];
            (|rest| <= 2 && (forall i :: 0 <= i < |rest| ==> LowerChar(rest[i]) == "an"[i])
             && ("an"[|rest|..] == "" || "an"[|rest|..] == "inity"))
            <==> IsWord(s, "inf") || IsWord(s, "infinity") || IsWord(s, "nan")
  {
    var rest := s[1..];
    assert forall i :: 0 <= i < |rest| ==> rest[i] == s[i + 1];
    assert "nan"[1] == "an"[0] && "nan"[2] == "an"[1] && "inf"[0] == 'i' && "infinity"[0] == 'i';
    if |rest| <= 2 {
      assert |"an"[|rest|..]| == 2 - |rest|;
    }
  }

  lemma {:induction false} ReadUnsigned(s: string)
    ensures Accepts(FloatRun(s, Signed)) <==> UnsignedForm(s)
  {
    if s != "" {
      if IsDigit(s[0]) || s[0] == '.' {
        ReadNumber(s);
        assert LowerChar(s[0]) == s[0] && "inf"[0] == 'i' && "infinity"[0] == 'i' && "nan"[0] == 'n';
      } else {
        ReadLetter(s);
      }
    }
  }

  /** The automaton accepts exactly the literals of the grammar. */
  lemma {:induction false} LiteralIffForm(s: string)
    ensures IsFloatLiteral(s) <==> LiteralForm(s)
  {
    if s != "" && IsSign(s[0]) {
      ReadUnsigned(s[1..]);
    } else {
      ReadUnsigned(s);
      if s != "" {
        assert FloatStep(Start, s[0]) == FloatStep(Signed, s[0]);
      }
    }
  }

  // ---- Values ----

  predicate NoSpecialText(s: string) {
    && s != "?" && !("$" <= s) && s != "true" && s != "false" && s != "null"
    && !(s != "" && s[0] == '\"' && s[|s| - 1] == '\"')
  }

  /** What a trimmed text is read as. */
  lemma {:induction false} ValueMeans(s: string)
    requires Trimmed(s) && s != "\""
    ensures s == "?" ==> ParseValue(s) == Ok(Parameter)
    ensures "$" <= s ==> ParseValue(s) == Ok(Variable(s))
    ensures |s| >= 2 && s[0] == '\"' && s[|s| - 1] == '\"' ==> ParseValue(s) == Ok(TextValue(s[1..|s| - 1]))
    ensures s == "true" ==> ParseValue(s) == Ok(Bool(true))
    ensures s == "false" ==> ParseValue(s) == Ok(Bool(false))
    ensures s == "null" ==> ParseValue(s) == Ok(Null)
    ensures LiteralForm(s) ==> ParseValue(s) == Ok(Number(s))
    ensures NoSpecialText(s) && !LiteralForm(s) ==> ParseValue(s) == Ok(TextValue(s))
  {
    TrimId(s);
    LiteralIffForm(s);
    if LiteralForm(s) {
      ParseNumber(s);
    }
  }
}
