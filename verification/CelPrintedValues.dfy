/** Splitting joined text, and parsing printed values and conditions. */
module CelPrintedValues {
  import opened Text
  import opened CelAst
  import opened CelLexer
  import opened CelPrinter

  // ---- Splitting joined text ----

  /** Splitting at a separator undoes joining with it, when no text contains it. */
  lemma {:induction false} SplitJoin(pad: string, texts: seq<string>, lead: string, sep: string)
    requires |texts| >= 1 && Separates(lead, sep) && (pad == "" || pad == " ")
    requires forall i :: 0 <= i < |texts| ==> IsSegment(texts[i], sep)
    ensures TrimAll(Split(pad + JoinWith(texts, lead + sep + " "), sep)) == texts
    decreases |texts|
  {
    if |texts| == 1 {
      SplitLast(pad, texts[0], sep);
      assert texts == [texts[0]];
    } else {
      SplitFirst(pad, texts[0], lead, sep, JoinWith(texts[1..], lead + sep + " "));
      SplitJoin(" ", texts[1..], lead, sep);
      assert texts == [texts[0]] + texts[1..];
    }
  }

  lemma SplitJoined(texts: seq<string>, lead: string, sep: string, glue: string)
    requires |texts| >= 1 && Separates(lead, sep) && glue == lead + sep + " "
    requires forall i :: 0 <= i < |texts| ==> IsSegment(texts[i], sep)
    ensures TrimAll(Split(JoinWith(texts, glue), sep)) == texts
  {
    SplitJoin("", texts, lead, sep);
    assert "" + JoinWith(texts, glue) == JoinWith(texts, glue);
  }

  predicate Separates(lead: string, sep: string) {
    sep != "" && ' ' !in sep && (lead == " " || (lead == "" && |sep| == 1))
  }

  predicate IsSegment(text: string, sep: string) {
    Trimmed(text) && !Contains(text, sep)
  }

  lemma SplitLast(pad: string, t: string, sep: string)
    requires sep != "" && ' ' !in sep && IsSegment(t, sep) && (pad == "" || pad == " ")
    ensures TrimAll(Split(pad + t, sep)) == [t]
  {
    NotInPadded(pad, t, sep);
    TrimPad(pad, t, "");
    assert pad + t + "" == pad + t;
  }

  lemma SplitFirst(pad: string, t: string, lead: string, sep: string, rest: string)
    requires Separates(lead, sep) && IsSegment(t, sep) && (pad == "" || pad == " ")
    ensures TrimAll(Split(pad + (t + (lead + sep + " ") + rest), sep)) == [t] + TrimAll(Split(" " + rest, sep))
  {
    NotInPadded(pad, t, sep);
    TrimPad(pad, t, lead);
    FindBehind(pad + t, lead, sep, " " + rest);
    SplitStep(pad + t + lead, sep, " " + rest);
    Regroup(pad, t, lead, sep, rest);
  }

  lemma Regroup(pad: string, t: string, lead: string, sep: string, rest: string)
    ensures pad + (t + (lead + sep + " ") + rest) == pad + t + lead + sep + (" " + rest)
  {
  }

  lemma NotInPadded(pad: string, t: string, sep: string)
    requires sep != "" && ' ' !in sep && !Contains(t, sep) && (pad == "" || pad == " ")
    ensures !Contains(pad + t, sep)
  {
    if pad == "" {
      assert pad + t == t;
    } else {
      assert pad + t == "" + " " + t;
      forall j: nat ensures !HasAt(pad + t, sep, j) {
        HasAtAroundBlank("", t, sep, j);
      }
    }
  }

  lemma FindBehind(a: string, lead: string, sep: string, rest: string)
    requires Separates(lead, sep) && !Contains(a, sep)
    ensures Find(a + lead + sep + rest, sep) == Some(|a + lead|)
  {
    var s := a + lead + sep + rest;
    assert s[|a + lead|..|a + lead| + |sep|] == sep;
    forall j: nat | j < |a + lead| ensures !HasAt(s, sep, j) {
      if lead == " " {
        assert s == a + " " + (sep + rest);
        HasAtAroundBlank(a, sep + rest, sep, j);
      } else {
        assert a[j..j + 1] == s[j..j + 1];
      }
      assert !HasAt(a, sep, j);
    }
    FindIs(s, sep, |a + lead|);
  }

  // ---- Values and conditions ----

  lemma FirstChar(s: string, p: string)
    requires s != "" && p != "" && s[0] != p[0]
    ensures !(p <= s) && s != p
  {
  }

  lemma PrintedValueShape(v: CelValue)
    requires PrintableValue(v)
    ensures Trimmed(PrintValue(v)) && PrintValue(v) != ""
  {
    if v.Number? {
      FloatShape(v.literal);
    }
  }

  lemma ParsePrintedValue(v: CelValue)
    requires PrintableValue(v)
    ensures ParseValue(PrintValue(v)) == Ok(v)
  {
    match v
    case TextValue(t) =>
    case Number(literal) => ParseNumber(literal);
    case Bool(b) => TrimId(if b then "true" else "false");
    case Variable(name) => TrimId(name);
    case Parameter => TrimId("?");
    case Null => TrimId("null");
  }

  lemma ParseNumber(s: string)
    requires IsFloatLiteral(s)
    ensures ParseValue(s) == Ok(Number(s))
  {
    FloatShape(s);
    FloatFirst(s);
    TrimId(s);
  }

  lemma FloatShape(s: string)
    requires IsFloatLiteral(s)
    ensures s != "" && Trimmed(s)
  {
    FloatChars(s, Start);
    assert s != "" ==> s[0] in s && s[|s| - 1] in s;
  }

  predicate Letters(q: FloatState) {
    q.Word? ==> forall i :: 0 <= i < |q.rest| ==> 'a' <= q.rest[i] <= 'z'
  }

  predicate LiteralChar(c: char) {
    IsAlphanumeric(c) || c == '+' || c == '-' || c == '.'
  }

  lemma {:induction false} FloatChars(s: string, q: FloatState)
    requires FloatRun(s, q) != Reject && Letters(q)
    ensures forall c :: c in s ==> LiteralChar(c)
    decreases |s|
  {
    if s != "" {
      if FloatStep(q, s[0]) == Reject {
        RejectStays(s[1..]);
      }
      FloatChars(s[1..], FloatStep(q, s[0]));
      assert s == [s[0]] + s[1..];
    }
  }

  lemma {:induction false} RejectStays(s: string)
    ensures FloatRun(s, Reject) == Reject
    decreases |s|
  {
    if s != "" {
      RejectStays(s[1..]);
    }
  }

  lemma FloatFirst(s: string)
    requires IsFloatLiteral(s)
    ensures s != "" && s[0] != 't' && s[0] != 'f' && s[0] != '?' && s[0] != '$' && s[0] != '\"' && s != "null"
  {
    RejectStays(s[1..]);
    RejectStays("ll");
    assert "null"[1..] == "ull" && "ull"[1..] == "ll";
    assert FloatRun("ull", Word("an")) == FloatRun("ll", Reject);
    assert FloatRun("null", Start) == FloatRun("ull", Word("an"));
  }

  /** No operator is part of one that is searched for later. */
  lemma OperatorsDistinct(j: nat, k: nat)
    requires j < k < 8
    ensures !Contains(OPERATORS[k].0, OPERATORS[j].0)
  {
    var i := match Find(OPERATORS[k].0, OPERATORS[j].0) case Some(at) => at case None => 0;
    HasAtChar(OPERATORS[k].0, OPERATORS[j].0, i, 0);
    HasAtChar(OPERATORS[k].0, OPERATORS[j].0, i, |OPERATORS[j].0| - 1);
  }

  lemma NotInCondition(field: string, opText: string, text: string, sep: string)
    requires sep != "" && ' ' !in sep
    requires !Contains(field, sep) && !Contains(opText, sep) && !Contains(text, sep)
    ensures !Contains(field + " " + (opText + " " + text), sep)
  {
    BlankKeepsOut(opText, text, sep);
    BlankKeepsOut(field, opText + " " + text, sep);
  }

  lemma OperatorTextShape(op: CompareOp)
    ensures var t := OperatorText(op);
            t != "" && Plain(t) && ' ' !in t && ',' !in t && '-' !in t && Trimmed(t)
  {
    match op
    case Gte => case Lte => case NotEq => case Gt => case Lt => case HasText => case Eq =>
  }

  /** The operator found in a printed condition is the one printed. */
  lemma PrintedOperator(field: string, op: CompareOp, value: CelValue)
    requires PrintableFilter(field, op, value)
    ensures OperatorIn(PrintCondition(field, op, value), 0) == OperatorIndex(op)
  {
    var s, k := PrintCondition(field, op, value), OperatorIndex(op);
    forall j | 0 <= j < k ensures !Contains(s, OPERATORS[j].0) {
      OperatorsDistinct(j, k);
      OperatorTextShape(OPERATORS[j].1);
      NotInCondition(field, OperatorText(op), PrintValue(value), OPERATORS[j].0);
    }
    PrintedConditionAt(field, op, value);
  }

  lemma PrintedConditionAt(field: string, op: CompareOp, value: CelValue)
    requires PrintableFilter(field, op, value)
    ensures var s, opText := PrintCondition(field, op, value), OperatorText(op);
            && Find(s, opText) == Some(|field| + 1)
            && Trim(s[..|field| + 1]) == field
            && Trim(s[|field| + 1 + |opText|..]) == PrintValue(value)
  {
    PrintedValueShape(value);
    OperatorTextShape(op);
    ConditionAt(field, OperatorText(op), PrintValue(value));
  }

  lemma ParsePrintedCondition(field: string, op: CompareOp, value: CelValue)
    requires PrintableFilter(field, op, value)
    ensures ParseSingleFilter(PrintCondition(field, op, value)) == Ok(Filter(field, op, value))
  {
    PrintedOperator(field, op, value);
    PrintedConditionAt(field, op, value);
    ParsePrintedValue(value);
    ConditionWith(PrintCondition(field, op, value), OperatorIndex(op), OperatorText(op), op, |field| + 1, field,
                  PrintValue(value), value);
  }

  lemma ConditionWith(s: string, k: nat, opText: string, op: CompareOp, at: nat, field: string, text: string,
                      value: CelValue)
    requires k < |OPERATORS| && OPERATORS[k] == (opText, op) && OperatorIn(s, 0) == k
    requires Find(s, opText) == Some(at)
    requires Trim(s[..at]) == field && Trim(s[at + |opText|..]) == text && ParseValue(text) == Ok(value)
    ensures ParseSingleFilter(s) == Ok(Filter(field, op, value))
  {
    ConditionParts(s, opText, op, at, field, text, value);
  }

  lemma ConditionParts(s: string, opText: string, op: CompareOp, at: nat, field: string, text: string, value: CelValue)
    requires Find(s, opText) == Some(at)
    requires Trim(s[..at]) == field && Trim(s[at + |opText|..]) == text && ParseValue(text) == Ok(value)
    ensures ParseCondition(s, opText, op) == Ok(Filter(field, op, value))
  {
  }

  lemma ConditionAt(field: string, opText: string, text: string)
    requires opText != "" && ' ' !in opText && Trimmed(field) && Trimmed(text) && !Contains(field, opText)
    ensures var s := field + " " + (opText + " " + text);
            && Find(s, opText) == Some(|field| + 1)
            && Trim(s[..|field| + 1]) == field
            && Trim(s[|field| + 1 + |opText|..]) == text
  {
    var s := field + " " + (opText + " " + text);
    assert s == field + " " + opText + (" " + text);
    FindBehind(field, " ", opText, " " + text);
    assert s[..|field| + 1] == "" + field + " ";
    assert s[|field| + 1 + |opText|..] == " " + text + "";
    TrimPad("", field, " ");
    TrimPad(" ", text, "");
  }

  // ---- What printed text does not contain ----

  lemma NoCharNoFind(s: string, c: char)
    requires c !in s
    ensures !Contains(s, [c])
  {
    forall j: nat ensures !HasAt(s, [c], j) {
      HasAtChar(s, [c], j, 0);
    }
  }

  lemma {:induction false} JoinHasNo(texts: seq<string>, glue: string, c: char)
    requires |texts| >= 1 && c !in glue && forall i :: 0 <= i < |texts| ==> c !in texts[i]
    ensures c !in JoinWith(texts, glue)
  {
    if |texts| > 1 {
      JoinHasNo(texts[1..], glue, c);
    }
  }

  lemma NoBlankPrefix(s: string, p: string, i: nat)
    requires ' ' !in s && i < |p| && p[i] == ' '
    ensures !(p <= s)
  {
    assert p <= s ==> p[i] in s;
  }

  lemma NoDashNoArrow(s: string)
    requires '-' !in s
    ensures !Contains(s, "->")
  {
    forall j: nat ensures !HasAt(s, "->", j) {
      HasAtChar(s, "->", j, 0);
    }
  }

  lemma BlankKeepsOut(a: string, b: string, p: string)
    requires p != "" && ' ' !in p && !Contains(a, p) && !Contains(b, p)
    ensures !Contains(a + " " + b, p)
  {
    forall j: nat ensures !HasAt(a + " " + b, p, j) {
      HasAtAroundBlank(a, b, p, j);
    }
  }

  lemma NoArrow(s: string)
    requires Arrowless(s)
    ensures !Contains(s, "->")
  {
    forall j: nat ensures !HasAt(s, "->", j) {
      HasAtChar(s, "->", j, 0);
      HasAtChar(s, "->", j, 1);
    }
  }

  lemma NotKeyword(s: string, word: string, keyword: string, start: string)
    requires word <= s && ' ' !in word && (|s| > |word| ==> s[|word|] == ' ')
    requires ' ' !in keyword && word != keyword && start == keyword + " "
    ensures !(start <= s)
  {
    assert forall i :: 0 <= i < |word| ==> s[i] == word[i];
    assert start[|keyword|] == ' ' && start[..|keyword|] == keyword;
    if |keyword| < |word| {
      assert word[|keyword|] != ' ';
    } else if |keyword| > |word| {
      assert start[|word|] == keyword[|word|] != ' ';
    } else {
      assert s[..|word|] == word;
    }
  }
}
