/** Which line an edit of a setting rewrites, and what it writes there. */
module SettingDefaults {
  import opened Text
  import opened SettingEdit

  // ---- The value of an inline default ----

  /** The text in front of `default:` does not hold one itself, nor the start of one. */
  predicate FrontOf(head: string) {
    Find(head + "default:", "default:") == Some(|head|)
  }

  predicate OnlyBlanks(s: string) {
    forall i :: 0 <= i < |s| ==> s[i] == ' '
  }

  /** A value as it is written where no quotes were: quoted when it is empty or holds a separator,
      a blank or a colon. */
  function Written(v: string): string {
    if v == "" || ',' in v || '}' in v || ' ' in v || ':' in v then "\"" + v + "\"" else v
  }

  lemma InlineAt(head: string, rest: string, v: string)
    requires FrontOf(head)
    ensures ReplaceDefaultInline(head + "default:" + rest, v) == head + "default:" + ReplaceValue(rest, v)
  {
    var front := head + "default:";
    assert front + "" == front;
    FirstStays(front, "", rest, |head|);
    InlineParts(front, rest, v, |head|);
  }

  lemma LeadingIs(blanks: string, rest: string)
    requires OnlyBlanks(blanks) && (rest != "" ==> rest[0] != ' ')
    ensures LeadingBlanks(blanks + rest) == |blanks|
    ensures (blanks + rest)[..|blanks|] == blanks && (blanks + rest)[|blanks|..] == rest
  {
    if rest == "" {
      assert blanks + rest == blanks;
    } else {
      BlanksBehind(blanks, rest);
    }
  }

  /** A quoted value is replaced by the new one in quotes; everything around it stays. */
  lemma QuotedDefault(head: string, blanks: string, was: string, tail: string, v: string)
    requires FrontOf(head) && OnlyBlanks(blanks) && '\"' !in was
    ensures ReplaceDefaultInline(head + "default:" + (blanks + ("\"" + was + "\"" + tail)), v)
            == head + "default:" + (blanks + ("\"" + v + "\"") + tail)
  {
    var rest := "\"" + was + "\"" + tail;
    InlineAt(head, blanks + rest, v);
    LeadingIs(blanks, rest);
    QuotedLength(was, tail);
    assert rest[|was| + 2..] == tail;
  }

  /** A quotation mark that is never closed makes the rest of the line the value. */
  lemma UnclosedDefault(head: string, blanks: string, was: string, v: string)
    requires FrontOf(head) && OnlyBlanks(blanks) && '\"' !in was
    ensures ReplaceDefaultInline(head + "default:" + (blanks + ("\"" + was)), v)
            == head + "default:" + (blanks + ("\"" + v + "\""))
  {
    var rest := "\"" + was;
    InlineAt(head, blanks + rest, v);
    LeadingIs(blanks, rest);
    assert rest[1..] == was && rest[|rest|..] == "";
    assert blanks + ("\"" + v + "\"") + "" == blanks + ("\"" + v + "\"");
  }

  /** A value without quotes ends in front of the first `,` or `}`, or with the line but for the
      white space at its end. The new one gets quotes only when it needs them. */
  lemma PlainDefault(head: string, blanks: string, was: string, tail: string, v: string)
    requires FrontOf(head) && OnlyBlanks(blanks)
    requires ',' !in was && '}' !in was && (was != "" ==> was[0] != '\"')
    requires was + tail != "" ==> (was + tail)[0] != ' '
    requires (tail != "" && (tail[0] == ',' || tail[0] == '}'))
             || (Blank(tail) && (was != "" ==> !IsSpace(was[|was| - 1])))
    ensures ReplaceDefaultInline(head + "default:" + (blanks + (was + tail)), v)
            == head + "default:" + (blanks + Written(v) + tail)
  {
    var rest := was + tail;
    InlineAt(head, blanks + rest, v);
    LeadingIs(blanks, rest);
    PlainEnds(was, tail);
    assert rest[|was|..] == tail;
    assert NeedsQuotes(v) <==> v == "" || ',' in v || '}' in v || ' ' in v || ':' in v;
  }

  lemma PlainEnds(was: string, tail: string)
    requires ',' !in was && '}' !in was && (was != "" ==> was[0] != '\"')
    requires (tail != "" && (tail[0] == ',' || tail[0] == '}'))
             || (Blank(tail) && (was != "" ==> !IsSpace(was[|was| - 1])))
    ensures ValueLength(was + tail) == |was|
    ensures was + tail != "" ==> (was + tail)[0] != '\"'
  {
    var s := was + tail;
    assert forall i :: 0 <= i < |was| ==> s[i] == was[i];
    if Blank(tail) {
      forall i | 0 <= i < |s| ensures !EndsValue(s[i]) {
        assert i >= |was| ==> s[i] == tail[i - |was|];
      }
      TrimEndPad(was, tail);
    } else {
      assert s[|was|] == tail[0];
    }
  }

  // ---- The line that holds the default ----

  /** In front of line `i` a settings block is open: a `settings:` line opens one, and the first
      line that is neither blank nor indented closes it. */
  predicate BlockOpen(lines: seq<string>, i: nat)
    requires i <= |lines|
  {
    i > 0 && if BlockOpen(lines, i - 1) then Inside(lines[i - 1]) else Trim(lines[i - 1]) == "settings:"
  }

  /** The key stands in a settings block on line `i`. */
  predicate KeyOn(lines: seq<string>, i: nat, key: string)
    requires i < |lines|
  {
    BlockOpen(lines, i) && Inside(lines[i]) && IsTarget(lines[i], key)
  }

  predicate Deeper(lines: seq<string>, k: nat, j: nat)
    requires k < |lines| && j < |lines|
  {
    Trim(lines[j]) == "" || Indent(lines[j]) > Indent(lines[k])
  }

  /** The line of the key whose entry is open in front of line `i`. A key without a default on its
      own line opens an entry, and the first line that is neither blank nor indented deeper closes
      it. */
  function EntryAt(lines: seq<string>, i: nat, key: string): (r: Option<nat>)
    requires i <= |lines|
    ensures r.Some? ==> r.value < i
  {
    if i == 0 then None
    else
      match EntryAt(lines, i - 1, key)
      case Some(k) => if Deeper(lines, k, i - 1) then Some(k) else None
      case None =>
        if KeyOn(lines, i - 1, key) && !Contains(Trim(lines[i - 1]), "default:") then Some(i - 1) else None
  }

  /** Line `i` holds a default of the key: on the line of the key, or in its entry. */
  predicate HoldsDefault(lines: seq<string>, i: nat, key: string)
    requires i < |lines|
  {
    match EntryAt(lines, i, key)
    case Some(k) => Trim(lines[i]) != "" && Indent(lines[i]) > Indent(lines[k]) && "default:" <= Trim(lines[i])
    case None => KeyOn(lines, i, key) && Contains(Trim(lines[i]), "default:")
  }

  /** The open entry is the key's, and every line of it is blank or indented deeper than the key. */
  lemma {:induction false} EntryMeans(lines: seq<string>, i: nat, key: string)
    requires i <= |lines| && EntryAt(lines, i, key).Some?
    ensures var k := EntryAt(lines, i, key).value;
            && KeyOn(lines, k, key) && !Contains(Trim(lines[k]), "default:")
            && forall j :: k < j < i ==> Deeper(lines, k, j)
  {
    if EntryAt(lines, i - 1, key).Some? {
      EntryMeans(lines, i - 1, key);
    }
  }

  /** An open entry lies in an open block. */
  lemma {:induction false} EntryInBlock(lines: seq<string>, i: nat, key: string)
    requires i <= |lines|
    ensures EntryAt(lines, i, key).Some? ==> BlockOpen(lines, i)
  {
    if i > 0 {
      EntryInBlock(lines, i - 1, key);
    }
  }

  // ---- The editor's state ----

  /** What the editor knows in front of line `i`, as long as it has not met the default. */
  predicate Knows(lines: seq<string>, i: nat, key: string)
    requires i <= |lines|
  {
    var st, entry := StateAt(lines, i, key), EntryAt(lines, i, key);
    && (st.inSettings <==> BlockOpen(lines, i))
    && (st.inTarget <==> entry.Some?)
    && (entry.Some? ==> st.baseIndent == Indent(lines[entry.value]))
  }

  /** What a line does to an editor that is in an entry. */
  lemma ScanInEntry(st: Scan, line: string, key: string)
    requires !st.done && st.inSettings && st.inTarget
    ensures var next := NextScan(st, line, key);
            if Trim(line) == "" then next == st
            else if Indent(line) > st.baseIndent then
              next == if "default:" <= Trim(line) then st.(done := true, inTarget := false) else st
            else next == st.(inSettings := Indent(line) > 0, inTarget := false)
  {
  }

  /** What a line does to an editor that is in a settings block but in no entry. */
  lemma ScanInBlock(st: Scan, line: string, key: string)
    requires !st.done && st.inSettings && !st.inTarget
    ensures var next := NextScan(st, line, key);
            if !Inside(line) then next == st.(inSettings := false)
            else if !IsTarget(line, key) then next == st
            else if Contains(Trim(line), "default:") then next == st.(baseIndent := Indent(line), done := true)
            else next == st.(baseIndent := Indent(line), inTarget := true)
  {
    assert IsTarget(line, key) ==> Trim(line) != "";
  }

  /** A line that does not hold the default keeps the editor in step. */
  lemma {:induction false} KnowsNext(lines: seq<string>, i: nat, key: string)
    requires i < |lines| && Knows(lines, i, key) && !StateAt(lines, i, key).done
    ensures StateAt(lines, i + 1, key).done <==> HoldsDefault(lines, i, key)
    ensures !HoldsDefault(lines, i, key) ==> Knows(lines, i + 1, key)
  {
    var st := StateAt(lines, i, key);
    EntryInBlock(lines, i, key);
    if st.inTarget {
      ScanInEntry(st, lines[i], key);
    } else if st.inSettings {
      ScanInBlock(st, lines[i], key);
    }
  }

  /** A line in front of line `i` holds a default of the key. */
  predicate HeldBefore(lines: seq<string>, i: nat, key: string)
    requires i <= |lines|
  {
    exists j: nat :: j < i && HoldsDefault(lines, j, key)
  }

  lemma {:induction false} HeldNext(lines: seq<string>, i: nat, key: string)
    requires i < |lines|
    ensures HeldBefore(lines, i + 1, key) <==> HeldBefore(lines, i, key) || HoldsDefault(lines, i, key)
  {
  }

  /** The editor is done exactly when a line above holds the default, and else in step. */
  predicate InStep(lines: seq<string>, i: nat, key: string)
    requires i <= |lines|
  {
    && (StateAt(lines, i, key).done <==> HeldBefore(lines, i, key))
    && (!StateAt(lines, i, key).done ==> Knows(lines, i, key))
  }

  lemma {:induction false} StepKeepsStep(lines: seq<string>, i: nat, key: string)
    requires i < |lines| && InStep(lines, i, key)
    ensures InStep(lines, i + 1, key)
  {
    HeldNext(lines, i, key);
    if StateAt(lines, i, key).done {
      StaysDone(lines, i, i + 1, key);
    } else {
      KnowsNext(lines, i, key);
    }
  }

  lemma AlwaysInStep(lines: seq<string>, i: nat, key: string)
    requires i <= |lines|
    ensures InStep(lines, i, key)
  {
    for n := 0 to i
      invariant InStep(lines, n, key)
    {
      StepKeepsStep(lines, n, key);
    }
  }

  /** Exactly one line is rewritten: the first one that holds a default of the key. On the line of
      the key the value is replaced in place; in its entry the line is written anew. */
  lemma {:induction false} EditExactly(lines: seq<string>, key: string, v: string, i: nat)
    requires i < |lines|
    ensures Edit(lines, key, v)[i]
            == if !HoldsDefault(lines, i, key) || HeldBefore(lines, i, key) then lines[i]
               else if EntryAt(lines, i, key).None? then ReplaceDefaultInline(lines[i], v)
               else Spaces(Indent(lines[i])) + "default: " + v
  {
    EditAt(lines, i, key, v);
    assert lines[i..][0] == lines[i] && Edit(lines, key, v)[i..][0] == Edit(lines, key, v)[i];
    AlwaysInStep(lines, i, key);
    if !StateAt(lines, i, key).done {
      KnowsNext(lines, i, key);
    }
  }

  // ---- Ordinary manifests ----

  /** Lines in front of the first settings block. */
  predicate NoSettings(lines: seq<string>) {
    forall i :: 0 <= i < |lines| ==> Trim(lines[i]) != "settings:"
  }

  /** Lines of a settings block in front of the key's. */
  predicate OtherSettings(lines: seq<string>, key: string) {
    forall i :: 0 <= i < |lines| ==> Inside(lines[i]) && !IsTarget(lines[i], key)
  }

  lemma {:induction false} NothingBefore(lines: seq<string>, n: nat, i: nat, key: string)
    requires i <= n <= |lines| && NoSettings(lines[..n])
    ensures !BlockOpen(lines, i) && EntryAt(lines, i, key).None? && !HeldBefore(lines, i, key)
  {
    if i > 0 {
      NothingBefore(lines, n, i - 1, key);
      assert lines[..n][i - 1] == lines[i - 1];
      if i - 1 < |lines| {
        HeldNext(lines, i - 1, key);
      }
    }
  }

  /** Behind the line that opens the block, up to the line of the key, the block is open and no
      entry is. */
  lemma {:induction false} OthersBefore(lines: seq<string>, s: nat, n: nat, key: string)
    requires s < n <= |lines| && NoSettings(lines[..s]) && Trim(lines[s]) == "settings:"
    requires OtherSettings(lines[s + 1..n], key)
    ensures NoEntryYet(lines, n, key)
  {
    NothingBefore(lines, s, s, key);
    BlockBegins(lines, s, key);
    for i := s + 1 to n
      invariant NoEntryYet(lines, i, key)
    {
      OtherAt(lines, s, n, i, key);
      OtherNext(lines, i, key);
    }
  }

  lemma {:induction false} OtherAt(lines: seq<string>, s: nat, n: nat, i: nat, key: string)
    requires s < i < n <= |lines| && OtherSettings(lines[s + 1..n], key)
    ensures Inside(lines[i]) && !IsTarget(lines[i], key)
  {
    assert lines[s + 1..n][i - (s + 1)] == lines[i];
  }

  predicate NoEntryYet(lines: seq<string>, i: nat, key: string)
    requires i <= |lines|
  {
    BlockOpen(lines, i) && EntryAt(lines, i, key).None? && !HeldBefore(lines, i, key)
  }

  lemma {:induction false} BlockBegins(lines: seq<string>, s: nat, key: string)
    requires s < |lines| && Trim(lines[s]) == "settings:"
    requires !BlockOpen(lines, s) && EntryAt(lines, s, key).None? && !HeldBefore(lines, s, key)
    ensures NoEntryYet(lines, s + 1, key)
  {
    HeldNext(lines, s, key);
  }

  lemma {:induction false} OtherNext(lines: seq<string>, i: nat, key: string)
    requires i < |lines| && NoEntryYet(lines, i, key) && Inside(lines[i]) && !IsTarget(lines[i], key)
    ensures NoEntryYet(lines, i + 1, key)
  {
    HeldNext(lines, i, key);
  }

  /** The lines of an entry in front of its default. */
  predicate OtherFields(lines: seq<string>, k: nat, i: nat)
    requires k < i <= |lines|
  {
    forall j :: k < j < i ==> Deeper(lines, k, j) && !("default:" <= Trim(lines[j]))
  }

  lemma EntryStays(lines: seq<string>, k: nat, n: nat, key: string)
    requires k < n <= |lines| && KeyOn(lines, k, key) && !Contains(Trim(lines[k]), "default:")
    requires NoEntryYet(lines, k, key) && OtherFields(lines, k, n)
    ensures EntryAt(lines, n, key) == Some(k) && !HeldBefore(lines, n, key)
  {
    HeldNext(lines, k, key);
    for i := k + 1 to n
      invariant EntryAt(lines, i, key) == Some(k) && !HeldBefore(lines, i, key)
    {
      FieldNext(lines, k, i, key);
    }
  }

  lemma {:induction false} FieldNext(lines: seq<string>, k: nat, i: nat, key: string)
    requires k < i < |lines| && EntryAt(lines, i, key) == Some(k) && !HeldBefore(lines, i, key)
    requires Deeper(lines, k, i) && !("default:" <= Trim(lines[i]))
    ensures EntryAt(lines, i + 1, key) == Some(k) && !HeldBefore(lines, i + 1, key)
  {
    HeldNext(lines, i, key);
  }

  /** An inline entry in the first settings block: its line is rewritten in place, and no other. */
  lemma {:induction false} InlineEntry(lines: seq<string>, key: string, v: string, s: nat, k: nat)
    requires s < k < |lines| && NoSettings(lines[..s]) && Trim(lines[s]) == "settings:"
    requires OtherSettings(lines[s + 1..k], key)
    requires Inside(lines[k]) && IsTarget(lines[k], key) && Contains(Trim(lines[k]), "default:")
    ensures Edit(lines, key, v) == lines[k := ReplaceDefaultInline(lines[k], v)]
  {
    OthersBefore(lines, s, k, key);
    EditedAt(lines, key, v, k, ReplaceDefaultInline(lines[k], v));
  }

  lemma {:induction false} EditedAt(lines: seq<string>, key: string, v: string, i: nat, out: string)
    requires i < |lines| && HoldsDefault(lines, i, key) && !HeldBefore(lines, i, key)
    requires out == if EntryAt(lines, i, key).None? then ReplaceDefaultInline(lines[i], v)
                    else Spaces(Indent(lines[i])) + "default: " + v
    ensures Edit(lines, key, v) == lines[i := out]
  {
    forall j: nat | j < |lines| ensures Edit(lines, key, v)[j] == lines[i := out][j] {
      EditExactly(lines, key, v, j);
    }
  }

  /** A block-style entry in the first settings block: the first `default:` line below the key is
      written anew with its own indentation, and no other line changes. */
  lemma {:induction false} BlockEntry(lines: seq<string>, key: string, v: string, s: nat, k: nat, i: nat)
    requires s < k < i < |lines| && NoSettings(lines[..s]) && Trim(lines[s]) == "settings:"
    requires OtherSettings(lines[s + 1..k], key)
    requires Inside(lines[k]) && IsTarget(lines[k], key) && !Contains(Trim(lines[k]), "default:")
    requires OtherFields(lines, k, i) && Indent(lines[i]) > Indent(lines[k]) && "default:" <= Trim(lines[i])
    ensures Edit(lines, key, v) == lines[i := Spaces(Indent(lines[i])) + "default: " + v]
  {
    OthersBefore(lines, s, k, key);
    EntryStays(lines, k, i, key);
    EditedAt(lines, key, v, i, Spaces(Indent(lines[i])) + "default: " + v);
  }

  /** A line is the key's when its indentation is followed by the key and a colon, and these by a
      blank or an opening brace, or by nothing but white space. */
  lemma TargetLine(pad: string, key: string, rest: string)
    requires Blank(pad) && key != "" && !IsSpace(key[0])
    requires Blank(rest) || rest[0] == '{' || rest[0] == ' '
    ensures IsTarget(pad + (key + ":" + rest), key) && Indent(pad + (key + ":" + rest)) == |pad|
  {
    TrimStartPad(pad, key + ":" + rest);
    TargetText(key, rest);
  }

  lemma TargetText(key: string, rest: string)
    requires key != "" && (Blank(rest) || rest[0] == '{' || rest[0] == ' ')
    ensures var t := TrimEnd(key + ":" + rest); t == key + ":" || key + ": " <= t || key + ":{" <= t
  {
    if Blank(rest) {
      TrimEndPad(key + ":", rest);
    } else {
      TrimEndIsPrefix(key + ":" + rest);
      KeepsStart(key + ":", rest);
      TextStart(key + ":", rest, TrimEnd(key + ":" + rest));
    }
  }

  lemma TextStart(front: string, rest: string, t: string)
    requires rest != "" && t <= front + rest && |t| > |front|
    ensures front + [rest[0]] <= t
  {
    assert forall i :: 0 <= i < |t| ==> t[i] == (front + rest)[i];
  }

  lemma {:induction false} KeepsStart(front: string, rest: string)
    requires front != "" && !IsSpace(front[|front| - 1]) && !Blank(rest)
    ensures |TrimEnd(front + rest)| > |front|
    decreases |rest|
  {
    if IsSpace(rest[|rest| - 1]) {
      assert (front + rest)[..|front + rest| - 1] == front + rest[..|rest| - 1];
      assert rest == rest[..|rest| - 1] + [rest[|rest| - 1]];
      KeepsStart(front, rest[..|rest| - 1]);
    }
  }

  // ---- From manifest to manifest ----

  /** Line `k` is the first line of the key in the first settings block, which line `s` opens. */
  predicate FirstOfKey(lines: seq<string>, key: string, s: nat, k: nat) {
    && s < k < |lines| && NoSettings(lines[..s]) && Trim(lines[s]) == "settings:"
    && OtherSettings(lines[s + 1..k], key)
  }

  /** An indented line of the key with a default behind some other fields. */
  lemma {:induction false} FieldLine(pad: string, key: string, fields: string, rest: string, head: string)
    requires pad != "" && Blank(pad) && key != "" && !IsSpace(key[0])
    requires head == pad + (key + ":" + (" " + fields)) && FrontOf(head)
    ensures var line := head + "default:" + rest;
            Inside(line) && IsTarget(line, key) && Contains(Trim(line), "default:")
  {
    var line := head + "default:" + rest;
    var behind := " " + fields + "default:" + rest;
    assert line == pad + (key + ":" + behind);
    TargetLine(pad, key, behind);
    DefaultInLine(head, rest);
  }

  lemma {:induction false} DefaultInLine(head: string, rest: string)
    requires FrontOf(head)
    ensures Contains(Trim(head + "default:" + rest), "default:")
  {
    var line := head + "default:" + rest;
    assert head + "default:" + "" == head + "default:";
    FirstStays(head + "default:", "", rest, |head|);
    DefaultInTrimmed(line, |head|);
    ContainsAt(Trim(line), "default:", |head| - Indent(line));
  }

  /** Setting a key whose default stands in quotes on its own line: the new value stands in the same
      quotes, and every other character of the manifest stays. */
  lemma QuotedSetting(lines: seq<string>, key: string, v: string, s: nat, k: nat, pad: string, fields: string,
                      blanks: string, was: string, tail: string)
    requires FirstOfKey(lines, key, s, k) && pad != "" && Blank(pad) && key != "" && !IsSpace(key[0])
    requires OnlyBlanks(blanks) && '\"' !in was
    requires var head := pad + (key + ":" + (" " + fields));
             FrontOf(head) && lines[k] == head + "default:" + (blanks + ("\"" + was + "\"" + tail))
    ensures var head := pad + (key + ":" + (" " + fields));
            Edit(lines, key, v) == lines[k := head + "default:" + (blanks + ("\"" + v + "\"") + tail)]
  {
    var head := pad + (key + ":" + (" " + fields));
    FieldLine(pad, key, fields, blanks + ("\"" + was + "\"" + tail), head);
    InlineEntry(lines, key, v, s, k);
    QuotedDefault(head, blanks, was, tail, v);
  }

  /** The same for a value without quotes, in front of a `,` or a `}`. */
  lemma PlainSetting(lines: seq<string>, key: string, v: string, s: nat, k: nat, pad: string, fields: string,
                     blanks: string, was: string, tail: string)
    requires FirstOfKey(lines, key, s, k) && pad != "" && Blank(pad) && key != "" && !IsSpace(key[0])
    requires OnlyBlanks(blanks) && ',' !in was && '}' !in was
    requires (was != "" ==> was[0] != '\"' && was[0] != ' ') && tail != "" && (tail[0] == ',' || tail[0] == '}')
    requires var head := pad + (key + ":" + (" " + fields));
             FrontOf(head) && lines[k] == head + "default:" + (blanks + (was + tail))
    ensures var head := pad + (key + ":" + (" " + fields));
            Edit(lines, key, v) == lines[k := head + "default:" + (blanks + Written(v) + tail)]
  {
    var head := pad + (key + ":" + (" " + fields));
    FieldLine(pad, key, fields, blanks + (was + tail), head);
    InlineEntry(lines, key, v, s, k);
    PlainDefault(head, blanks, was, tail, v);
  }
}
