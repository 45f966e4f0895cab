/** The editor that changes one `default:` value in the settings block of a manifest, line by line. */
module SettingEdit {
  import opened Text

  const DEFAULT := "default:"

  function Indent(line: string): (r: nat)
    ensures r <= |line|
  {
    |line| - |TrimStart(line)|
  }

  function Spaces(n: nat): (r: string)
    ensures |r| == n && Blank(r) && forall i :: 0 <= i < n ==> r[i] == ' '
  {
    seq(n, i requires 0 <= i < n => ' ')
  }

  predicate IsTarget(line: string, key: string) {
    var t := Trim(line);
    t == key + ":" || key + ": " <= t || key + ":{" <= t
  }

  // ---- One line ----

  function LeadingBlanks(s: string): (n: nat)
    ensures n <= |s| && (forall i :: 0 <= i < n ==> s[i] == ' ') && (n < |s| ==> s[n] != ' ')
  {
    if s != "" && s[0] == ' ' then
      var n := LeadingBlanks(s[1..]);
      assert forall i :: 0 < i <= n ==> s[i] == s[1..][i - 1];
      n + 1
    else 0
  }

  predicate EndsValue(c: char) {
    c == ',' || c == '}'
  }

  function FindEnd(s: string): (r: Option<nat>)
    ensures r.Some? ==> r.value < |s| && EndsValue(s[r.value]) && forall i :: 0 <= i < r.value ==> !EndsValue(s[i])
    ensures r.None? ==> forall i :: 0 <= i < |s| ==> !EndsValue(s[i])
  {
    if s == "" then None
    else if EndsValue(s[0]) then Some(0)
    else
      var k := FindEnd(s[1..]);
      assert forall i :: 0 < i < |s| ==> s[i] == s[1..][i - 1];
      if k.None? then None else Some(k.value + 1)
  }

  /** The length of the old value at the start of `s`. */
  function ValueLength(s: string): (n: nat)
    ensures n <= |s|
  {
    if s != "" && s[0] == '\"' then
      match FindChar(s[1..], '\"') case Some(p) => p + 2 case None => |s|
    else
      match FindEnd(s) case Some(end) => end case None => |TrimEnd(s)|
  }

  predicate NeedsQuotes(v: string) {
    v == "" || exists i :: 0 <= i < |v| && (v[i] == ',' || v[i] == '}' || v[i] == ' ' || v[i] == ':')
  }

  function NewText(was: string, v: string): string {
    if (was != "" && was[0] == '\"') || NeedsQuotes(v) then "\"" + v + "\"" else v
  }

  /** What stands behind `default:` after the edit. */
  function ReplaceValue(after: string, v: string): string {
    var n := LeadingBlanks(after);
    var was := after[n..];
    after[..n] + NewText(was, v) + was[ValueLength(was)..]
  }

  function ReplaceDefaultInline(line: string, v: string): string {
    match Find(line, DEFAULT)
    case None => line
    case Some(at) => line[..at + 8] + ReplaceValue(line[at + 8..], v)
  }

  datatype Scan = Scan(inSettings: bool, inTarget: bool, baseIndent: nat, done: bool)

  const START := Scan(false, false, 0, false)

  /** The state behind a line. */
  function NextScan(st: Scan, line: string, key: string): Scan {
    var indent, t := Indent(line), Trim(line);
    if st.done then st
    else if !st.inSettings then (if t == "settings:" then st.(inSettings := true) else st)
    else if indent == 0 && t != "" then st.(inSettings := false, inTarget := false)
    else if t == "" then st
    else if IsTarget(line, key) && !st.inTarget then
      if Contains(t, DEFAULT) then st.(baseIndent := indent, done := true)
      else st.(baseIndent := indent, inTarget := true)
    else if st.inTarget then
      if indent > st.baseIndent then
        if DEFAULT <= t then st.(done := true, inTarget := false) else st
      else st.(inTarget := false)
    else st
  }

  /** The line holds the default that is being looked for: inline, or in the key's block. */
  predicate Hits(st: Scan, line: string, key: string) {
    !st.done && NextScan(st, line, key).done
  }

  /** The line that is written. */
  function NewLine(st: Scan, line: string, key: string, v: string): string {
    if !Hits(st, line, key) then line
    else if st.inTarget then Spaces(Indent(line)) + "default: " + v
    else ReplaceDefaultInline(line, v)
  }

  function EditFrom(lines: seq<string>, st: Scan, key: string, v: string): (r: seq<string>)
    ensures |r| == |lines|
  {
    if lines == [] then []
    else [NewLine(st, lines[0], key, v)] + EditFrom(lines[1..], NextScan(st, lines[0], key), key, v)
  }

  /** The lines after setting `key` to `v`. */
  function Edit(lines: seq<string>, key: string, v: string): (r: seq<string>)
    ensures |r| == |lines|
  {
    EditFrom(lines, START, key, v)
  }

  method UpdateSettingDefault(lines: seq<string>, key: string, v: string) returns (result: seq<string>)
    ensures result == Edit(lines, key, v)
  {
    result := [];
    var st := START;
    for i := 0 to |lines|
      invariant result + EditFrom(lines[i..], st, key, v) == Edit(lines, key, v)
    {
      assert lines[i..][0] == lines[i] && lines[i..][1..] == lines[i + 1..];
      var out;
      st, out := EditLine(st, lines[i], key, v);
      result := result + [out];
    }
  }

  /** One turn of the editor's loop. */
  method EditLine(st: Scan, line: string, key: string, v: string) returns (next: Scan, out: string)
    ensures next == NextScan(st, line, key) && out == NewLine(st, line, key, v)
  {
    var Scan(inSettings, inTarget, baseIndent, done) := st;
    var indent, trimmed := Indent(line), Trim(line);
    out := line;
    if done {
    } else if !inSettings {
      if trimmed == "settings:" { inSettings := true; }
    } else if indent == 0 && trimmed != "" {
      inSettings, inTarget := false, false;
    } else if trimmed == "" {
    } else if IsTarget(line, key) && !inTarget {
      baseIndent := indent;
      if Contains(trimmed, DEFAULT) {
        out := ReplaceDefaultInline(line, v);
        done := true;
      } else {
        inTarget := true;
      }
    } else if inTarget {
      if indent > baseIndent {
        if DEFAULT <= trimmed {
          out := Spaces(indent) + "default: " + v;
          done, inTarget := true, false;
        }
      } else {
        inTarget := false;
      }
    }
    next := Scan(inSettings, inTarget, baseIndent, done);
  }

  // ---- Locality ----

  lemma {:induction false} DoneKeeps(lines: seq<string>, st: Scan, key: string, v: string)
    requires st.done
    ensures EditFrom(lines, st, key, v) == lines
  {
    if lines != [] {
      DoneKeeps(lines[1..], st, key, v);
      assert lines == [lines[0]] + lines[1..];
    }
  }

  /** The state in front of line `i`. */
  function StateAt(lines: seq<string>, i: nat, key: string): Scan
    requires i <= |lines|
  {
    if i == 0 then START else NextScan(StateAt(lines, i - 1, key), lines[i - 1], key)
  }

  lemma {:induction false} EditAt(lines: seq<string>, i: nat, key: string, v: string)
    requires i <= |lines|
    ensures Edit(lines, key, v)[i..] == EditFrom(lines[i..], StateAt(lines, i, key), key, v)
    decreases i
  {
    if i == 0 {
      assert lines[0..] == lines;
    } else {
      EditAt(lines, i - 1, key, v);
      assert lines[i - 1..][1..] == lines[i..];
      assert Edit(lines, key, v)[i..] == Edit(lines, key, v)[i - 1..][1..];
    }
  }

  /** Line `i` lies in a settings block: below a `settings:` line with nothing but blank and
      indented lines in between. */
  ghost predicate InBlock(lines: seq<string>, i: nat) {
    exists s :: 0 <= s < i && i < |lines| && Trim(lines[s]) == "settings:" && BlockFrom(lines, s, i)
  }

  predicate Inside(line: string) {
    Trim(line) == "" || Indent(line) > 0
  }

  ghost predicate BlockFrom(lines: seq<string>, s: nat, i: nat)
    requires i < |lines|
  {
    forall j :: s < j <= i ==> Inside(lines[j])
  }

  lemma {:induction false} InSettingsMeans(lines: seq<string>, i: nat, key: string) returns (s: nat)
    requires i <= |lines| && StateAt(lines, i, key).inSettings && !StateAt(lines, i, key).done
    ensures s < i && Trim(lines[s]) == "settings:"
    ensures forall j :: s < j < i ==> Inside(lines[j])
    decreases i
  {
    var before := StateAt(lines, i - 1, key);
    if before.inSettings {
      s := InSettingsMeans(lines, i - 1, key);
    } else {
      s := i - 1;
    }
  }

  lemma {:induction false} StaysDone(lines: seq<string>, i: nat, j: nat, key: string)
    requires i <= j <= |lines| && StateAt(lines, i, key).done
    ensures StateAt(lines, j, key).done
    decreases j
  {
    if i < j {
      StaysDone(lines, i, j - 1, key);
    }
  }

  /** Line `i` belongs to the key on line `k`: it is that line, or every line in between and line
      `i` are blank or indented deeper. */
  ghost predicate Owns(lines: seq<string>, k: nat, i: nat, key: string) {
    && k <= i < |lines| && IsTarget(lines[k], key)
    && forall j :: k < j <= i ==> Trim(lines[j]) == "" || Indent(lines[j]) > Indent(lines[k])
  }

  lemma {:induction false} InTargetMeans(lines: seq<string>, i: nat, key: string) returns (k: nat)
    requires i <= |lines| && StateAt(lines, i, key).inTarget && !StateAt(lines, i, key).done
    ensures k < i && IsTarget(lines[k], key) && Indent(lines[k]) == StateAt(lines, i, key).baseIndent
    ensures forall j :: k < j < i ==> Trim(lines[j]) == "" || Indent(lines[j]) > Indent(lines[k])
    decreases i
  {
    var before := StateAt(lines, i - 1, key);
    if before.inTarget {
      k := InTargetMeans(lines, i - 1, key);
      InTargetInside(lines, i - 1, key);
      StaysInTarget(before, lines[i - 1], key);
    } else {
      EntersTarget(before, lines[i - 1], key);
      k := i - 1;
    }
  }

  lemma EntersTarget(st: Scan, line: string, key: string)
    requires !st.inTarget && NextScan(st, line, key).inTarget
    ensures IsTarget(line, key) && Indent(line) == NextScan(st, line, key).baseIndent
  {
  }

  /** A block that is not left by a line has that line inside. */
  lemma StaysInTarget(st: Scan, line: string, key: string)
    requires st.inSettings && st.inTarget && NextScan(st, line, key).inTarget && !NextScan(st, line, key).done
    ensures Trim(line) == "" || Indent(line) > st.baseIndent
    ensures NextScan(st, line, key).baseIndent == st.baseIndent && !st.done
  {
  }

  /** The key's block is left with the settings block. */
  lemma {:induction false} InTargetInside(lines: seq<string>, i: nat, key: string)
    requires i <= |lines| && StateAt(lines, i, key).inTarget
    ensures StateAt(lines, i, key).inSettings
    decreases i
  {
    if StateAt(lines, i - 1, key).inTarget {
      InTargetInside(lines, i - 1, key);
    }
  }

  lemma ChangedLine(lines: seq<string>, key: string, v: string, i: nat)
    requires i < |lines| && Edit(lines, key, v)[i] != lines[i]
    ensures var st := StateAt(lines, i, key);
            && !st.done && st.inSettings && StateAt(lines, i + 1, key).done
            && Inside(lines[i])
  {
    EditAt(lines, i, key, v);
    assert lines[i..][0] == lines[i] && Edit(lines, key, v)[i..][0] == Edit(lines, key, v)[i];
  }

  lemma ChangedByHit(lines: seq<string>, key: string, v: string, i: nat)
    requires i < |lines| && Edit(lines, key, v)[i] != lines[i]
    ensures var st := StateAt(lines, i, key);
            Hits(st, lines[i], key) && Edit(lines, key, v)[i] == NewLine(st, lines[i], key, v)
  {
    EditAt(lines, i, key, v);
    assert lines[i..][0] == lines[i] && Edit(lines, key, v)[i..][0] == Edit(lines, key, v)[i];
  }

  lemma ChangedIsOwned(lines: seq<string>, key: string, v: string, i: nat) returns (k: nat)
    requires i < |lines| && Edit(lines, key, v)[i] != lines[i]
    ensures Owns(lines, k, i, key)
  {
    ChangedLine(lines, key, v, i);
    var st := StateAt(lines, i, key);
    if st.inTarget {
      k := InTargetMeans(lines, i, key);
    } else {
      k := i;
    }
  }

  lemma OneChange(lines: seq<string>, key: string, v: string, i: nat, j: nat)
    requires i < j < |lines| && Edit(lines, key, v)[i] != lines[i]
    ensures Edit(lines, key, v)[j] == lines[j]
  {
    ChangedLine(lines, key, v, i);
    StaysDone(lines, i + 1, j, key);
    if Edit(lines, key, v)[j] != lines[j] {
      ChangedLine(lines, key, v, j);
    }
  }

  /** The two ways in which a line is rewritten. */
  predicate Rewritten(line: string, out: string, v: string) {
    || (DEFAULT <= Trim(line) && out == Spaces(Indent(line)) + "default: " + v)
    || (Contains(Trim(line), DEFAULT) && out == ReplaceDefaultInline(line, v))
  }

  lemma HitRewrites(st: Scan, line: string, key: string, v: string)
    requires Hits(st, line, key)
    ensures Rewritten(line, NewLine(st, line, key, v), v)
  {
  }

  /** An edit changes at most one line, and only inside a settings block and inside the part of it
      that belongs to the key. The new line gives the default the new value: after `default:` in a
      block, in place of the old value in an inline mapping. */
  lemma EditIsLocal(lines: seq<string>, key: string, v: string, i: nat, j: nat)
    requires i < |lines| && j < |lines| && j != i
    requires Edit(lines, key, v)[i] != lines[i]
    ensures InBlock(lines, i) && exists k :: Owns(lines, k, i, key)
    ensures Rewritten(lines[i], Edit(lines, key, v)[i], v)
    ensures Edit(lines, key, v)[j] == lines[j]
  {
    if i < j {
      OneChange(lines, key, v, i, j);
    } else if Edit(lines, key, v)[j] != lines[j] {
      OneChange(lines, key, v, j, i);
    }
    ChangedByHit(lines, key, v, i);
    HitRewrites(StateAt(lines, i, key), lines[i], key, v);
    ChangedInBlock(lines, key, v, i);
    var k := ChangedIsOwned(lines, key, v, i);
  }

  lemma ChangedInBlock(lines: seq<string>, key: string, v: string, i: nat)
    requires i < |lines| && Edit(lines, key, v)[i] != lines[i]
    ensures InBlock(lines, i)
  {
    ChangedLine(lines, key, v, i);
    var s := InSettingsMeans(lines, i, key);
  }

  // ---- Idempotence ----

  /** A key whose own colon does not end a `default:`. */
  predicate GoodKey(key: string) {
    !Contains(key + ":", DEFAULT)
  }

  /** A value without quotes, and without white space other than blanks. */
  predicate GoodValue(v: string) {
    forall i :: 0 <= i < |v| ==> v[i] != '\"' && (IsSpace(v[i]) ==> v[i] == ' ')
  }

  lemma BlanksBehind(blanks: string, rest: string)
    requires (forall i :: 0 <= i < |blanks| ==> blanks[i] == ' ') && rest != "" && rest[0] != ' '
    ensures LeadingBlanks(blanks + rest) == |blanks|
  {
    var s := blanks + rest;
    var n := LeadingBlanks(s);
    forall i | 0 <= i < |blanks| ensures s[i] == ' ' {
      assert s[i] == blanks[i];
    }
    assert s[|blanks|] == rest[0];
  }

  lemma QuotedLength(v: string, tail: string)
    requires '\"' !in v
    ensures ValueLength("\"" + v + "\"" + tail) == |v| + 2
  {
    var s := "\"" + v + "\"" + tail;
    assert s[1..] == v + ['\"'] + tail;
    FindCharIs(v, '\"', tail);
  }

  /** The old value ends at a separator or at the end of the text, but for white space. */
  predicate ValueTail(tail: string) {
    Blank(tail) || (tail != "" && EndsValue(tail[0]))
  }

  lemma PlainLength(v: string, tail: string)
    requires GoodValue(v) && !NeedsQuotes(v) && ValueTail(tail)
    ensures ValueLength(v + tail) == |v|
  {
    var s := v + tail;
    assert v[0] == s[0];
    assert forall i :: 0 <= i < |v| ==> s[i] == v[i];
    if Blank(tail) {
      forall i | 0 <= i < |s| ensures !EndsValue(s[i]) {
        assert i >= |v| ==> s[i] == tail[i - |v|];
      }
      assert FindEnd(s).None?;
      assert !IsSpace(v[|v| - 1]);
      TrimEndPad(v, tail);
    } else {
      assert s[|v|] == tail[0];
    }
  }

  lemma {:induction false} TrimEndTail(s: string)
    ensures Blank(s[|TrimEnd(s)|..])
  {
    if s != "" && IsSpace(s[|s| - 1]) {
      var t := s[..|s| - 1];
      TrimEndTail(t);
      assert s[|TrimEnd(s)|..] == t[|TrimEnd(t)|..] + [s[|s| - 1]];
    }
  }

  lemma TailOfPlain(was: string)
    requires !(was != "" && was[0] == '\"')
    ensures ValueTail(was[ValueLength(was)..])
  {
    TrimEndTail(was);
  }

  /** Replacing a replaced value by the same value changes nothing. */
  lemma ReplaceTwice(after: string, v: string)
    requires GoodValue(v)
    ensures ReplaceValue(ReplaceValue(after, v), v) == ReplaceValue(after, v)
  {
    var n := LeadingBlanks(after);
    var was := after[n..];
    var tail := was[ValueLength(was)..];
    var text := NewText(was, v);
    var again := ReplaceValue(after, v);
    assert again == after[..n] + (text + tail);
    BlanksBehind(after[..n], text + tail);
    assert again[n..] == text + tail && again[..n] == after[..n];
    NewTextAgain(was, v);
  }

  lemma NewTextAgain(was: string, v: string)
    requires GoodValue(v)
    ensures var text, tail := NewText(was, v), was[ValueLength(was)..];
            NewText(text + tail, v) == text && (text + tail)[ValueLength(text + tail)..] == tail
  {
    var text, tail := NewText(was, v), was[ValueLength(was)..];
    if (was != "" && was[0] == '\"') || NeedsQuotes(v) {
      QuotedLength(v, tail);
    } else {
      TailOfPlain(was);
      PlainLength(v, tail);
    }
  }

  /** The first `default:` of a line stays where it is. */
  lemma InlineTwice(line: string, v: string)
    requires GoodValue(v) && Contains(line, DEFAULT)
    ensures var at := Find(line, DEFAULT).value;
            var out := ReplaceDefaultInline(line, v);
            && at + 8 <= |line| && at + 8 <= |out| && out[..at + 8] == line[..at + 8]
            && ReplaceDefaultInline(out, v) == out
  {
    var at := Find(line, DEFAULT).value;
    assert line == line[..at + 8] + line[at + 8..];
    InlineParts(line[..at + 8], line[at + 8..], v, at);
    InlineParts(line[..at + 8], ReplaceValue(line[at + 8..], v), v, at);
    ReplaceTwice(line[at + 8..], v);
  }

  lemma InlineParts(head: string, rest: string, v: string, at: nat)
    requires |head| == at + 8 && Find(head + rest, DEFAULT) == Some(at)
    ensures ReplaceDefaultInline(head + rest, v) == head + ReplaceValue(rest, v)
    ensures Find(head + ReplaceValue(rest, v), DEFAULT) == Some(at)
  {
    assert (head + rest)[..at + 8] == head && (head + rest)[at + 8..] == rest;
    FirstStays(head, rest, ReplaceValue(rest, v), at);
  }

  lemma FirstStays(head: string, a: string, b: string, at: nat)
    requires |head| == at + 8 && Find(head + a, DEFAULT) == Some(at)
    ensures Find(head + b, DEFAULT) == Some(at)
  {
    forall j: nat | j <= at ensures HasAt(head + b, DEFAULT, j) <==> HasAt(head + a, DEFAULT, j) {
      HasAtPrefix(head, a, DEFAULT, j);
      HasAtPrefix(head, b, DEFAULT, j);
    }
    FindIs(head + b, DEFAULT, at);
  }

  lemma {:induction false} TrimStartSplit(line: string)
    ensures line == line[..Indent(line)] + TrimStart(line) && Blank(line[..Indent(line)])
    decreases |line|
  {
    if line != "" && IsSpace(line[0]) {
      var rest := line[1..];
      TrimStartSplit(rest);
      assert Indent(line) == Indent(rest) + 1;
      assert line[..Indent(line)] == [line[0]] + rest[..Indent(rest)];
    }
  }

  lemma {:induction false} TrimEndIsPrefix(s: string)
    ensures TrimEnd(s) <= s
  {
    if s != "" && IsSpace(s[|s| - 1]) {
      TrimEndIsPrefix(s[..|s| - 1]);
    }
  }

  /** A text that stands in the trimmed line stands in the line. */
  lemma TrimmedInLine(line: string, p: string, j: nat)
    requires HasAt(Trim(line), p, j)
    ensures HasAt(line, p, Indent(line) + j)
  {
    var t := TrimStart(line);
    TrimStartSplit(line);
    TrimEndIsPrefix(t);
  }

  /** What a line and its edit have in common: the text up to `n`, which holds more than the
      indentation and ends in something that is not white space. */
  lemma SameStart(line: string, out: string, n: nat)
    requires n <= |line| && n <= |out| && line[..n] == out[..n]
    requires Indent(line) < n && !IsSpace(line[n - 1])
    ensures Indent(out) == Indent(line)
    ensures line[Indent(line)..n] <= Trim(out)
  {
    var k := Indent(line);
    TrimStartSplit(line);
    assert line[k] == TrimStart(line)[0];
    var rest := out[k..];
    assert out == out[..k] + rest && out[..k] == line[..k] && rest[0] == line[k];
    TrimStartPad(out[..k], rest);
    TrimEndKeeps(rest, n - k);
    TrimEndIsPrefix(rest);
    assert rest[..n - k] == line[k..n];
  }

  lemma {:induction false} TrimEndKeeps(s: string, n: nat)
    requires 0 < n <= |s| && !IsSpace(s[n - 1])
    ensures |TrimEnd(s)| >= n
  {
    if IsSpace(s[|s| - 1]) {
      TrimEndKeeps(s[..|s| - 1], n);
    }
  }

  /** In a target line the first `default:` stands behind the key and its colon. */
  lemma DefaultBehindKey(t: string, key: string, at: nat)
    requires GoodKey(key) && (key + ": " <= t || key + ":{" <= t) && HasAt(t, DEFAULT, at)
    ensures at > |key|
  {
    assert t[..|key| + 1] == key + ":";
    assert t[|key|] == ':';
    assert t == t[..|key| + 1] + t[|key| + 1..];
    if at + 8 <= |key| + 1 {
      HasAtPrefix(t[..|key| + 1], t[|key| + 1..], DEFAULT, at);
    } else if at <= |key| {
      HasAtChar(t, DEFAULT, at, |key| - at);
    }
  }

  /** The edited target line is still a target line with a `default:`. */
  lemma InlineStaysTarget(line: string, key: string, v: string)
    requires GoodKey(key) && GoodValue(v) && IsTarget(line, key) && Contains(Trim(line), DEFAULT)
    ensures var out := ReplaceDefaultInline(line, v);
            && Indent(out) == Indent(line) && Trim(out) != "" && IsTarget(out, key) && Contains(Trim(out), DEFAULT)
            && ReplaceDefaultInline(out, v) == out
  {
    TrimmedInLine(line, DEFAULT, Find(Trim(line), DEFAULT).value);
    InlineTwice(line, v);
    InlineKeepsShape(line, ReplaceDefaultInline(line, v), key, Find(line, DEFAULT).value);
  }

  lemma InlineKeepsShape(line: string, out: string, key: string, at: nat)
    requires GoodKey(key) && IsTarget(line, key) && Find(line, DEFAULT) == Some(at)
    requires at + 8 <= |out| && out[..at + 8] == line[..at + 8]
    ensures Indent(out) == Indent(line) && Trim(out) != "" && IsTarget(out, key) && Contains(Trim(out), DEFAULT)
  {
    DefaultInTrimmed(line, at);
    HasAtChar(line, DEFAULT, at, 7);
    SameStart(line, out, at + 8);
    KeepsTarget(line, Trim(line), Trim(out), key, Indent(line), at);
  }

  lemma KeepsTarget(line: string, t: string, u: string, key: string, k: nat, at: nat)
    requires GoodKey(key) && (t == key + ":" || key + ": " <= t || key + ":{" <= t)
    requires HasAt(line, DEFAULT, at) && k <= at && line[k..at + 8] <= t && line[k..at + 8] <= u
    ensures (key + ": " <= u || key + ":{" <= u) && Contains(u, DEFAULT)
  {
    DefaultInCommon(line, k, at, t);
    KeyInFront(t, key, at - k);
    DefaultInCommon(line, k, at, u);
  }

  lemma DefaultInCommon(line: string, k: nat, at: nat, u: string)
    requires HasAt(line, DEFAULT, at) && k <= at && line[k..at + 8] <= u
    ensures HasAt(u, DEFAULT, at - k) && Contains(u, DEFAULT)
  {
    var common := line[k..at + 8];
    assert common[at - k..at - k + 8] == line[at..at + 8];
    assert u == common + u[|common|..];
    HasAtPrefix(common, u[|common|..], DEFAULT, at - k);
    ContainsAt(u, DEFAULT, at - k);
  }

  /** The first `default:` of a line that has one when trimmed lies behind the indentation. */
  lemma FirstIsTrimmed(line: string)
    requires Contains(line, DEFAULT)
    ensures Indent(line) <= Find(line, DEFAULT).value
  {
    var at := Find(line, DEFAULT).value;
    TrimStartSplit(line);
    HasAtChar(line, DEFAULT, at, 0);
    forall i | 0 <= i < Indent(line) ensures IsSpace(line[i]) {
      assert line[i] == line[..Indent(line)][i];
    }
  }

  /** The first `default:` of a line is in the trimmed line, at the same distance from the
      indentation. */
  lemma DefaultInTrimmed(line: string, at: nat)
    requires Find(line, DEFAULT) == Some(at)
    ensures Indent(line) <= at && line[Indent(line)..at + 8] <= Trim(line)
    ensures HasAt(Trim(line), DEFAULT, at - Indent(line))
  {
    var k, t := Indent(line), Trim(line);
    FirstIsTrimmed(line);
    HasAtChar(line, DEFAULT, at, 7);
    TrimmedStart(line, at + 8);
    DefaultInCommon(line, k, at, t);
  }

  /** In a target text the key stands in front of any `default:`. */
  lemma KeyInFront(t: string, key: string, at: nat)
    requires GoodKey(key) && HasAt(t, DEFAULT, at)
    requires t == key + ":" || key + ": " <= t || key + ":{" <= t
    ensures at > |key| && (key + ": " <= t || key + ":{" <= t)
  {
    if !(key + ": " <= t || key + ":{" <= t) {
      ContainsAt(key + ":", DEFAULT, at);
    } else {
      DefaultBehindKey(t, key, at);
    }
  }

  /** A line up to a character that is not white space, without its indentation, starts the
      trimmed line. */
  lemma TrimmedStart(line: string, n: nat)
    requires Indent(line) < n <= |line| && !IsSpace(line[n - 1])
    ensures line[Indent(line)..n] <= Trim(line)
  {
    var k, rest := Indent(line), TrimStart(line);
    TrimStartSplit(line);
    assert rest == line[k..];
    TrimEndKeeps(rest, n - k);
    TrimEndIsPrefix(rest);
    assert line[k..n] == rest[..n - k];
  }

  /** The line that is written for a block-style default is again one. */
  lemma BlockLineShape(n: nat, v: string)
    ensures var out := Spaces(n) + "default: " + v;
            Indent(out) == n && Trim(out) != "" && DEFAULT <= Trim(out)
  {
    var rest := "default: " + v;
    var out := Spaces(n) + "default: " + v;
    assert out == Spaces(n) + rest;
    TrimStartPad(Spaces(n), rest);
    TrimEndKeeps(rest, 8);
    TrimEndIsPrefix(rest);
    assert rest[..8] == DEFAULT;
  }

  /** A line that was edited is left alone by the same edit. */
  lemma EditLineTwice(st: Scan, line: string, key: string, v: string)
    requires GoodKey(key) && GoodValue(v)
    ensures var out := NewLine(st, line, key, v);
            NextScan(st, out, key) == NextScan(st, line, key) && NewLine(st, out, key, v) == out
  {
    if Hits(st, line, key) {
      if st.inTarget {
        BlockLineShape(Indent(line), v);
      } else {
        InlineStaysTarget(line, key, v);
      }
    }
  }

  lemma {:induction false} EditFromTwice(lines: seq<string>, st: Scan, key: string, v: string)
    requires GoodKey(key) && GoodValue(v)
    ensures EditFrom(EditFrom(lines, st, key, v), st, key, v) == EditFrom(lines, st, key, v)
    decreases |lines|
  {
    if lines != [] {
      var next := NextScan(st, lines[0], key);
      EditLineTwice(st, lines[0], key, v);
      EditFromTwice(lines[1..], next, key, v);
      assert EditFrom(lines, st, key, v)[1..] == EditFrom(lines[1..], next, key, v);
    }
  }

  /** Making the same edit a second time changes nothing. */
  lemma EditIsIdempotent(lines: seq<string>, key: string, v: string)
    requires GoodKey(key) && GoodValue(v)
    ensures Edit(Edit(lines, key, v), key, v) == Edit(lines, key, v)
  {
    EditFromTwice(lines, START, key, v);
  }
}
