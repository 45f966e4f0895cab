/** The string operations that the engine's parsers and stream filters rely on,
    over sequences of ASCII characters. */
module Text {

  datatype Option<+T> = None | Some(value: T)

  /** White space of the ASCII range: tab to carriage return, and blank. */
  predicate IsSpace(c: char) {
    '\t' <= c <= '\r' || c == ' '
  }

  predicate IsDigit(c: char) {
    '0' <= c <= '9'
  }

  predicate Blank(s: string) {
    forall i :: 0 <= i < |s| ==> IsSpace(s[i])
  }

  predicate Trimmed(s: string) {
    s != "" ==> !IsSpace(s[0]) && !IsSpace(s[|s| - 1])
  }

  function TrimStart(s: string): (r: string)
    ensures |r| <= |s|
    ensures r != "" ==> !IsSpace(r[0])
    decreases |s|
  {
    if s != "" && IsSpace(s[0]) then TrimStart(s[1..]) else s
  }

  function TrimEnd(s: string): (r: string)
    ensures |r| <= |s|
    ensures r != "" ==> r[0] == s[0] && !IsSpace(r[|r| - 1])
    ensures s != "" && !IsSpace(s[0]) ==> r != ""
    decreases |s|
  {
    if s != "" && IsSpace(s[|s| - 1]) then TrimEnd(s[..|s| - 1]) else s
  }

  /** `str::trim` */
  function Trim(s: string): (r: string)
    ensures |r| <= |s| && Trimmed(r)
  {
    TrimEnd(TrimStart(s))
  }

  lemma {:induction false} TrimBlank(s: string)
    ensures TrimStart(s) == "" <==> Blank(s)
    ensures Trim(s) == "" <==> Blank(s)
    decreases |s|
  {
    if s != "" && IsSpace(s[0]) {
      TrimBlank(s[1..]);
      assert s == [s[0]] + s[1..];
    }
  }

  /** The text `p` stands in `s` at index `i`. */
  predicate HasAt(s: string, p: string, i: int) {
    0 <= i && i + |p| <= |s| && s[i..i + |p|] == p
  }

  predicate FirstAt(s: string, p: string, k: int) {
    HasAt(s, p, k) && forall j :: 0 <= j < k ==> !HasAt(s, p, j)
  }

  lemma FirstExists(s: string, p: string, i: nat)
    ensures HasAt(s, p, i) ==> exists k: nat :: k <= |s| && FirstAt(s, p, k)
  {
    if j: nat :| j < i && HasAt(s, p, j) {
      FirstExists(s, p, j);
    } else {
      assert HasAt(s, p, i) ==> FirstAt(s, p, i);
    }
  }

  /** `str::find`: the first occurrence of `p`. */
  function Find(s: string, p: string): (r: Option<nat>)
    ensures r.Some? ==> HasAt(s, p, r.value) && forall j :: j < r.value ==> !HasAt(s, p, j)
    ensures r.None? ==> forall j :: !HasAt(s, p, j)
  {
    if exists k: nat :: k <= |s| && FirstAt(s, p, k) then
      var k: nat :| k <= |s| && FirstAt(s, p, k);
      Some(k)
    else
      assert forall j :: !HasAt(s, p, j) by {
        forall j ensures !HasAt(s, p, j) {
          if j >= 0 {
            FirstExists(s, p, j);
          }
        }
      }
      None
  }

  /** `str::contains` */
  predicate Contains(s: string, p: string) {
    Find(s, p).Some?
  }

  lemma ContainsAt(s: string, p: string, i: int)
    requires HasAt(s, p, i)
    ensures Contains(s, p) && Find(s, p).value <= i
  {
  }

  lemma FindIs(s: string, p: string, k: nat)
    requires HasAt(s, p, k) && forall j :: 0 <= j < k ==> !HasAt(s, p, j)
    ensures Find(s, p) == Some(k)
  {
  }

  /** The last occurrence of `p` at or before `i`. */
  function RFindFrom(s: string, p: string, i: nat): (r: Option<nat>)
    ensures r.Some? ==> r.value <= i && HasAt(s, p, r.value) && forall j :: r.value < j <= i ==> !HasAt(s, p, j)
    ensures r.None? ==> forall j :: j <= i ==> !HasAt(s, p, j)
  {
    if HasAt(s, p, i) then Some(i)
    else if i == 0 then None
    else RFindFrom(s, p, i - 1)
  }

  /** `str::rfind`: the last occurrence of `p`. */
  function RFind(s: string, p: string): (r: Option<nat>)
    ensures r.Some? ==> HasAt(s, p, r.value) && forall j :: r.value < j ==> !HasAt(s, p, j)
    ensures r.None? ==> forall j :: !HasAt(s, p, j)
  {
    RFindFrom(s, p, |s|)
  }

  /** `str::find` of a single character. */
  function FindChar(s: string, c: char): (r: Option<nat>)
    ensures r.Some? ==> r.value < |s| && s[r.value] == c && c !in s[..r.value]
    ensures r.None? ==> c !in s
  {
    if s == "" then None
    else if s[0] == c then Some(0)
    else
      var k := FindChar(s[1..], c);
      if k.None? then
        assert s == [s[0]] + s[1..];
        None
      else
        assert s[..k.value + 1] == [s[0]] + s[1..][..k.value];
        Some(k.value + 1)
  }

  lemma FindCharIs(a: string, c: char, b: string)
    requires c !in a
    ensures FindChar(a + [c] + b, c) == Some(|a|)
  {
    var s := a + [c] + b;
    assert s[|a|] == c;
    var k := FindChar(s, c);
    assert k.Some? && k.value >= |a|;
    assert forall i :: |a| < i <= |s| ==> s[|a|] in s[..i];
  }

  /** `str::rfind` of a single character. */
  function RFindChar(s: string, c: char): (r: Option<nat>)
    ensures r.Some? ==> r.value < |s| && s[r.value] == c && c !in s[r.value + 1..]
    ensures r.None? ==> c !in s
  {
    if s == "" then None
    else if s[|s| - 1] == c then Some(|s| - 1)
    else
      var k := RFindChar(s[..|s| - 1], c);
      assert s == s[..|s| - 1] + [s[|s| - 1]];
      if k.Some? then
        assert s[k.value + 1..] == s[..|s| - 1][k.value + 1..] + [s[|s| - 1]];
        k
      else None
  }

  /** `str::split` by a non-empty text: the pieces between the occurrences found from left to right. */
  function Split(s: string, p: string): (r: seq<string>)
    requires p != ""
    ensures |r| >= 1 && forall i :: 0 <= i < |r| ==> |r[i]| <= |s|
    decreases |s|
  {
    match Find(s, p)
    case None => [s]
    case Some(k) => [s[..k]] + Split(s[k + |p|..], p)
  }

  function TrimAll(ss: seq<string>): (r: seq<string>)
    ensures |r| == |ss| && forall i :: 0 <= i < |ss| ==> r[i] == Trim(ss[i])
  {
    seq(|ss|, i requires 0 <= i < |ss| => Trim(ss[i]))
  }

  /** The part before the first occurrence of `p`: `s.split(p).next()`. */
  function Before(s: string, p: string): string {
    match Find(s, p)
    case None => s
    case Some(k) => s[..k]
  }

  /** `s.trim_matches(c)`: drop every leading and trailing `c`. */
  function TrimMatches(s: string, c: char): string
    decreases |s|
  {
    if s != "" && s[0] == c then TrimMatches(s[1..], c)
    else if s != "" && s[|s| - 1] == c then TrimMatches(s[..|s| - 1], c)
    else s
  }

  // ---- Facts about trimming and searching concatenations ----

  lemma {:induction false} TrimStartPad(a: string, m: string)
    requires Blank(a) && (m != "" ==> !IsSpace(m[0]))
    ensures TrimStart(a + m) == m
  {
    if a == "" {
      assert a + m == m;
    } else {
      TrimStartPad(a[1..], m);
      assert (a + m)[1..] == a[1..] + m;
    }
  }

  lemma {:induction false} TrimEndPad(m: string, b: string)
    requires Blank(b) && (m != "" ==> !IsSpace(m[|m| - 1]))
    ensures TrimEnd(m + b) == m
  {
    if b == "" {
      assert m + b == m;
    } else {
      TrimEndPad(m, b[..|b| - 1]);
      assert (m + b)[..|m + b| - 1] == m + b[..|b| - 1];
    }
  }

  /** Blank padding around a trimmed text is what `Trim` removes. */
  lemma TrimPad(a: string, m: string, b: string)
    requires Blank(a) && Blank(b) && Trimmed(m)
    ensures Trim(a + m + b) == m
  {
    if m == "" {
      assert Blank(a + m + b);
      TrimBlank(a + m + b);
    } else {
      assert a + m + b == a + (m + b);
      TrimStartPad(a, m + b);
      TrimEndPad(m, b);
    }
  }

  lemma TrimId(m: string)
    requires Trimmed(m)
    ensures Trim(m) == m
  {
    TrimPad("", m, "");
    assert "" + m + "" == m;
  }

  lemma HasAtChar(s: string, p: string, i: int, k: nat)
    requires k < |p|
    ensures HasAt(s, p, i) ==> s[i + k] == p[k]
  {
  }

  /** An occurrence of a text without blanks does not cross a blank. */
  lemma HasAtAroundBlank(a: string, b: string, p: string, j: nat)
    requires p != "" && ' ' !in p
    ensures HasAt(a + " " + b, p, j) ==> HasAt(a, p, j) || (j > |a| && HasAt(b, p, j - |a| - 1))
  {
    var s := a + " " + b;
    if HasAt(s, p, j) {
      forall i | j <= i < j + |p| ensures s[i] != ' ' {
        assert s[i] == p[i - j];
      }
      assert s[|a|] == ' ';
      if j + |p| <= |a| {
        assert a[j..j + |p|] == s[j..j + |p|];
      } else {
        assert b[j - |a| - 1..j - |a| - 1 + |p|] == s[j..j + |p|];
      }
    }
  }

  lemma HasAtPrefix(a: string, b: string, p: string, j: nat)
    requires j + |p| <= |a|
    ensures HasAt(a + b, p, j) <==> HasAt(a, p, j)
  {
    assert (a + b)[j..j + |p|] == a[j..j + |p|];
  }

  /** One step of splitting: the piece in front of the first separator, and the rest. */
  lemma SplitStep(head: string, sep: string, rest: string)
    requires sep != "" && Find(head + sep + rest, sep) == Some(|head|)
    ensures Split(head + sep + rest, sep) == [head] + Split(rest, sep)
  {
    var s := head + sep + rest;
    assert s[..|head|] == head && s[|head| + |sep|..] == rest;
  }
}
