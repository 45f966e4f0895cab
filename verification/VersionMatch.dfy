/** The driver resolver's version requirements. */
module VersionMatch {
  import opened Text

  const U64: nat := 0x1_0000_0000_0000_0000

  /** The value of a run of decimal digits. */
  function Decimal(digits: string): nat {
    if digits == "" then 0
    else
      var d := digits[|digits| - 1];
      10 * Decimal(digits[..|digits| - 1]) + (if IsDigit(d) then d as int - '0' as int else 0)
  }

  /** What a maximal run of digits contributes: nothing when empty or too large for 64 bits. */
  function Part(digits: string): seq<nat> {
    if digits == "" || Decimal(digits) >= U64 then [] else [Decimal(digits)]
  }

  /** The parts of the text behind a run of digits read so far. */
  function PartsFrom(s: string, run: string): seq<nat>
    decreases |s|
  {
    if s == "" then Part(run)
    else if IsDigit(s[0]) then PartsFrom(s[1..], run + [s[0]])
    else Part(run) + PartsFrom(s[1..], "")
  }

  /** `version_parts`: split at every non-digit, keep what parses as a 64-bit number. */
  function VersionParts(s: string): seq<nat> {
    PartsFrom(s, "")
  }

  /** The order of vectors of numbers. */
  predicate Less(a: seq<nat>, b: seq<nat>) {
    b != [] && (a == [] || a[0] < b[0] || (a[0] == b[0] && Less(a[1..], b[1..])))
  }

  function VersionMatches(detected: string, requirement: string): bool {
    var have, req := VersionParts(detected), Trim(requirement);
    if ">=" <= req then !Less(have, VersionParts(Trim(req[2..])))
    else if "<=" <= req then !Less(VersionParts(Trim(req[2..])), have)
    else if ">" <= req then Less(VersionParts(Trim(req[1..])), have)
    else if "<" <= req then Less(have, VersionParts(Trim(req[1..])))
    else have == VersionParts(req)
  }

  // ---- The order is total ----

  lemma {:induction false} Trichotomy(a: seq<nat>, b: seq<nat>)
    ensures (Less(a, b) && a != b && !Less(b, a)) || (!Less(a, b) && a == b && !Less(b, a))
            || (!Less(a, b) && a != b && Less(b, a))
  {
    if a != [] && b != [] && a[0] == b[0] {
      Trichotomy(a[1..], b[1..]);
      assert a == [a[0]] + a[1..] && b == [b[0]] + b[1..];
    }
  }

  lemma {:induction false} LessTransitive(a: seq<nat>, b: seq<nat>, c: seq<nat>)
    requires Less(a, b) && Less(b, c)
    ensures Less(a, c)
  {
    if a != [] && a[0] == b[0] && b[0] == c[0] {
      LessTransitive(a[1..], b[1..], c[1..]);
    }
  }

  /** The lists agree up to `k`, where the first one ends or has the smaller number. */
  predicate BelowAt(a: seq<nat>, b: seq<nat>, k: nat) {
    && k <= |a| && k < |b| && a[..k] == b[..k]
    && (k == |a| || a[k] < b[k])
  }

  /** One list is less than another exactly when it is a proper prefix of it or has the smaller
      number where they first differ. */
  lemma {:induction false} LessMeans(a: seq<nat>, b: seq<nat>)
    ensures Less(a, b) <==> exists k: nat :: BelowAt(a, b, k)
  {
    if a == [] {
      assert b != [] ==> BelowAt(a, b, 0);
    } else if b != [] {
      if a[0] == b[0] {
        LessMeans(a[1..], b[1..]);
        if k: nat :| BelowAt(a[1..], b[1..], k) {
          BelowBehind(a, b, k);
        }
        if k: nat :| BelowAt(a, b, k) {
          BelowBehind(a, b, k - 1);
        }
      } else if a[0] < b[0] {
        assert BelowAt(a, b, 0);
      } else {
        forall k: nat ensures !BelowAt(a, b, k) {
          BelowAtHead(a, b, k);
        }
      }
    }
  }

  lemma BelowAtHead(a: seq<nat>, b: seq<nat>, k: nat)
    requires a != [] && b != []
    ensures BelowAt(a, b, k) ==> a[0] <= b[0]
  {
    if BelowAt(a, b, k) && k > 0 {
      assert a[0] == a[..k][0];
    }
  }

  lemma BelowBehind(a: seq<nat>, b: seq<nat>, k: nat)
    requires a != [] && b != [] && a[0] == b[0]
    ensures BelowAt(a[1..], b[1..], k) <==> BelowAt(a, b, k + 1)
  {
    if k < |a| && k < |b| {
      assert a[..k + 1] == [a[0]] + a[1..][..k];
      assert b[..k + 1] == [b[0]] + b[1..][..k];
      assert a[..k + 1][1..] == a[1..][..k] && b[..k + 1][1..] == b[1..][..k];
    }
  }

  // ---- White space does not matter ----

  lemma {:induction false} TrimEndParts(s: string, run: string)
    ensures PartsFrom(TrimEnd(s), run) == PartsFrom(s, run)
    decreases |s|
  {
    if s != "" && IsSpace(s[|s| - 1]) {
      TrimEndParts(s[..|s| - 1], run);
      DropLast(s, run);
    }
  }

  lemma {:induction false} DropLast(s: string, run: string)
    requires s != "" && !IsDigit(s[|s| - 1])
    ensures PartsFrom(s[..|s| - 1], run) == PartsFrom(s, run)
    decreases |s|
  {
    var front := s[..|s| - 1];
    if front == "" {
      assert s[1..] == "" && PartsFrom(s[1..], "") == [];
      assert Part(run) + [] == Part(run);
    } else {
      assert s[1..][..|s[1..]| - 1] == front[1..];
      DropLast(s[1..], if IsDigit(s[0]) then run + [s[0]] else "");
    }
  }

  lemma {:induction false} TrimStartParts(s: string)
    ensures VersionParts(TrimStart(s)) == VersionParts(s)
    decreases |s|
  {
    if s != "" && IsSpace(s[0]) {
      TrimStartParts(s[1..]);
      assert Part("") + VersionParts(s[1..]) == VersionParts(s[1..]);
    }
  }

  lemma TrimParts(s: string)
    ensures VersionParts(Trim(s)) == VersionParts(s)
  {
    TrimStartParts(s);
    TrimEndParts(TrimStart(s), "");
  }

  // ---- Requirements ----

  lemma {:induction false} TrimEndBehind(op: string, bound: string)
    requires op != "" && !IsSpace(op[|op| - 1])
    ensures TrimEnd(op + bound) == op + TrimEnd(bound)
    decreases |bound|
  {
    if bound == "" {
      assert op + bound == op;
    } else if IsSpace(bound[|bound| - 1]) {
      TrimEndBehind(op, bound[..|bound| - 1]);
      assert (op + bound)[..|op + bound| - 1] == op + bound[..|bound| - 1];
    }
  }

  /** An operator in front of a bound is found again, and the numbers of the bound stay. */
  lemma OperatorSplits(op: string, bound: string)
    requires op != "" && !IsSpace(op[0]) && !IsSpace(op[|op| - 1])
    ensures var req := Trim(op + bound);
            && op <= req && (|req| > |op| ==> bound != "" && req[|op|] == bound[0])
            && VersionParts(Trim(req[|op|..])) == VersionParts(bound)
  {
    TrimEndBehind(op, bound);
    assert Trim(op + bound) == op + TrimEnd(bound) && (op + TrimEnd(bound))[|op|..] == TrimEnd(bound);
    TrimParts(TrimEnd(bound));
    TrimEndParts(bound, "");
  }

  /** A bound that does not look like an operator. */
  predicate IsBound(bound: string) {
    var t := Trim(bound);
    t == "" || (t[0] != '<' && t[0] != '>' && t[0] != '=')
  }

  lemma AtLeastMeans(detected: string, bound: string)
    ensures VersionMatches(detected, ">=" + bound) <==> !Less(VersionParts(detected), VersionParts(bound))
    ensures VersionMatches(detected, "<=" + bound) <==> !Less(VersionParts(bound), VersionParts(detected))
  {
    OperatorSplits(">=", bound);
    OperatorSplits("<=", bound);
  }

  lemma StrictMeans(detected: string, bound: string)
    requires bound != "" ==> bound[0] != '='
    ensures VersionMatches(detected, ">" + bound) <==> Less(VersionParts(bound), VersionParts(detected))
    ensures VersionMatches(detected, "<" + bound) <==> Less(VersionParts(detected), VersionParts(bound))
  {
    OperatorSplits(">", bound);
    OperatorSplits("<", bound);
    assert ">="[1] == '=' && "<="[1] == '=';
  }

  lemma EqualMeans(detected: string, bound: string)
    requires IsBound(bound)
    ensures VersionMatches(detected, bound) <==> VersionParts(detected) == VersionParts(bound)
  {
    TrimParts(bound);
  }

  lemma BoundStart(bound: string)
    requires IsBound(bound)
    ensures bound != "" ==> bound[0] != '='
  {
    if bound != "" && !IsSpace(bound[0]) {
      assert TrimStart(bound) == bound;
    }
  }

  /** What each form of requirement means, for every bound that does not look like an operator. */
  lemma RequirementMeans(detected: string, bound: string)
    requires IsBound(bound)
    ensures var have, want := VersionParts(detected), VersionParts(bound);
            && (VersionMatches(detected, ">=" + bound) <==> !Less(have, want))
            && (VersionMatches(detected, "<=" + bound) <==> !Less(want, have))
            && (VersionMatches(detected, ">" + bound) <==> Less(want, have))
            && (VersionMatches(detected, "<" + bound) <==> Less(have, want))
            && (VersionMatches(detected, bound) <==> have == want)
  {
    BoundStart(bound);
    AtLeastMeans(detected, bound);
    StrictMeans(detected, bound);
    EqualMeans(detected, bound);
  }

  /** Exactly one of below, equal and above matches; at least is the negation of below and at most
      the negation of above. */
  lemma ExactlyOneMatches(detected: string, bound: string)
    requires IsBound(bound)
    ensures var lt, eq, gt := VersionMatches(detected, "<" + bound), VersionMatches(detected, bound),
                              VersionMatches(detected, ">" + bound);
            && (lt || eq || gt) && !(lt && eq) && !(lt && gt) && !(eq && gt)
    ensures VersionMatches(detected, ">=" + bound) <==> !VersionMatches(detected, "<" + bound)
    ensures VersionMatches(detected, "<=" + bound) <==> !VersionMatches(detected, ">" + bound)
  {
    RequirementMeans(detected, bound);
    Trichotomy(VersionParts(detected), VersionParts(bound));
  }

  /** Whatever satisfies a lower bound keeps satisfying it when the version grows. */
  lemma UpwardClosed(older: string, newer: string, bound: string)
    requires VersionMatches(older, ">=" + bound) && !Less(VersionParts(newer), VersionParts(older))
    ensures VersionMatches(newer, ">=" + bound)
  {
    AtLeastMeans(older, bound);
    AtLeastMeans(newer, bound);
    var a, b, want := VersionParts(older), VersionParts(newer), VersionParts(bound);
    Trichotomy(a, b);
    if Less(b, want) && a != b {
      LessTransitive(a, b, want);
    }
  }

  // ---- Printed versions ----

  function PrintNumber(n: nat): (r: string)
    ensures r != "" && forall i :: 0 <= i < |r| ==> IsDigit(r[i])
  {
    var d := [('0' as int + n % 10) as char];
    if n < 10 then d else PrintNumber(n / 10) + d
  }

  function PrintVersion(parts: seq<nat>): string {
    if parts == [] then ""
    else if |parts| == 1 then PrintNumber(parts[0])
    else PrintNumber(parts[0]) + "." + PrintVersion(parts[1..])
  }

  lemma {:induction false} DecimalOfPrinted(n: nat)
    ensures Decimal(PrintNumber(n)) == n
    decreases n
  {
    var s := PrintNumber(n);
    var d := ('0' as int + n % 10) as char;
    assert s[|s| - 1] == d && IsDigit(d);
    if n < 10 {
      assert s[..|s| - 1] == "";
    } else {
      DecimalOfPrinted(n / 10);
      assert s[..|s| - 1] == PrintNumber(n / 10);
    }
  }

  lemma {:induction false} DigitsAbsorb(digits: string, rest: string, run: string)
    requires forall i :: 0 <= i < |digits| ==> IsDigit(digits[i])
    ensures PartsFrom(digits + rest, run) == PartsFrom(rest, run + digits)
    decreases |digits|
  {
    if digits == "" {
      assert digits + rest == rest && run + digits == run;
    } else {
      assert (digits + rest)[1..] == digits[1..] + rest;
      DigitsAbsorb(digits[1..], rest, run + [digits[0]]);
      assert run + [digits[0]] + digits[1..] == run + digits;
    }
  }

  lemma PartsOfDigits(digits: string, rest: string)
    requires digits != "" && forall i :: 0 <= i < |digits| ==> IsDigit(digits[i])
    ensures VersionParts(digits) == Fitting([Decimal(digits)])
    ensures VersionParts(digits + "." + rest) == Fitting([Decimal(digits)]) + VersionParts(rest)
  {
    OnePart(digits);
    PointBehind(digits, rest);
    PointEnds(rest, digits);
    assert [Decimal(digits)][1..] == [];
  }

  lemma PointBehind(digits: string, rest: string)
    requires forall i :: 0 <= i < |digits| ==> IsDigit(digits[i])
    ensures VersionParts(digits + "." + rest) == PartsFrom("." + rest, digits)
  {
    assert "" + digits == digits && digits + "." + rest == digits + ("." + rest);
    DigitsAbsorb(digits, "." + rest, "");
  }

  lemma OnePart(digits: string)
    requires forall i :: 0 <= i < |digits| ==> IsDigit(digits[i])
    ensures VersionParts(digits) == PartsFrom("", digits)
  {
    assert "" + digits == digits && digits + "" == digits;
    DigitsAbsorb(digits, "", "");
  }

  lemma PointEnds(rest: string, run: string)
    ensures PartsFrom("." + rest, run) == PartsFrom("", run) + PartsFrom(rest, "")
  {
    assert ("." + rest)[1..] == rest;
  }

  /** The numbers that fit 64 bits. */
  function Fitting(parts: seq<nat>): seq<nat> {
    if parts == [] then []
    else (if parts[0] < 0x1_0000_0000_0000_0000 then [parts[0]] else []) + Fitting(parts[1..])
  }

  /** The parts of a printed version are the numbers it was printed from that fit 64 bits. */
  lemma {:induction false} PartsOfPrinted(parts: seq<nat>)
    ensures VersionParts(PrintVersion(parts)) == Fitting(parts)
    ensures (forall i :: 0 <= i < |parts| ==> parts[i] < 0x1_0000_0000_0000_0000) ==> Fitting(parts) == parts
  {
    if parts != [] {
      DecimalOfPrinted(parts[0]);
      PartsOfDigits(PrintNumber(parts[0]), PrintVersion(parts[1..]));
      PartsOfPrinted(parts[1..]);
      assert parts == [parts[0]] + parts[1..];
      assert Fitting([parts[0]]) + Fitting(parts[1..]) == Fitting(parts);
    }
  }
}
