/**
 * The probe side of the ping dashboard (Ejemplos/ping.py): the argument
 * vector of one ping, the three round-trip-time patterns, the TTL marker
 * and the liveness rule applied to the text that one probe printed.
 *
 * A compiled Python regular expression is modelled by a matcher that says
 * what the expression captures when a match starts exactly at a position,
 * and `search` by a left-to-right scan for the first such position.
 * `re.IGNORECASE` is ASCII case folding and `\s` is `Text.IsSpace`.
 */
module PingProbe {
  import opened Wrappers
  import opened Text

  /** What `platform.system()` reports, as far as the dashboard tells platforms apart. */
  datatype Platform = Windows | Posix

  /**
   * `build_ping`: one echo request with a one-second wait (`-w` counts
   * milliseconds on Windows, `-W` seconds elsewhere), the host last.
   */
  function BuildPing(platform: Platform, ip: string): (argv: seq<string>)
    ensures |argv| == 6 && argv[0] == "ping" && argv[5] == ip
    ensures platform.Windows? ==> argv[1..5] == ["-n", "1", "-w", "1000"]
    ensures platform.Posix? ==> argv[1..5] == ["-c", "1", "-W", "1"]
  {
    match platform
    case Windows => ["ping", "-n", "1", "-w", "1000", ip]
    case Posix => ["ping", "-c", "1", "-W", "1", ip]
  }

  /** Only the last argument depends on the host. */
  lemma BuildPingFlagsIgnoreHost(platform: Platform, a: string, b: string)
    ensures BuildPing(platform, a)[..5] == BuildPing(platform, b)[..5]
  {
  }

  // ---------------------------------------------------------------------
  // Pieces of the patterns
  // ---------------------------------------------------------------------

  /** `t` with every ASCII capital replaced by its small letter. */
  function LowerAll(t: string): (r: string)
    ensures |r| == |t|
  {
    if t == [] then [] else [Lower(t[0])] + LowerAll(t[1..])
  }

  /** Text without capitals is its own lower-case form. */
  lemma {:induction false} LowerAllOfSmall(t: string)
    requires forall k :: 0 <= k < |t| ==> !('A' <= t[k] <= 'Z')
    ensures LowerAll(t) == t
  {
    if t != [] {
      LowerAllOfSmall(t[1..]);
      assert [t[0]] + t[1..] == t;
    }
  }

  /** `lit`, written in lower case, occurs at `i` up to ASCII case. */
  predicate LiteralAt(s: string, i: nat, lit: string) {
    i + |lit| <= |s| && LowerAll(s[i..i + |lit|]) == lit
  }

  /** `\s*` taken greedily from `i`: the index after the run of whitespace. */
  function SkipSpaces(s: string, i: nat): (j: nat)
    requires i <= |s|
    ensures i <= j <= |s|
    ensures forall k :: i <= k < j ==> IsSpace(s[k])
    ensures j < |s| ==> !IsSpace(s[j])
    decreases |s| - i
  {
    if i < |s| && IsSpace(s[i]) then SkipSpaces(s, i + 1) else i
  }

  /** `[0-9]*` taken greedily from `i`: the index after the run of digits. */
  function SkipDigits(s: string, i: nat): (j: nat)
    requires i <= |s|
    ensures i <= j <= |s|
    ensures forall k :: i <= k < j ==> IsDigit(s[k])
    ensures j < |s| ==> !IsDigit(s[j])
    decreases |s| - i
  {
    if i < |s| && IsDigit(s[i]) then SkipDigits(s, i + 1) else i
  }

  /** `[0-9]+(?:\.[0-9]+)?` taken greedily from `a`; `a` itself when no digit is there. */
  function NumberEnd(s: string, a: nat): (e: nat)
    requires a <= |s|
    ensures a <= e <= |s|
  {
    var d := SkipDigits(s, a);
    if a < d && d + 1 < |s| && s[d] == '.' && IsDigit(s[d + 1]) then SkipDigits(s, d + 1) else d
  }

  /** The three patterns of the script. */
  datatype Pattern =
    | Latency(word: string)  // (?:word)[=<]\s*([0-9]+(?:\.[0-9]+)?)\s*ms
    | Summary                // (?:Media|Promedio|Average)\s*=\s*([0-9]+)\s*ms

  const TimePattern: Pattern := Latency("time")
  const TiempoPattern: Pattern := Latency("tiempo")

  /** `_RTT_PATTERNS` followed by `_RTT_SUMMARY`: the order in which `parse_rtt_ms` tries them. */
  const RttPatterns: seq<Pattern> := [TimePattern, TiempoPattern, Summary]

  /** The tail `\s*ms` after a captured number `s[a..e]`; yields the group when it matches. */
  function UnitAfter(s: string, a: nat, e: nat): Option<string>
    requires a <= e <= |s|
  {
    if a < e && LiteralAt(s, SkipSpaces(s, e), "ms") then Some(s[a..e]) else None
  }

  function LatencyAt(s: string, i: nat, word: string): Option<string> {
    var p := i + |word|;
    if LiteralAt(s, i, word) && p < |s| && (s[p] == '=' || s[p] == '<') then
      var a := SkipSpaces(s, p + 1);
      UnitAfter(s, a, NumberEnd(s, a))
    else None
  }

  function SummaryAfter(s: string, i: nat, word: string): Option<string> {
    if LiteralAt(s, i, word) then
      var j := SkipSpaces(s, i + |word|);
      if j < |s| && s[j] == '=' then
        var a := SkipSpaces(s, j + 1);
        UnitAfter(s, a, SkipDigits(s, a))
      else None
    else None
  }

  /** The group captured by a match of `pat` that starts exactly at `i`; alternatives are tried in order. */
  function MatchAt(s: string, i: nat, pat: Pattern): Option<string> {
    match pat
    case Latency(word) => LatencyAt(s, i, word)
    case Summary =>
      var media := SummaryAfter(s, i, "media");
      if media.Some? then media
      else
        var promedio := SummaryAfter(s, i, "promedio");
        if promedio.Some? then promedio else SummaryAfter(s, i, "average")
  }

  /** A match: where it starts and the text of its group 1. */
  datatype Hit = Hit(pos: nat, group: string)

  /** The leftmost `Some` in `ms` at or after `i`, with its index. */
  function FirstFrom(ms: seq<Option<string>>, i: nat): (r: Option<Hit>)
    requires i <= |ms|
    ensures r.Some? ==> i <= r.value.pos < |ms| && ms[r.value.pos] == Some(r.value.group)
    ensures r.Some? ==> forall q :: i <= q < r.value.pos ==> ms[q].None?
    ensures r.None? ==> forall q :: i <= q < |ms| ==> ms[q].None?
    decreases |ms| - i
  {
    if i == |ms| then None
    else if ms[i].Some? then Some(Hit(i, ms[i].value))
    else FirstFrom(ms, i + 1)
  }

  /** What a match of `pat` captures at each start position `0..|s|`. */
  function Matches(s: string, pat: Pattern): (ms: seq<Option<string>>)
    ensures |ms| == |s| + 1
  {
    seq(|s| + 1, q requires 0 <= q <= |s| => MatchAt(s, q, pat))
  }

  /** `pat.search(s)`: the leftmost match and its group. */
  function Search(s: string, pat: Pattern): (r: Option<Hit>)
    ensures r.Some? ==> r.value.pos <= |s| && MatchAt(s, r.value.pos, pat) == Some(r.value.group)
    ensures r.Some? ==> forall q :: 0 <= q < r.value.pos ==> MatchAt(s, q, pat).None?
    ensures r.None? ==> forall q :: 0 <= q <= |s| ==> MatchAt(s, q, pat).None?
  {
    var ms := Matches(s, pat);
    var r := FirstFrom(ms, 0);
    assert forall q :: 0 <= q <= |s| ==> ms[q] == MatchAt(s, q, pat);
    r
  }

  /** `pat` matches somewhere in `s`. */
  ghost predicate Occurs(s: string, pat: Pattern) {
    exists q :: 0 <= q <= |s| && MatchAt(s, q, pat).Some?
  }

  // ---------------------------------------------------------------------
  // Numbers
  // ---------------------------------------------------------------------

  predicate AllDigits(t: string) {
    forall k :: 0 <= k < |t| ==> IsDigit(t[k])
  }

  /** `t` has the shape `[0-9]+(\.[0-9]+)?`, which Python's `float` always accepts. */
  ghost predicate IsDecimalText(t: string) {
    (t != [] && AllDigits(t))
    || exists d :: 0 < d < |t| - 1 && t[d] == '.' && AllDigits(t[..d]) && AllDigits(t[d + 1..])
  }

  function DigitValue(c: char): nat {
    if IsDigit(c) then c as int - '0' as int else 0
  }

  /** The value of a string of decimal digits. */
  function DigitsValue(t: string): nat {
    if t == [] then 0 else DigitsValue(t[..|t| - 1]) * 10 + DigitValue(t[|t| - 1])
  }

  /** The value of the digits after a decimal point: `0.d1d2...`. */
  function Fraction(t: string): (f: real)
    ensures 0.0 <= f < 1.0
  {
    if t == [] then 0.0 else (DigitValue(t[0]) as real + Fraction(t[1..])) / 10.0
  }

  /** Python's `float(t)` for a string of the shape `[0-9]+(\.[0-9]+)?`, as an exact real. */
  function DecimalValue(t: string): (v: real)
    ensures v >= 0.0
  {
    var d := SkipDigits(t, 0);
    if d < |t| then DigitsValue(t[..d]) as real + Fraction(t[d + 1..])
    else DigitsValue(t) as real
  }

  /** A string of digits denotes a whole number. */
  lemma DigitsAreWhole(t: string)
    requires AllDigits(t)
    ensures DecimalValue(t) == DigitsValue(t) as real
  {
  }

  /** `float("i.f")` is the whole part plus the fraction `0.f`. */
  lemma DecimalValueOfParts(i: string, f: string)
    requires i != [] && AllDigits(i) && AllDigits(f)
    ensures DecimalValue(i + "." + f) == DigitsValue(i) as real + Fraction(f)
  {
    var t := i + "." + f;
    var d := SkipDigits(t, 0);
    assert forall k :: 0 <= k < |i| ==> t[k] == i[k];
    assert t[|i|] == '.';
    assert d == |i|;
    assert t[..d] == i && t[d + 1..] == f;
  }

  /** The digits between `a` and `b`, as a string of their own. */
  lemma DigitsSlice(s: string, a: nat, b: nat)
    requires a <= b <= |s|
    requires forall k :: a <= k < b ==> IsDigit(s[k])
    ensures AllDigits(s[a..b])
  {
  }

  lemma LatencyGroupIsNumber(s: string, i: nat, word: string)
    requires LatencyAt(s, i, word).Some?
    ensures IsDecimalText(LatencyAt(s, i, word).value)
  {
    var g := LatencyAt(s, i, word).value;
    var a := SkipSpaces(s, i + |word| + 1);
    var d := SkipDigits(s, a);
    var e := NumberEnd(s, a);
    assert g == s[a..e];
    if e == d {
      DigitsSlice(s, a, d);
    } else {
      var rel := d - a;
      DigitsSlice(s, a, d);
      DigitsSlice(s, d + 1, e);
      assert g[rel] == '.';
      assert g[..rel] == s[a..d];
      assert g[rel + 1..] == s[d + 1..e];
    }
  }

  lemma SummaryGroupIsDigits(s: string, i: nat, word: string)
    requires SummaryAfter(s, i, word).Some?
    ensures AllDigits(SummaryAfter(s, i, word).value)
  {
    var j := SkipSpaces(s, i + |word|);
    var a := SkipSpaces(s, j + 1);
    DigitsSlice(s, a, SkipDigits(s, a));
  }

  /** Every group the three patterns capture is a number `float` accepts; the summary's is whole. */
  lemma CapturedGroupIsNumber(s: string, i: nat, pat: Pattern)
    requires MatchAt(s, i, pat).Some?
    ensures IsDecimalText(MatchAt(s, i, pat).value)
    ensures pat.Summary? ==> AllDigits(MatchAt(s, i, pat).value)
  {
    match pat
    case Latency(word) =>
      LatencyGroupIsNumber(s, i, word);
    case Summary =>
      if SummaryAfter(s, i, "media").Some? {
        SummaryGroupIsDigits(s, i, "media");
      } else if SummaryAfter(s, i, "promedio").Some? {
        SummaryGroupIsDigits(s, i, "promedio");
      } else {
        SummaryGroupIsDigits(s, i, "average");
      }
  }

  // ---------------------------------------------------------------------
  // parse_rtt_ms and ping_once
  // ---------------------------------------------------------------------

  /**
   * `parse_rtt_ms`: the value of the group of the leftmost match of the
   * first pattern that matches anywhere; `None` for empty text and for
   * text that none of the three patterns matches.
   */
  function ParseRtt(out: string): (rtt: Option<real>)
    ensures out == "" ==> rtt.None?
    ensures rtt.Some? ==> rtt.value >= 0.0
  {
    if out == "" then None
    else
      var time := Search(out, TimePattern);
      if time.Some? then Some(DecimalValue(time.value.group))
      else
        var tiempo := Search(out, TiempoPattern);
        if tiempo.Some? then Some(DecimalValue(tiempo.value.group))
        else
          var summary := Search(out, Summary);
          if summary.Some? then Some(DecimalValue(summary.value.group)) else None
  }

  /** A round-trip time is found exactly when one of the three patterns matches somewhere. */
  lemma ParseRttMatches(out: string)
    ensures ParseRtt(out).Some? <==> Occurs(out, TimePattern) || Occurs(out, TiempoPattern) || Occurs(out, Summary)
  {
    if out == "" {
      forall q, pat | 0 <= q <= |out| ensures MatchAt(out, q, pat).None? {
        NoMatchInEmpty(pat);
      }
    }
  }

  /** No pattern matches the empty text: each starts with a non-empty word. */
  lemma NoMatchInEmpty(pat: Pattern)
    ensures MatchAt("", 0, pat).None?
  {
  }

  /** A pattern that matches nowhere is not found by the scan. */
  lemma SearchNone(out: string, pat: Pattern)
    requires !Occurs(out, pat)
    ensures Search(out, pat).None?
  {
  }

  /** The scan stops at the leftmost match. */
  lemma SearchFirst(out: string, pat: Pattern, q: nat, g: string)
    requires q <= |out| && MatchAt(out, q, pat) == Some(g)
    requires forall p :: 0 <= p < q ==> MatchAt(out, p, pat).None?
    ensures Search(out, pat) == Some(Hit(q, g))
  {
  }

  /** Text in which a pattern matches is not empty. */
  lemma OccursNonEmpty(out: string, pat: Pattern, q: nat)
    requires q <= |out| && MatchAt(out, q, pat).Some?
    ensures out != ""
  {
    if out == "" {
      NoMatchInEmpty(pat);
      assert false;
    }
  }

  /**
   * Precedence: when the `k`-th pattern is the first one that matches at
   * all, its leftmost match (at `q`, capturing `g`) gives the result.
   */
  lemma RttPrecedence(out: string, k: nat, q: nat, g: string)
    requires k < |RttPatterns|
    requires forall j :: 0 <= j < k ==> !Occurs(out, RttPatterns[j])
    requires q <= |out| && MatchAt(out, q, RttPatterns[k]) == Some(g)
    requires forall p :: 0 <= p < q ==> MatchAt(out, p, RttPatterns[k]).None?
    ensures ParseRtt(out) == Some(DecimalValue(g))
  {
    OccursNonEmpty(out, RttPatterns[k], q);
    SearchFirst(out, RttPatterns[k], q, g);
    if k > 0 {
      SearchNone(out, RttPatterns[0]);
    }
    if k > 1 {
      SearchNone(out, RttPatterns[1]);
    }
  }

  /** When the RTT comes from the summary line it is a whole number of milliseconds. */
  lemma SummaryRttIsWhole(out: string)
    requires !Occurs(out, TimePattern) && !Occurs(out, TiempoPattern) && Occurs(out, Summary)
    ensures ParseRtt(out).Some? && ParseRtt(out).value == ParseRtt(out).value.Floor as real
  {
    var q :| 0 <= q <= |out| && MatchAt(out, q, Summary).Some?;
    OccursNonEmpty(out, Summary, q);
    SearchNone(out, TimePattern);
    SearchNone(out, TiempoPattern);
    var h := Search(out, Summary);
    assert h.Some?;
    CapturedGroupIsNumber(out, h.value.pos, Summary);
    DigitsAreWhole(h.value.group);
  }

  // ---------------------------------------------------------------------
  // The greedy matcher against the regular expression it stands for
  // ---------------------------------------------------------------------

  /** Every character of `s[a..b]` is whitespace. */
  predicate SpacesIn(s: string, a: nat, b: nat) {
    a <= b <= |s| && forall k :: a <= k < b ==> IsSpace(s[k])
  }

  /** `s[a..b]` is a non-empty run of digits. */
  predicate DigitsIn(s: string, a: nat, b: nat) {
    a < b <= |s| && forall k :: a <= k < b ==> IsDigit(s[k])
  }

  /**
   * One way in which `(?:word)[=<]\s*([0-9]+(?:\.[0-9]+)?)\s*ms` can match
   * at `i`, whatever the choices of a backtracking engine: the spaces end
   * at `a`, the integer digits at `d`, the group at `e` (`d == e` when
   * there is no fraction) and the spaces before `ms` at `m`.
   */
  ghost predicate LatencyShape(s: string, i: nat, word: string, a: nat, d: nat, e: nat, m: nat) {
    var p := i + |word|;
    LiteralAt(s, i, word) && p < |s| && (s[p] == '=' || s[p] == '<')
    && p + 1 <= a && SpacesIn(s, p + 1, a) && DigitsIn(s, a, d)
    && (d == e || (DigitsIn(s, d + 1, e) && s[d] == '.'))
    && e <= m && SpacesIn(s, e, m) && LiteralAt(s, m, "ms")
  }

  lemma {:induction false} LowerAllAt(t: string, k: nat)
    requires k < |t|
    ensures LowerAll(t)[k] == Lower(t[k])
  {
    if k > 0 {
      LowerAllAt(t[1..], k - 1);
    }
  }

  /** The `k`-th character at a literal match is the `k`-th letter of the literal, up to case. */
  lemma LiteralChar(s: string, m: nat, lit: string, k: nat)
    requires LiteralAt(s, m, lit) && k < |lit|
    ensures Lower(s[m + k]) == lit[k]
  {
    LowerAllAt(s[m..m + |lit|], k);
  }

  /** The greedy matcher finds every match of the latency pattern, and captures what the match captures. */
  lemma LatencyMatchIsUnique(s: string, i: nat, word: string, a: nat, d: nat, e: nat, m: nat)
    requires LatencyShape(s, i, word, a, d, e, m)
    ensures LatencyAt(s, i, word) == Some(s[a..e])
  {
    LiteralChar(s, m, "ms", 0);
    assert e < |s| ==> !IsDigit(s[e]) && s[e] != '.' by {
      if e < |s| && e == m { assert Lower(s[e]) == 'm'; }
    }
    assert !IsSpace(s[a]) by {
      assert IsDigit(s[a]);
    }
    SpacesEndAt(s, i + |word| + 1, a);
    assert SkipDigits(s, a) == d;
    if d < e {
      assert SkipDigits(s, d + 1) == e;
    }
    assert NumberEnd(s, a) == e;
    assert !IsSpace(s[m]) by {
      assert Lower(s[m]) == 'm';
    }
    SpacesEndAt(s, e, m);
    assert UnitAfter(s, a, NumberEnd(s, a)) == Some(s[a..e]);
    LatencyAfterMark(s, i, word, a);
  }

  /** After `word` and `=` or `<`, the latency pattern reads the number where the whitespace ends. */
  lemma LatencyAfterMark(s: string, i: nat, word: string, a: nat)
    requires LiteralAt(s, i, word) && i + |word| < |s| && (s[i + |word|] == '=' || s[i + |word|] == '<')
    requires i + |word| + 1 <= |s| && SkipSpaces(s, i + |word| + 1) == a
    ensures LatencyAt(s, i, word) == UnitAfter(s, a, NumberEnd(s, a))
  {
  }

  /** A run of whitespace followed by something else is exactly what `\s*` takes. */
  lemma SpacesEndAt(s: string, i: nat, j: nat)
    requires SpacesIn(s, i, j) && (j < |s| ==> !IsSpace(s[j]))
    ensures SkipSpaces(s, i) == j
  {
  }

  /** Whatever the greedy matcher captures comes from a match of the latency pattern. */
  lemma LatencyMatchHasShape(s: string, i: nat, word: string)
    requires LatencyAt(s, i, word).Some?
    ensures exists a: nat, d: nat, e: nat, m: nat :: LatencyShape(s, i, word, a, d, e, m) && LatencyAt(s, i, word).value == s[a..e]
  {
    var a := SkipSpaces(s, i + |word| + 1);
    var d := SkipDigits(s, a);
    var e := NumberEnd(s, a);
    var m := SkipSpaces(s, e);
    assert LatencyShape(s, i, word, a, d, e, m);
  }

  /**
   * One way in which `(?:Media|Promedio|Average)\s*=\s*([0-9]+)\s*ms` can
   * match at `i` through the alternative `word`: the spaces before `=` end
   * at `j`, those after it at `a`, the group at `e` and the spaces before
   * `ms` at `m`.
   */
  ghost predicate SummaryShape(s: string, i: nat, word: string, j: nat, a: nat, e: nat, m: nat) {
    LiteralAt(s, i, word) && SpacesIn(s, i + |word|, j) && j < |s| && s[j] == '='
    && j + 1 <= a && SpacesIn(s, j + 1, a) && DigitsIn(s, a, e)
    && e <= m && SpacesIn(s, e, m) && LiteralAt(s, m, "ms")
  }

  /** The greedy matcher finds every match of a summary alternative, and captures what the match captures. */
  lemma SummaryMatchIsUnique(s: string, i: nat, word: string, j: nat, a: nat, e: nat, m: nat)
    requires SummaryShape(s, i, word, j, a, e, m)
    ensures SummaryAfter(s, i, word) == Some(s[a..e])
  {
    LiteralChar(s, m, "ms", 0);
    assert e < |s| ==> !IsDigit(s[e]) by {
      if e < |s| && e == m { assert Lower(s[e]) == 'm'; }
    }
    SpacesEndAt(s, i + |word|, j);
    assert !IsSpace(s[a]) by {
      assert IsDigit(s[a]);
    }
    SpacesEndAt(s, j + 1, a);
    assert SkipDigits(s, a) == e;
    assert !IsSpace(s[m]) by {
      assert Lower(s[m]) == 'm';
    }
    SpacesEndAt(s, e, m);
    assert UnitAfter(s, a, SkipDigits(s, a)) == Some(s[a..e]);
    SummaryAfterMark(s, i, word, j, a);
  }

  /** After `word`, spaces and `=`, the summary pattern reads the digits where the whitespace ends. */
  lemma SummaryAfterMark(s: string, i: nat, word: string, j: nat, a: nat)
    requires LiteralAt(s, i, word) && SkipSpaces(s, i + |word|) == j && j < |s| && s[j] == '='
    requires SkipSpaces(s, j + 1) == a
    ensures SummaryAfter(s, i, word) == UnitAfter(s, a, SkipDigits(s, a))
  {
  }

  /** Whatever the greedy matcher captures for a summary alternative comes from a match of it. */
  lemma SummaryMatchHasShape(s: string, i: nat, word: string)
    requires SummaryAfter(s, i, word).Some?
    ensures exists j: nat, a: nat, e: nat, m: nat ::
      SummaryShape(s, i, word, j, a, e, m) && SummaryAfter(s, i, word).value == s[a..e]
  {
    assert LiteralAt(s, i, word);
    var j := SkipSpaces(s, i + |word|);
    assert j < |s| && s[j] == '=';
    var a := SkipSpaces(s, j + 1);
    var e := SkipDigits(s, a);
    var m := SkipSpaces(s, e);
    SummaryAfterMark(s, i, word, j, a);
    assert a < e && LiteralAt(s, m, "ms");
    assert SummaryShape(s, i, word, j, a, e, m);
  }

  lemma DecimalValueExample()
    ensures DecimalValue("14.1") == 14.1
  {
    var t := "14.1";
    assert SkipDigits(t, 2) == 2;
    assert SkipDigits(t, 0) == 2;
    assert t[..2] == "14" && t[3..] == "1";
    assert "14"[..1] == "1";
    assert DigitsValue("1") == 1;
    assert DigitsValue("14") == 14;
    assert Fraction("1") == 0.1;
  }

  // The three examples below spelled out as matches of the latency pattern.
  lemma ShapeExampleTime()
    ensures LatencyShape("time=14.1 ms", 0, "time", 5, 7, 9, 10)
  {
    var s := "time=14.1 ms";
    LowerAllOfSmall("time");
    LowerAllOfSmall("ms");
    assert s[0..4] == "time" && s[10..12] == "ms";
  }

  lemma ShapeExampleBelowOne()
    ensures LatencyShape("time<1ms", 0, "time", 5, 6, 6, 6)
  {
    var s := "time<1ms";
    LowerAllOfSmall("time");
    LowerAllOfSmall("ms");
    assert s[0..4] == "time" && s[6..8] == "ms";
  }

  lemma ShapeExampleTiempo()
    ensures LatencyShape("tiempo=14.1 ms", 0, "tiempo", 7, 9, 11, 12)
  {
    var s := "tiempo=14.1 ms";
    LowerAllOfSmall("tiempo");
    LowerAllOfSmall("ms");
    assert s[0..6] == "tiempo" && s[12..14] == "ms";
  }

  /** The matcher on the English latency token with a fraction. */
  lemma LatencyExampleTime(s: string)
    requires s == "time=14.1 ms"
    ensures LatencyAt(s, 0, "time") == Some("14.1")
  {
    assert LatencyShape(s, 0, "time", 5, 7, 9, 10) by {
      ShapeExampleTime();
    }
    LatencyMatchIsUnique(s, 0, "time", 5, 7, 9, 10);
    assert s[5..9] == "14.1";
  }

  /** Output that starts with a latency match of the English pattern gives its number. */
  lemma RttFromLeadingTime(out: string, g: string)
    requires LatencyAt(out, 0, "time") == Some(g)
    ensures ParseRtt(out) == Some(DecimalValue(g))
  {
    RttPrecedence(out, 0, 0, g);
  }

  /** Output that starts with the Spanish pattern, and has no English match, gives its number. */
  lemma RttFromLeadingTiempo(out: string, g: string)
    requires !Occurs(out, TimePattern) && LatencyAt(out, 0, "tiempo") == Some(g)
    ensures ParseRtt(out) == Some(DecimalValue(g))
  {
    RttPrecedence(out, 1, 0, g);
  }

  /** Example: `time=14.1 ms` gives 14.1. */
  lemma RttExampleTime()
    ensures ParseRtt("time=14.1 ms") == Some(14.1)
  {
    LatencyExampleTime("time=14.1 ms");
    RttFromLeadingTime("time=14.1 ms", "14.1");
    DecimalValueExample();
  }

  /** The matcher on Windows' `<1ms` for a sub-millisecond reply. */
  lemma LatencyExampleBelowOne(s: string)
    requires s == "time<1ms"
    ensures LatencyAt(s, 0, "time") == Some("1")
  {
    assert LatencyShape(s, 0, "time", 5, 6, 6, 6) by {
      ShapeExampleBelowOne();
    }
    LatencyMatchIsUnique(s, 0, "time", 5, 6, 6, 6);
    assert s[5..6] == "1";
  }

  /** Example: `time<1ms` gives 1. */
  lemma RttExampleBelowOne()
    ensures ParseRtt("time<1ms") == Some(1.0)
  {
    LatencyExampleBelowOne("time<1ms");
    RttFromLeadingTime("time<1ms", "1");
  }

  /** The matcher on the Spanish latency token. */
  lemma LatencyExampleTiempo(s: string)
    requires s == "tiempo=14.1 ms"
    ensures LatencyAt(s, 0, "tiempo") == Some("14.1")
  {
    assert LatencyShape(s, 0, "tiempo", 7, 9, 11, 12) by {
      ShapeExampleTiempo();
    }
    LatencyMatchIsUnique(s, 0, "tiempo", 7, 9, 11, 12);
    assert s[7..11] == "14.1";
  }

  lemma NoTimeLiteralInTiempo(s: string, q: nat)
    requires s == "tiempo=14.1 ms"
    ensures !LiteralAt(s, q, "time")
  {
    if LiteralAt(s, q, "time") {
      LiteralChar(s, q, "time", 0);
      assert q == 0;
      LiteralChar(s, q, "time", 2);
    }
  }

  /** `time` does not occur in the Spanish token, so the English pattern does not match it. */
  lemma NoTimeInTiempo()
    ensures !Occurs("tiempo=14.1 ms", TimePattern)
  {
    var s := "tiempo=14.1 ms";
    forall q | 0 <= q <= |s| ensures MatchAt(s, q, TimePattern).None? {
      NoTimeLiteralInTiempo(s, q);
    }
  }

  /** Example: the Spanish token gives the same value as the English one. */
  lemma RttExampleTiempo()
    ensures ParseRtt("tiempo=14.1 ms") == Some(14.1)
  {
    LatencyExampleTiempo("tiempo=14.1 ms");
    NoTimeInTiempo();
    RttFromLeadingTiempo("tiempo=14.1 ms", "14.1");
    DecimalValueExample();
  }

  /** `\bttl\s*=\s*[0-9]+` matches at `i` (the `\b` before a word character: no word character precedes). */
  predicate TtlAt(s: string, i: nat) {
    LiteralAt(s, i, "ttl")
    && (i == 0 || !IsWordChar(s[i - 1]))
    && var j := SkipSpaces(s, i + 3);
    j < |s| && s[j] == '='
    && var k := SkipSpaces(s, j + 1);
    k < |s| && IsDigit(s[k])
  }

  /** Whether the TTL marker matches at or after `i`. */
  function TtlFrom(s: string, i: nat): (found: bool)
    requires i <= |s|
    ensures found <==> exists q :: i <= q <= |s| && TtlAt(s, q)
    decreases |s| - i
  {
    TtlAt(s, i) || (i < |s| && TtlFrom(s, i + 1))
  }

  /** What one probe left behind: the captured streams, or a `TimeoutExpired`. */
  datatype ProbeOutput = Exited(stdout: string, stderr: string) | TimedOut

  /** The row `ping_once` returns. */
  datatype Measurement = Measurement(ip: string, alive: bool, rttMs: Option<real>)

  /** `out` in `ping_once`: both streams concatenated, or empty after a timeout. */
  function Captured(o: ProbeOutput): string {
    match o
    case Exited(stdout, stderr) => stdout + stderr
    case TimedOut => ""
  }

  /**
   * The part of `ping_once` after the subprocess call: alive exactly when
   * the TTL marker is present or a round-trip time was parsed.
   */
  function PingOnce(ip: string, o: ProbeOutput): (m: Measurement)
    ensures m.ip == ip && m.rttMs == ParseRtt(Captured(o))
    ensures m.alive <==> (exists q :: 0 <= q <= |Captured(o)| && TtlAt(Captured(o), q)) || m.rttMs.Some?
    ensures o.TimedOut? ==> !m.alive && m.rttMs.None?
  {
    var out := Captured(o);
    var rtt := ParseRtt(out);
    Measurement(ip, TtlFrom(out, 0) || rtt.Some?, rtt)
  }

  lemma NoPatternLiteralInTtlLine(s: string, q: nat)
    requires s == "ttl=57"
    ensures !LiteralAt(s, q, "time") && !LiteralAt(s, q, "tiempo")
    ensures !LiteralAt(s, q, "media") && !LiteralAt(s, q, "promedio") && !LiteralAt(s, q, "average")
  {
    if LiteralAt(s, q, "time") { LiteralChar(s, q, "time", 0); LiteralChar(s, q, "time", 1); }
    if LiteralAt(s, q, "tiempo") { LiteralChar(s, q, "tiempo", 0); LiteralChar(s, q, "tiempo", 1); }
    if LiteralAt(s, q, "media") { LiteralChar(s, q, "media", 0); }
  }

  lemma TtlExampleMarker()
    ensures TtlAt("ttl=57", 0)
  {
    var s := "ttl=57";
    LowerAllOfSmall("ttl");
    assert s[0..3] == "ttl";
  }

  /** None of the three round-trip-time patterns matches a bare TTL line. */
  lemma TtlLineHasNoRtt()
    ensures ParseRtt("ttl=57").None?
  {
    var s := "ttl=57";
    forall q | 0 <= q <= |s| ensures MatchAt(s, q, TimePattern).None? && MatchAt(s, q, TiempoPattern).None? {
      NoPatternLiteralInTtlLine(s, q);
    }
    forall q | 0 <= q <= |s| ensures MatchAt(s, q, Summary).None? {
      NoPatternLiteralInTtlLine(s, q);
    }
  }

  /**
   * Example: a reply that shows a TTL but no time (as some platforms print)
   * is alive, with no round-trip time.
   */
  lemma PingOnceTtlOnly(ip: string)
    ensures PingOnce(ip, Exited("ttl=57", "")) == Measurement(ip, true, None)
  {
    assert Captured(Exited("ttl=57", "")) == "ttl=57";
    TtlLineHasNoRtt();
    TtlExampleMarker();
  }
}
