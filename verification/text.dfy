/**
 * Character classes and the few `str` operations of Python that the
 * modelled scripts use: `strip`, `startswith`, `in` on strings,
 * `split`/`join` on one separator character, and `replace(old, "")`.
 */
module Text {

  /** Python's `str.isspace()`, which is also what `\s` matches in a `str` pattern. */
  predicate IsSpace(c: char) {
    c == ' ' || '\t' <= c <= '\r' || '\U{1c}' <= c <= '\U{1f}' || c == '\U{85}' || c == '\U{a0}'
    || c == '\U{1680}' || '\U{2000}' <= c <= '\U{200a}' || c == '\U{2028}' || c == '\U{2029}'
    || c == '\U{202f}' || c == '\U{205f}' || c == '\U{3000}'
  }

  predicate IsDigit(c: char) {
    '0' <= c <= '9'
  }

  /** The ASCII part of `\w`: letters, digits and the underscore. */
  predicate IsWordChar(c: char) {
    'a' <= c <= 'z' || 'A' <= c <= 'Z' || IsDigit(c) || c == '_'
  }

  /** ASCII case folding: what `re.IGNORECASE` does to the letters of the patterns modelled here. */
  function Lower(c: char): (l: char)
    ensures 'A' <= c <= 'Z' ==> l as int == c as int + 32
    ensures !('A' <= c <= 'Z') ==> l == c
  {
    if 'A' <= c <= 'Z' then (c as int + 32) as char else c
  }

  predicate IsPrefix(p: string, s: string) {
    |p| <= |s| && s[..|p|] == p
  }

  /** `s.endswith(p)`. */
  predicate IsSuffix(p: string, s: string) {
    |p| <= |s| && s[|s| - |p|..] == p
  }

  /** `p` occurs in `s` starting at index `i`. */
  predicate OccursAt(s: string, p: string, i: int) {
    0 <= i <= |s| - |p| && s[i..i + |p|] == p
  }

  /** `p in s` for two strings: `p` occurs somewhere in `s`. */
  predicate Contains(s: string, p: string) {
    exists i | 0 <= i <= |s| - |p| :: OccursAt(s, p, i)
  }

  /** Drops leading characters that satisfy `IsSpace`. */
  function TrimLeft(s: string): (r: string)
    ensures |r| <= |s| && r == s[|s| - |r|..]
    ensures forall k :: 0 <= k < |s| - |r| ==> IsSpace(s[k])
    ensures r == [] || !IsSpace(r[0])
  {
    if s != [] && IsSpace(s[0]) then TrimLeft(s[1..]) else s
  }

  /** Drops trailing characters that satisfy `IsSpace`. */
  function TrimRight(s: string): (r: string)
    ensures |r| <= |s| && r == s[..|r|]
    ensures forall k :: |r| <= k < |s| ==> IsSpace(s[k])
    ensures r == [] || !IsSpace(r[|r| - 1])
  {
    if s != [] && IsSpace(s[|s| - 1]) then TrimRight(s[..|s| - 1]) else s
  }

  /**
   * `r` is `s` without its first `i` characters and without a tail, and
   * every character removed at either end is whitespace.
   */
  predicate SpaceTrimmed(s: string, r: string, i: int) {
    && 0 <= i <= |s| - |r| && r == s[i..i + |r|]
    && (forall k :: 0 <= k < i ==> IsSpace(s[k]))
    && (forall k :: i + |r| <= k < |s| ==> IsSpace(s[k]))
  }

  /** Python's `s.strip()`: the longest middle part that neither starts nor ends with whitespace. */
  function Strip(s: string): (r: string)
    ensures r == [] || (!IsSpace(r[0]) && !IsSpace(r[|r| - 1]))
    ensures |r| <= |s|
  {
    TrimRight(TrimLeft(s))
  }

  /**
   * `s.strip()` only removes whitespace, and only at the ends: it is a
   * middle slice of `s` and everything around that slice is whitespace.
   */
  lemma StripMiddle(s: string)
    ensures exists i :: SpaceTrimmed(s, Strip(s), i)
  {
    var l := TrimLeft(s);
    var r := TrimRight(l);
    var i := |s| - |l|;
    SliceOfSuffix(s, i, |r|);
    forall k | i + |r| <= k < |s| ensures IsSpace(s[k]) {
      assert IsSpace(l[k - i]);
    }
    assert SpaceTrimmed(s, Strip(s), i);
  }

  /** Indexing into the suffix `s[i..]` is indexing into `s`, shifted by `i`. */
  lemma SliceOfSuffix(s: string, i: nat, n: nat)
    requires i + n <= |s|
    ensures s[i..][..n] == s[i..i + n]
    ensures forall k :: i <= k < |s| ==> s[i..][k - i] == s[k]
  {
  }

  /** `s.strip()` is empty exactly when every character of `s` is whitespace. */
  lemma StripEmpty(s: string)
    ensures (forall k :: 0 <= k < |s| ==> IsSpace(s[k])) <==> Strip(s) == []
  {
    var l := TrimLeft(s);
    var r := TrimRight(l);
    assert r == s[|s| - |l|..|s| - |l| + |r|];
    if r != [] {
      assert !IsSpace(s[|s| - |l|]);
    }
  }

  /** Stripping a string that has no whitespace at either end leaves it as it is. */
  lemma StripUnchanged(s: string)
    requires s == [] || (!IsSpace(s[0]) && !IsSpace(s[|s| - 1]))
    ensures Strip(s) == s
  {
  }

  /** A string that neither starts nor ends with `c` is left as it is by `StripChar`. */
  lemma StripCharUnchanged(s: string, c: char)
    requires s == [] || (s[0] != c && s[|s| - 1] != c)
    ensures StripChar(s, c) == s
  {
  }

  /** One `c` after a string that neither starts nor ends with `c` is stripped off. */
  lemma StripCharTrailing(s: string, c: char)
    requires s == [] || (s[0] != c && s[|s| - 1] != c)
    ensures StripChar(s + [c], c) == s
  {
    var t := s + [c];
    assert t[..|t| - 1] == s;
    if s == [] {
      assert t[1..] == [];
    } else {
      StripCharUnchanged(s, c);
    }
  }

  /** `r` is `s` without its first `i` characters and without a tail, all of them `c`. */
  predicate CharTrimmed(s: string, r: string, i: int, c: char) {
    && 0 <= i <= |s| - |r| && r == s[i..i + |r|]
    && (forall k :: 0 <= k < i ==> s[k] == c)
    && (forall k :: i + |r| <= k < |s| ==> s[k] == c)
  }

  /** Python's `s.strip(c)` for one character `c`: every leading and trailing `c` is removed. */
  function StripChar(s: string, c: char): (r: string)
    ensures r == [] || (r[0] != c && r[|r| - 1] != c)
    ensures |r| <= |s|
    decreases |s|
  {
    if s == [] then s
    else if s[0] == c then StripChar(s[1..], c)
    else if s[|s| - 1] == c then
      assert s == s[..|s| - 1] + [s[|s| - 1]];
      StripChar(s[..|s| - 1], c)
    else s
  }

  /**
   * `s.strip(c)` only removes copies of `c`, and only at the ends: it is a
   * middle slice of `s` and everything around that slice is `c`.
   */
  lemma {:induction false} StripCharMiddle(s: string, c: char)
    ensures exists i :: CharTrimmed(s, StripChar(s, c), i, c)
    decreases |s|
  {
    var r := StripChar(s, c);
    if s == [] {
      assert CharTrimmed(s, r, 0, c);
    } else if s[0] == c {
      StripCharMiddle(s[1..], c);
      var i :| CharTrimmed(s[1..], r, i, c);
      CharTrimmedCons(s, r, i, c);
    } else if s[|s| - 1] == c {
      StripCharMiddle(s[..|s| - 1], c);
      var i :| CharTrimmed(s[..|s| - 1], r, i, c);
      CharTrimmedSnoc(s, r, i, c);
    } else {
      assert CharTrimmed(s, r, 0, c);
    }
  }

  /** A leading `c` widens the trimmed prefix by one. */
  lemma CharTrimmedCons(s: string, r: string, i: int, c: char)
    requires s != [] && s[0] == c && CharTrimmed(s[1..], r, i, c)
    ensures CharTrimmed(s, r, i + 1, c)
  {
    var t := s[1..];
    assert r == s[i + 1..i + 1 + |r|];
    forall k | 0 <= k < i + 1 ensures s[k] == c {
      if k > 0 { assert s[k] == t[k - 1]; }
    }
    forall k | i + 1 + |r| <= k < |s| ensures s[k] == c {
      assert s[k] == t[k - 1];
    }
  }

  /** A trailing `c` widens the trimmed suffix by one. */
  lemma CharTrimmedSnoc(s: string, r: string, i: int, c: char)
    requires s != [] && s[|s| - 1] == c && CharTrimmed(s[..|s| - 1], r, i, c)
    ensures CharTrimmed(s, r, i, c)
  {
    var t := s[..|s| - 1];
    assert r == s[i..i + |r|];
    forall k | i + |r| <= k < |s| ensures s[k] == c {
      if k < |t| { assert s[k] == t[k]; }
    }
  }

  /** Python's `s.split(c)`: the pieces between the occurrences of `c`; never empty. */
  function Split(s: string, c: char): (pieces: seq<string>)
    ensures |pieces| >= 1
    ensures forall k :: 0 <= k < |pieces| ==> c !in pieces[k]
  {
    if s == [] then [""]
    else if s[0] == c then [""] + Split(s[1..], c)
    else
      var rest := Split(s[1..], c);
      [[s[0]] + rest[0]] + rest[1..]
  }

  /** Python's `c.join(pieces)`. */
  function Join(pieces: seq<string>, c: char): string {
    if pieces == [] then ""
    else if |pieces| == 1 then pieces[0]
    else pieces[0] + [c] + Join(pieces[1..], c)
  }

  lemma {:induction false} SplitNoSeparator(s: string, c: char)
    requires c !in s
    ensures Split(s, c) == [s]
  {
    if s != [] {
      SplitNoSeparator(s[1..], c);
      assert [s[0]] + s[1..] == s;
    }
  }

  lemma {:induction false} SplitAfterPiece(a: string, c: char, b: string)
    requires c !in a
    ensures Split(a + [c] + b, c) == [a] + Split(b, c)
  {
    if a == [] {
      assert a + [c] + b == [c] + b;
      assert ([c] + b)[1..] == b;
    } else {
      var s := a + [c] + b;
      assert s[1..] == a[1..] + [c] + b;
      SplitAfterPiece(a[1..], c, b);
      assert [a[0]] + a[1..] == a;
    }
  }

  /** Joining pieces that do not contain the separator and splitting again gives the pieces back. */
  lemma {:induction false} SplitJoin(pieces: seq<string>, c: char)
    requires |pieces| >= 1
    requires forall k :: 0 <= k < |pieces| ==> c !in pieces[k]
    ensures Split(Join(pieces, c), c) == pieces
  {
    if |pieces| == 1 {
      SplitNoSeparator(pieces[0], c);
    } else {
      SplitJoin(pieces[1..], c);
      SplitAfterPiece(pieces[0], c, Join(pieces[1..], c));
      assert [pieces[0]] + pieces[1..] == pieces;
    }
  }

  /** Splitting and joining again gives the original string back. */
  lemma {:induction false} JoinSplit(s: string, c: char)
    ensures Join(Split(s, c), c) == s
  {
    if s != [] {
      JoinSplit(s[1..], c);
      var rest := Split(s[1..], c);
      if s[0] != c {
        if |rest| == 1 {
          assert Join([[s[0]] + rest[0]], c) == [s[0]] + rest[0];
        } else {
          var p := [[s[0]] + rest[0]] + rest[1..];
          assert p[1..] == rest[1..];
          assert Join(rest, c) == rest[0] + [c] + Join(rest[1..], c);
        }
        assert [s[0]] + s[1..] == s;
      } else {
        assert [c] + s[1..] == s;
      }
    }
  }

  /**
   * Python's `s.replace(p, "")` for a non-empty `p`: the occurrences of `p`
   * found by a left-to-right scan that resumes after each one are removed.
   */
  function RemoveAll(s: string, p: string): (r: string)
    requires p != []
    ensures |r| <= |s|
    decreases |s|
  {
    if |s| < |p| then s
    else if s[..|p|] == p then RemoveAll(s[|p|..], p)
    else [s[0]] + RemoveAll(s[1..], p)
  }

  /** The scan resumes after an occurrence of `p` at the start. */
  lemma RemoveAllMatch(s: string, p: string)
    requires p != [] && IsPrefix(p, s)
    ensures RemoveAll(s, p) == RemoveAll(s[|p|..], p)
  {
  }

  /** Without an occurrence of `p` at the start, the first character is kept. */
  lemma RemoveAllSkip(s: string, p: string)
    requires p != [] && |s| >= |p| && s[..|p|] != p
    ensures RemoveAll(s, p) == [s[0]] + RemoveAll(s[1..], p)
  {
  }

  /**
   * When no occurrence of `p` starts inside `q`, the scan keeps `q` as it
   * is and goes on with what follows it.
   */
  lemma {:induction false} RemoveAllKeep(q: string, t: string, p: string)
    requires p != []
    requires forall i :: 0 <= i < |q| ==> !IsPrefix(p, (q + t)[i..])
    ensures RemoveAll(q + t, p) == q + RemoveAll(t, p)
    decreases |q|
  {
    if q != [] {
      var rest := RemoveAll(t, p);
      KeepShift(q, t, p);
      RemoveAllKeep(q[1..], t, p);
      KeepFirst(q, t, p);
      calc {
        RemoveAll(q + t, p);
        [q[0]] + RemoveAll(q[1..] + t, p);
        [q[0]] + (q[1..] + rest);
        ([q[0]] + q[1..]) + rest;
        { assert [q[0]] + q[1..] == q; }
        q + rest;
      }
    } else {
      assert q + t == t;
    }
  }

  /** No occurrence starting inside `q` means none starting inside `q[1..]` either. */
  lemma KeepShift(q: string, t: string, p: string)
    requires q != []
    requires forall i :: 0 <= i < |q| ==> !IsPrefix(p, (q + t)[i..])
    ensures !IsPrefix(p, q + t)
    ensures forall i :: 0 <= i < |q[1..]| ==> !IsPrefix(p, (q[1..] + t)[i..])
  {
    assert (q + t)[0..] == q + t;
    forall i | 0 <= i < |q[1..]| ensures !IsPrefix(p, (q[1..] + t)[i..]) {
      assert (q[1..] + t)[i..] == (q + t)[i + 1..];
    }
  }

  /** Without an occurrence of `p` at the start of `q + t`, the first character of `q` is kept. */
  lemma KeepFirst(q: string, t: string, p: string)
    requires p != [] && q != [] && !IsPrefix(p, q + t)
    ensures RemoveAll(q + t, p) == [q[0]] + RemoveAll(q[1..] + t, p)
  {
    var s := q + t;
    assert s[1..] == q[1..] + t;
    if |s| < |p| {
      assert RemoveAll(q[1..] + t, p) == q[1..] + t;
      assert [q[0]] + (q[1..] + t) == s;
    } else {
      RemoveAllSkip(s, p);
    }
  }

  /** A string in which `p` does not occur is left as it is by `RemoveAll`. */
  lemma {:induction false} RemoveAllAbsent(s: string, p: string)
    requires p != [] && !Contains(s, p)
    ensures RemoveAll(s, p) == s
    decreases |s|
  {
    if |s| >= |p| {
      assert !OccursAt(s, p, 0);
      assert !Contains(s[1..], p) by {
        forall i | 0 <= i <= |s[1..]| - |p| ensures !OccursAt(s[1..], p, i) {
          assert s[1..][i..i + |p|] == s[i + 1..i + 1 + |p|];
          assert !OccursAt(s, p, i + 1);
        }
      }
      RemoveAllAbsent(s[1..], p);
      assert [s[0]] + s[1..] == s;
    }
  }
}
