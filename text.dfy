/**
 * The string operations of the .NET base library that the core relies on:
 * ToLower, Contains, IsNullOrWhiteSpace, Trim, Split, EndsWith and Replace.
 * Strings are sequences of characters (`char`); case mapping covers
 * the ASCII letters only.
 */
module Text {
  import opened Wrappers

  predicate IsUpper(c: char) { 'A' <= c <= 'Z' }

  /** char.ToLowerInvariant restricted to ASCII letters. */
  function LowerChar(c: char): (r: char)
    ensures !IsUpper(r)
    ensures IsUpper(c) ==> r as int == c as int + 32
    ensures !IsUpper(c) ==> r == c
  {
    if IsUpper(c) then (c as int + 32) as char else c
  }

  /** string.ToLower: every character lower-cased, length kept. */
  function Lower(s: string): (r: string)
    ensures |r| == |s|
    ensures forall i :: 0 <= i < |s| ==> r[i] == LowerChar(s[i])
  {
    if s == [] then [] else [LowerChar(s[0])] + Lower(s[1..])
  }

  lemma {:induction false} LowerIdempotent(s: string)
    ensures Lower(Lower(s)) == Lower(s)
  {
  }

  lemma {:induction false} LowerConcat(a: string, b: string)
    ensures Lower(a + b) == Lower(a) + Lower(b)
  {
  }

  /** String.Equals(a, b, StringComparison.OrdinalIgnoreCase). */
  predicate EqualsIgnoreCase(a: string, b: string) {
    |a| == |b| && forall i :: 0 <= i < |a| ==> LowerChar(a[i]) == LowerChar(b[i])
  }

  /** Comparing ignoring case is comparing the lower-cased strings. */
  lemma {:induction false} EqualsIgnoreCaseIff(a: string, b: string)
    ensures EqualsIgnoreCase(a, b) <==> Lower(a) == Lower(b)
  {
    if Lower(a) == Lower(b) {
      assert forall i :: 0 <= i < |a| ==> Lower(a)[i] == Lower(b)[i];
    }
  }

  /**
   * char.IsWhiteSpace: U+0009 to U+000D, U+0085, and the Unicode space,
   * line and paragraph separators (U+0020, U+00A0, U+1680, U+2000 to U+200A,
   * U+2028, U+2029, U+202F, U+205F, U+3000).
   */
  predicate IsWhiteSpace(c: char) {
    ('\t' <= c <= '\r') || c == ' ' || c == '\U{0085}' || c == '\U{00A0}' || c == '\U{1680}'
    || ('\U{2000}' <= c <= '\U{200A}') || c == '\U{2028}' || c == '\U{2029}' || c == '\U{202F}'
    || c == '\U{205F}' || c == '\U{3000}'
  }

  predicate IsNullOrEmpty(s: Option<string>) {
    s.None? || s.value == ""
  }

  predicate IsNullOrWhiteSpace(s: Option<string>) {
    s.None? || forall i :: 0 <= i < |s.value| ==> IsWhiteSpace(s.value[i])
  }

  predicate StartsWith(s: string, prefix: string) {
    |prefix| <= |s| && s[..|prefix|] == prefix
  }

  predicate EndsWith(s: string, suffix: string) {
    |suffix| <= |s| && s[|s| - |suffix|..] == suffix
  }

  /** string.Contains (ordinal): some window of `s` equals `t`, scanned left to right. */
  predicate Contains(s: string, t: string)
    decreases |s|
  {
    StartsWith(s, t) || (|s| > 0 && Contains(s[1..], t))
  }

  predicate OccursAt(s: string, t: string, i: int) {
    0 <= i && i + |t| <= |s| && s[i..i + |t|] == t
  }

  /** The scanning definition agrees with "some window equals t". */
  lemma {:induction false} ContainsIff(s: string, t: string)
    ensures Contains(s, t) <==> exists i :: OccursAt(s, t, i)
    decreases |s|
  {
    if StartsWith(s, t) {
      assert OccursAt(s, t, 0);
    } else if |s| > 0 {
      ContainsIff(s[1..], t);
      if Contains(s[1..], t) {
        var j :| OccursAt(s[1..], t, j);
        assert s[j + 1..j + 1 + |t|] == s[1..][j..j + |t|];
        assert OccursAt(s, t, j + 1);
      } else {
        forall i | OccursAt(s, t, i) && i > 0 ensures OccursAt(s[1..], t, i - 1) {
          assert s[1..][i - 1..i - 1 + |t|] == s[i..i + |t|];
        }
      }
    }
  }

  /** Every string contains the empty string and itself. */
  lemma {:induction false} ContainsTrivial(s: string)
    ensures Contains(s, "") && Contains(s, s)
  {
    assert OccursAt(s, "", 0) && OccursAt(s, s, 0);
    ContainsIff(s, "");
    ContainsIff(s, s);
  }

  /** Trim: drop white space at both ends. */
  function TrimStart(s: string): (r: string)
    ensures |r| <= |s| && r == s[|s| - |r|..]
    ensures r == [] || !IsWhiteSpace(r[0])
    ensures forall i :: 0 <= i < |s| - |r| ==> IsWhiteSpace(s[i])
  {
    if s != [] && IsWhiteSpace(s[0]) then TrimStart(s[1..]) else s
  }

  function TrimEnd(s: string): (r: string)
    ensures |r| <= |s| && r == s[..|r|]
    ensures r == [] || !IsWhiteSpace(r[|r| - 1])
    ensures forall i :: |r| <= i < |s| ==> IsWhiteSpace(s[i])
  {
    if s != [] && IsWhiteSpace(s[|s| - 1]) then TrimEnd(s[..|s| - 1]) else s
  }

  function Trim(s: string): (r: string)
    ensures r == [] || (!IsWhiteSpace(r[0]) && !IsWhiteSpace(r[|r| - 1]))
  {
    TrimEnd(TrimStart(s))
  }

  /** The prefix of `s` before the first `sep`, and the rest after it. */
  function IndexOf(s: string, sep: char): (r: nat)
    ensures r <= |s|
    ensures forall i :: 0 <= i < r ==> s[i] != sep
    ensures r < |s| ==> s[r] == sep
  {
    if s == [] || s[0] == sep then 0 else 1 + IndexOf(s[1..], sep)
  }

  /** string.Split(sep): the pieces between separators, empty pieces kept. */
  function Split(s: string, sep: char): (r: seq<string>)
    ensures |r| >= 1
    decreases |s|
  {
    var k := IndexOf(s, sep);
    if k == |s| then [s] else [s[..k]] + Split(s[k + 1..], sep)
  }

  /** string.Join(sep, parts). */
  function Join(parts: seq<string>, sep: char): string {
    if parts == [] then ""
    else if |parts| == 1 then parts[0]
    else parts[0] + [sep] + Join(parts[1..], sep)
  }

  /** Split followed by Join gives back the input, and no piece holds the separator. */
  lemma {:induction false} SplitJoin(s: string, sep: char)
    ensures Join(Split(s, sep), sep) == s
    ensures forall p, i :: p in Split(s, sep) && 0 <= i < |p| ==> p[i] != sep
    decreases |s|
  {
    var k := IndexOf(s, sep);
    if k < |s| {
      var ps := Split(s[k + 1..], sep);
      SplitJoin(s[k + 1..], sep);
      var all := [s[..k]] + ps;
      assert Split(s, sep) == all;
      assert all[1..] == ps;
      assert Join(all, sep) == s[..k] + [sep] + Join(ps, sep);
      assert s == s[..k] + [sep] + s[k + 1..];
      forall p, i | p in all && 0 <= i < |p| ensures p[i] != sep {
        if p != s[..k] {
          assert p in ps;
        }
      }
    }
  }

  /** The first piece of string.Split(sep), as in `value.Split(';')[0]`. */
  function FirstPiece(s: string, sep: char): (r: string)
    ensures |r| <= |s| && r == s[..|r|]
    ensures sep !in r
    ensures |r| < |s| ==> s[|r|] == sep
  {
    s[..IndexOf(s, sep)]
  }

  /** The first piece ends at the first separator. */
  lemma {:induction false} FirstPieceBefore(s: string, sep: char, rest: string)
    requires sep !in s
    ensures FirstPiece(s + [sep] + rest, sep) == s
  {
    var t := s + [sep] + rest;
    var p := FirstPiece(t, sep);
    assert t[|s|] == sep;
    assert t[..|s|] == s;
  }

  /** Without a separator the first piece is the whole string. */
  lemma {:induction false} FirstPieceWhole(s: string, sep: char)
    requires sep !in s
    ensures FirstPiece(s, sep) == s
  {
  }

  lemma {:induction false} FirstPieceIsSplitHead(s: string, sep: char)
    ensures FirstPiece(s, sep) == Split(s, sep)[0]
  {
  }

  /** string.Replace(pattern, replacement): every non-overlapping occurrence, left to right. */
  function Replace(s: string, pattern: string, replacement: string): (r: string)
    requires pattern != ""
    decreases |s|
  {
    if s == [] then []
    else if StartsWith(s, pattern) then replacement + Replace(s[|pattern|..], pattern, replacement)
    else [s[0]] + Replace(s[1..], pattern, replacement)
  }

  /** Removing a pattern that `a` does not start any occurrence of, from `a` followed by the pattern, leaves `a`. */
  lemma {:induction false} ReplaceTrailing(a: string, pattern: string)
    requires pattern != [] && forall i :: 0 <= i < |a| ==> a[i] != pattern[0]
    ensures Replace(a + pattern, pattern, "") == a
    decreases |a|
  {
    if a == [] {
      assert [] + pattern == pattern;
      assert StartsWith(pattern, pattern) && pattern[|pattern|..] == [];
    } else {
      assert (a + pattern)[0] == a[0];
      assert (a + pattern)[1..] == a[1..] + pattern;
      ReplaceTrailing(a[1..], pattern);
    }
  }

  /** A string that does not contain the pattern is left unchanged by Replace, whatever the replacement. */
  lemma {:induction false} ReplaceAbsent(s: string, pattern: string, replacement: string)
    requires pattern != ""
    requires !Contains(s, pattern)
    ensures Replace(s, pattern, replacement) == s
    decreases |s|
  {
    if s != [] {
      ReplaceAbsent(s[1..], pattern, replacement);
    }
  }
}
