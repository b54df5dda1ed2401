/**
 * The Python string operations the command parser relies on:
 * substring test (`p in s`), leftmost search, `s.replace(p, "")`,
 * `s.strip()`, `s.lower()` and the character classes `\w`, `\d`.
 */
module Text {
  import opened Wrappers

  /** `p` occurs in `s` starting at index `i`. */
  predicate OccursAt(s: string, p: string, i: nat) {
    i + |p| <= |s| && s[i..i + |p|] == p
  }

  /** Leftmost index at or after `from` where `p` occurs in `s`. */
  function IndexFrom(s: string, p: string, from: nat): (r: Option<nat>)
    ensures r.Some? ==> from <= r.value && OccursAt(s, p, r.value)
    ensures r.Some? ==> forall j :: from <= j < r.value ==> !OccursAt(s, p, j)
    ensures r.None? ==> forall j :: from <= j ==> !OccursAt(s, p, j)
    decreases |s| - from
  {
    if from + |p| > |s| then None
    else if s[from..from + |p|] == p then Some(from)
    else IndexFrom(s, p, from + 1)
  }

  /** Python's `s.find(p)`, with `None` for -1. */
  function IndexOf(s: string, p: string): Option<nat> {
    IndexFrom(s, p, 0)
  }

  /** Python's `p in s`: `p` is a prefix of `s` or of one of its suffixes. */
  predicate Contains(s: string, p: string)
    decreases |s|
  {
    p <= s || (s != [] && Contains(s[1..], p))
  }

  /** The substring test agrees with the search: `p in s` exactly when `s.find(p)` finds it. */
  lemma {:induction false} ContainsFrom(s: string, p: string, from: nat)
    requires from <= |s|
    ensures Contains(s[from..], p) <==> IndexFrom(s, p, from).Some?
    decreases |s| - from
  {
    assert p <= s[from..] <==> OccursAt(s, p, from);
    if from < |s| {
      assert s[from..][1..] == s[from + 1..];
      ContainsFrom(s, p, from + 1);
    }
  }

  /** `p in s` holds exactly when `p` occurs at some index of `s`. */
  lemma ContainsIff(s: string, p: string)
    ensures Contains(s, p) <==> IndexOf(s, p).Some?
    ensures Contains(s, p) <==> exists i: nat :: OccursAt(s, p, i)
  {
    ContainsFrom(s, p, 0);
    assert s[0..] == s;
  }

  /** A character of `p` that `s` lacks rules out `p in s`. */
  lemma MissingCharNotContained(s: string, p: string, k: nat)
    requires k < |p| && p[k] !in s
    ensures !Contains(s, p)
  {
    ContainsIff(s, p);
  }

  /** An occurrence at a known index makes `p in s` true. */
  lemma OccurrenceContained(s: string, p: string, i: nat)
    requires OccursAt(s, p, i)
    ensures Contains(s, p)
  {
    ContainsIff(s, p);
  }

  /**
   * Python's `s.replace(p, "")`: every non-overlapping occurrence of `p`,
   * scanning left to right, is deleted. An empty `p` leaves `s` as it is.
   */
  function RemoveAll(s: string, p: string): (r: string)
    ensures |r| <= |s|
    decreases |s|
  {
    if p == [] || s == [] then s
    else if OccursAt(s, p, 0) then RemoveAll(s[|p|..], p)
    else [s[0]] + RemoveAll(s[1..], p)
  }

  /** Without an occurrence of `p`, the replace leaves the string unchanged. */
  lemma {:induction false} RemoveAllNoOccurrence(s: string, p: string)
    requires !Contains(s, p)
    ensures RemoveAll(s, p) == s
    decreases |s|
  {
    if p != [] && s != [] {
      ContainsIff(s, p);
      assert !OccursAt(s, p, 0);
      RemoveAllNoOccurrence(s[1..], p);
    }
  }

  /**
   * The replace deletes the leftmost occurrence of `p` and continues after it:
   * the text before it is kept and the rest is processed the same way.
   */
  lemma {:induction false} RemoveAllFirstOccurrence(s: string, p: string, i: nat)
    requires p != [] && OccursAt(s, p, i)
    requires forall j :: 0 <= j < i ==> !OccursAt(s, p, j)
    ensures RemoveAll(s, p) == s[..i] + RemoveAll(s[i + |p|..], p)
    decreases i
  {
    if i > 0 {
      assert !OccursAt(s, p, 0);
      var t := s[1..];
      assert RemoveAll(s, p) == [s[0]] + RemoveAll(t, p);
      OccurrenceShifts(s, p, i);
      RemoveAllFirstOccurrence(t, p, i - 1);
      var x := t[..i - 1];
      var rest := RemoveAll(s[i + |p|..], p);
      assert t[i - 1 + |p|..] == s[i + |p|..];
      assert RemoveAll(t, p) == x + rest;
      AppendAssociative([s[0]], x, rest);
      assert [s[0]] + x == s[..i];
    } else {
      assert s[..0] == [];
    }
  }

  /** Concatenation is associative. */
  lemma AppendAssociative(a: string, b: string, c: string)
    ensures a + (b + c) == (a + b) + c
  {
  }

  /** Dropping the first character moves every occurrence one place to the left. */
  lemma OccurrenceShifts(s: string, p: string, i: nat)
    requires 0 < i && OccursAt(s, p, i)
    requires forall j :: 0 <= j < i ==> !OccursAt(s, p, j)
    ensures OccursAt(s[1..], p, i - 1)
    ensures forall j :: 0 <= j < i - 1 ==> !OccursAt(s[1..], p, j)
  {
    var t := s[1..];
    assert t[i - 1..i - 1 + |p|] == s[i..i + |p|];
    forall j | 0 <= j < i - 1 ensures !OccursAt(t, p, j) {
      assert !OccursAt(s, p, j + 1);
      if j + |p| <= |t| {
        assert t[j..j + |p|] == s[j + 1..j + 1 + |p|];
      }
    }
  }

  /** Removing a single character is filtering that character out. */
  function Without(s: string, c: char): (r: string)
    ensures c !in r
    ensures forall x :: x != c ==> multiset(r)[x] == multiset(s)[x]
  {
    if s == [] then []
    else
      assert s == [s[0]] + s[1..];
      if s[0] == c then Without(s[1..], c) else [s[0]] + Without(s[1..], c)
  }

  /** Filtering a concatenation filters each part and keeps them in order. */
  lemma {:induction false} WithoutAppend(a: string, b: string, c: char)
    ensures Without(a + b, c) == Without(a, c) + Without(b, c)
  {
    if a != [] {
      assert (a + b)[0] == a[0] && (a + b)[1..] == a[1..] + b;
      WithoutAppend(a[1..], b, c);
    } else {
      assert a + b == b;
    }
  }

  /** `s.replace(" ", "")` keeps every other character, in order, and drops the spaces. */
  lemma {:induction false} RemoveAllChar(s: string, c: char)
    ensures RemoveAll(s, [c]) == Without(s, c)
    decreases |s|
  {
    if s != [] {
      assert OccursAt(s, [c], 0) <==> s[0] == c by {
        assert s[0..1] == [s[0]];
      }
      RemoveAllChar(s[1..], c);
    }
  }

  /** Python's `str.isspace()` for one character. */
  predicate IsSpace(c: char) {
    ('\t' <= c <= '\r') || ('\U{1C}' <= c <= ' ') || c == '\U{85}' || c == '\U{A0}'
    || c == '\U{1680}' || ('\U{2000}' <= c <= '\U{200A}') || c == '\U{2028}' || c == '\U{2029}'
    || c == '\U{202F}' || c == '\U{205F}' || c == '\U{3000}'
  }

  predicate AllSpace(s: string) {
    forall k :: 0 <= k < |s| ==> IsSpace(s[k])
  }

  /** Number of leading whitespace characters. */
  function LeadingSpace(s: string): (n: nat)
    ensures n <= |s|
  {
    if s != [] && IsSpace(s[0]) then 1 + LeadingSpace(s[1..]) else 0
  }

  /** The leading run is all whitespace. */
  lemma {:induction false} LeadingSpaceRun(s: string)
    ensures AllSpace(s[..LeadingSpace(s)])
  {
    if s != [] && IsSpace(s[0]) {
      var t := s[1..];
      LeadingSpaceRun(t);
      var m := LeadingSpace(t);
      assert LeadingSpace(s) == m + 1;
      var u := s[..m + 1];
      forall k | 0 <= k < |u|
        ensures IsSpace(u[k])
      {
        if k > 0 {
          var v := t[..m];
          assert u[k] == s[k] == t[k - 1] == v[k - 1];
        }
      }
    }
  }

  /** The leading run ends at a non-space, or at the end of `s`. */
  lemma {:induction false} LeadingSpaceStop(s: string)
    ensures LeadingSpace(s) < |s| ==> !IsSpace(s[LeadingSpace(s)])
  {
    if s != [] && IsSpace(s[0]) {
      var t := s[1..];
      LeadingSpaceStop(t);
      var m := LeadingSpace(t);
      assert LeadingSpace(s) == m + 1;
      if m + 1 < |s| {
        assert s[m + 1] == t[m];
      }
    }
  }

  /** Number of trailing whitespace characters. */
  function TrailingSpace(s: string): (n: nat)
    ensures n <= |s|
  {
    if s != [] && IsSpace(s[|s| - 1]) then 1 + TrailingSpace(s[..|s| - 1]) else 0
  }

  /** The trailing run is all whitespace. */
  lemma {:induction false} TrailingSpaceRun(s: string)
    ensures AllSpace(s[|s| - TrailingSpace(s)..])
  {
    if s != [] && IsSpace(s[|s| - 1]) {
      var t := s[..|s| - 1];
      TrailingSpaceRun(t);
      var m := TrailingSpace(t);
      assert TrailingSpace(s) == m + 1;
      var u := s[|s| - (m + 1)..];
      forall k | 0 <= k < |u|
        ensures IsSpace(u[k])
      {
        if k < m {
          var v := t[|t| - m..];
          assert u[k] == s[|s| - m - 1 + k] == t[|t| - m + k] == v[k];
        }
      }
    }
  }

  /** The trailing run starts after a non-space, or at the start of `s`. */
  lemma {:induction false} TrailingSpaceStop(s: string)
    ensures TrailingSpace(s) < |s| ==> !IsSpace(s[|s| - TrailingSpace(s) - 1])
  {
    if s != [] && IsSpace(s[|s| - 1]) {
      var t := s[..|s| - 1];
      TrailingSpaceStop(t);
      var m := TrailingSpace(t);
      assert TrailingSpace(s) == m + 1;
      if m + 1 < |s| {
        assert s[|s| - (m + 1) - 1] == t[|t| - m - 1];
      }
    }
  }

  /** Python's `s.strip()`: leading and trailing whitespace cut off. */
  function Strip(s: string): string {
    var a := LeadingSpace(s);
    var b := TrailingSpace(s[a..]);
    s[a..|s| - b]
  }

  /** The stripped string is no longer than `s` and neither starts nor ends with whitespace. */
  lemma StripSpec(s: string)
    ensures |Strip(s)| <= |s|
    ensures var r := Strip(s); r == [] || (!IsSpace(r[0]) && !IsSpace(r[|r| - 1]))
  {
    var a := LeadingSpace(s);
    var t := s[a..];
    var b := TrailingSpace(t);
    var r := s[a..|s| - b];
    assert Strip(s) == r;
    if r != [] {
      assert |t| == |s| - a && a + b < |s|;
      assert r[0] == s[a];
      LeadingSpaceStop(s);
      assert r[|r| - 1] == s[|s| - b - 1];
      TrailingSpaceStop(t);
      StripEnds(s, a, b);
    }
  }

  /** The stripped string is the slice of `s` between a leading and a trailing run of whitespace. */
  lemma StripCutsWhitespace(s: string)
    ensures var r := Strip(s); var a := LeadingSpace(s);
            a + |r| <= |s| && s[a..a + |r|] == r && AllSpace(s[..a]) && AllSpace(s[a + |r|..])
  {
    var a := LeadingSpace(s);
    var t := s[a..];
    var b := TrailingSpace(t);
    var r := s[a..|s| - b];
    assert Strip(s) == r;
    assert |t| == |s| - a && a + |r| == |s| - b;
    assert s[a..a + |r|] == r;
    assert AllSpace(s[..a]) by {
      LeadingSpaceRun(s);
    }
    assert AllSpace(s[|s| - b..]) by {
      TrailingSpaceRun(t);
      StripTail(s, a, b);
    }
  }

  /** The last character before the trailing run, seen from the whole string. */
  lemma StripEnds(s: string, a: nat, b: nat)
    requires a + b < |s|
    requires !IsSpace(s[a..][|s| - a - b - 1])
    ensures !IsSpace(s[|s| - b - 1])
  {
    assert s[a..][|s| - a - b - 1] == s[|s| - b - 1];
  }

  /** The trailing run of the rest after the leading run, seen from the whole string. */
  lemma StripTail(s: string, a: nat, b: nat)
    requires a + b <= |s|
    requires AllSpace(s[a..][|s| - a - b..])
    ensures AllSpace(s[|s| - b..])
  {
    var u := s[|s| - b..];
    var v := s[a..][|s| - a - b..];
    forall k | 0 <= k < |u|
      ensures IsSpace(u[k])
    {
      assert u[k] == s[|s| - b + k] == v[k];
    }
  }

  /** Stripping twice is stripping once. */
  lemma StripIdempotent(s: string)
    ensures Strip(Strip(s)) == Strip(s)
  {
    StripSpec(s);
    var r := Strip(s);
    assert LeadingSpace(r) == 0;
    assert TrailingSpace(r[LeadingSpace(r)..]) == 0;
  }

  /** Python's `str.lower()` on one character, for the ASCII letters. */
  function LowerChar(c: char): char {
    if 'A' <= c <= 'Z' then (c as int + 32) as char else c
  }

  predicate IsUpper(c: char) {
    'A' <= c <= 'Z'
  }

  /** Python's `s.lower()`: same length, every character lowered, no upper case left. */
  function Lower(s: string): (r: string)
    ensures |r| == |s|
    ensures forall k :: 0 <= k < |s| ==> r[k] == LowerChar(s[k]) && !IsUpper(r[k])
  {
    if s == [] then [] else [LowerChar(s[0])] + Lower(s[1..])
  }

  /** Lowering text that is already lower case changes nothing. */
  lemma LowerOfLower(s: string)
    requires forall k :: 0 <= k < |s| ==> !IsUpper(s[k])
    ensures Lower(s) == s
  {
  }

  /** The regex class `\d`, ASCII digits. */
  predicate IsDigit(c: char) {
    '0' <= c <= '9'
  }

  /** The regex class `\w`, ASCII letters, digits and underscore. */
  predicate IsWordChar(c: char) {
    ('a' <= c <= 'z') || ('A' <= c <= 'Z') || IsDigit(c) || c == '_'
  }
}
