/**
 The few Python string operations the subtitle merge relies on:
 `str.strip()`, `str.split(sep)` and `sep.join(parts)`.
 */
module Strings {

  /** Python's `str.isspace()` for a single character. */
  predicate IsSpace(c: char) {
    || c == ' '
    || ('\t' <= c <= '\r')                // \t \n \v \f \r
    || ('\U{1c}' <= c <= '\U{1f}')        // file, group, record and unit separators
    || c == '\U{85}' || c == '\U{a0}' || c == '\U{1680}'
    || ('\U{2000}' <= c <= '\U{200a}')
    || c == '\U{2028}' || c == '\U{2029}' || c == '\U{202f}' || c == '\U{205f}' || c == '\U{3000}'
  }

  predicate AllSpace(s: string) {
    forall i :: 0 <= i < |s| ==> IsSpace(s[i])
  }

  /** Neither end of `s` is whitespace: what `strip()` returns. */
  predicate IsStripped(s: string) {
    s == [] || (!IsSpace(s[0]) && !IsSpace(s[|s| - 1]))
  }

  /**
   `r` is the slice of `s` that starts at `a`, and everything outside the
   slice is whitespace.
   */
  predicate TrimmedAt(r: string, s: string, a: int) {
    && 0 <= a <= |s| - |r| && s[a..a + |r|] == r
    && (forall i :: 0 <= i < a ==> IsSpace(s[i]))
    && (forall i :: a + |r| <= i < |s| ==> IsSpace(s[i]))
  }

  /** `s.lstrip()`: leading whitespace removed. */
  function TrimStart(s: string): (t: string) {
    if s != [] && IsSpace(s[0]) then TrimStart(s[1..]) else s
  }

  /** `s.rstrip()`: trailing whitespace removed. */
  function TrimEnd(s: string): (t: string) {
    if s != [] && IsSpace(s[|s| - 1]) then TrimEnd(s[..|s| - 1]) else s
  }

  /** Python's `s.strip()`: whitespace removed from both ends. */
  function Strip(s: string): (r: string) {
    TrimEnd(TrimStart(s))
  }

  /** Where the text `strip()` keeps begins in `s`. */
  function StripOffset(s: string): int {
    |s| - |TrimStart(s)|
  }

  /** `lstrip()` cuts off a run of leading whitespace and stops at a non-space. */
  lemma {:induction false} TrimStartSpec(s: string)
    ensures var t := TrimStart(s);
      && |t| <= |s| && t == s[|s| - |t|..]
      && (forall i :: 0 <= i < |s| - |t| ==> IsSpace(s[i]))
      && (t != [] ==> !IsSpace(t[0]))
  {
    if s != [] && IsSpace(s[0]) {
      var t := TrimStart(s[1..]);
      TrimStartSpec(s[1..]);
      assert t == s[|s| - |t|..] by {
        assert s[1..][|s| - 1 - |t|..] == s[|s| - |t|..];
      }
      forall i | 0 < i < |s| - |t|
        ensures IsSpace(s[i])
      {
        assert s[i] == s[1..][i - 1];
      }
    }
  }

  /** `rstrip()` cuts off a run of trailing whitespace and stops at a non-space. */
  lemma {:induction false} TrimEndSpec(s: string)
    ensures var t := TrimEnd(s);
      && |t| <= |s| && t == s[..|t|]
      && (forall i :: |t| <= i < |s| ==> IsSpace(s[i]))
      && (t != [] ==> !IsSpace(t[|t| - 1]))
  {
    if s != [] && IsSpace(s[|s| - 1]) {
      var t := TrimEnd(s[..|s| - 1]);
      TrimEndSpec(s[..|s| - 1]);
      assert t == s[..|t|] by {
        assert s[..|s| - 1][..|t|] == s[..|t|];
      }
      forall i | |t| <= i < |s| - 1
        ensures IsSpace(s[i])
      {
        assert s[i] == s[..|s| - 1][i];
      }
    }
  }

  /**
   `strip()` leaves a text with no whitespace at either end, cut out of `s`
   with only whitespace around it; it is empty exactly when `s` is all whitespace.
   */
  lemma StripSpec(s: string)
    ensures IsStripped(Strip(s))
    ensures TrimmedAt(Strip(s), s, StripOffset(s))
    ensures Strip(s) == [] <==> AllSpace(s)
  {
    var t := TrimStart(s);
    var r := Strip(s);
    var a := StripOffset(s);
    TrimStartSpec(s);
    TrimEndSpec(t);
    assert r == s[a..a + |r|] by {
      assert t[..|r|] == s[a..a + |r|];
    }
    forall i | a + |r| <= i < |s|
      ensures IsSpace(s[i])
    {
      assert s[i] == t[i - a];
    }
    if r != [] {
      assert r[0] == t[0];
    }
  }

  /** Stripping is idempotent, and a stripped string is its own strip. */
  lemma StripOfStripped(s: string)
    requires IsStripped(s)
    ensures Strip(s) == s
  {
    if s != [] {
      StripSpec(s);
      var a := StripOffset(s);
      assert a == 0;
    }
  }

  /**
   When the first `n` characters of `s` begin and end with a non-space
   character, stripping keeps them in place.
   */
  lemma StripKeepsCore(s: string, n: nat)
    requires 0 < n <= |s| && !IsSpace(s[0]) && !IsSpace(s[n - 1])
    ensures |Strip(s)| >= n && Strip(s)[..n] == s[..n]
  {
    StripSpec(s);
    var a := StripOffset(s);
    assert a == 0;
  }

  predicate OccursAt(s: string, pat: string, k: int) {
    0 <= k && k + |pat| <= |s| && s[k..k + |pat|] == pat
  }

  /** The text before the first occurrence of `pat` at or after position `k`. */
  function PrefixBeforeFrom(s: string, pat: string, k: nat): string
    requires pat != [] && k <= |s|
    decreases |s| - k
  {
    if k + |pat| > |s| then s
    else if s[k..k + |pat|] == pat then s[..k]
    else PrefixBeforeFrom(s, pat, k + 1)
  }

  /**
   Python's `s.split(pat)[0]`: the text before the first occurrence of `pat`,
   or the whole of `s` when `pat` does not occur.
   */
  function PrefixBefore(s: string, pat: string): string
    requires pat != []
  {
    PrefixBeforeFrom(s, pat, 0)
  }

  lemma {:induction false} PrefixBeforeFromSpec(s: string, pat: string, k: nat)
    requires pat != [] && k <= |s|
    requires forall j :: 0 <= j < k ==> !OccursAt(s, pat, j)
    ensures var r := PrefixBeforeFrom(s, pat, k);
      && r <= s && k <= |r|
      && (forall j :: 0 <= j < |r| ==> !OccursAt(s, pat, j))
      && (r == s || OccursAt(s, pat, |r|))
    decreases |s| - k
  {
    if k + |pat| <= |s| && s[k..k + |pat|] != pat {
      PrefixBeforeFromSpec(s, pat, k + 1);
    }
  }

  /**
   The text before the first occurrence is a prefix of `s` in which `pat`
   does not start anywhere, and it ends where `pat` first starts (or at the end).
   */
  lemma PrefixBeforeSpec(s: string, pat: string)
    requires pat != []
    ensures var r := PrefixBefore(s, pat);
      && r <= s
      && (forall j :: 0 <= j < |r| ==> !OccursAt(s, pat, j))
      && (r == s || OccursAt(s, pat, |r|))
  {
    PrefixBeforeFromSpec(s, pat, 0);
  }

  /** Python's `sep.join(parts)`. */
  function JoinWith(parts: seq<string>, sep: string): (joined: string)
    decreases |parts|
  {
    if parts == [] then ""
    else if |parts| == 1 then parts[0]
    else parts[0] + sep + JoinWith(parts[1..], sep)
  }

  /** Python's `s.split(c)` for a one-character separator. */
  function SplitChar(s: string, c: char): (parts: seq<string>)
    decreases |s|
  {
    if s == [] then [""]
    else
      var rest := SplitChar(s[1..], c);
      if s[0] == c then [""] + rest else [[s[0]] + rest[0]] + rest[1..]
  }

  /** `split` gives one more part than there are separators. */
  lemma {:induction false} SplitCharCount(s: string, c: char)
    ensures |SplitChar(s, c)| == multiset(s)[c] + 1
    decreases |s|
  {
    if s != [] {
      SplitCharCount(s[1..], c);
      assert s == [s[0]] + s[1..];
      assert multiset(s) == multiset([s[0]]) + multiset(s[1..]);
    }
  }

  /** No part holds the separator. */
  lemma {:induction false} SplitCharNoSeparator(s: string, c: char)
    ensures forall i :: 0 <= i < |SplitChar(s, c)| ==> c !in SplitChar(s, c)[i]
    decreases |s|
  {
    if s != [] {
      SplitCharNoSeparator(s[1..], c);
      var rest := SplitChar(s[1..], c);
      var r := SplitChar(s, c);
      if s[0] != c {
        forall i | 0 <= i < |r| ensures c !in r[i] {
          if i > 0 { assert r[i] == rest[i]; }
        }
      }
    }
  }

  /** Gluing text to the front of the first part glues it to the front of the join. */
  lemma JoinPrepend(y: string, parts: seq<string>, sep: string)
    requires parts != []
    ensures JoinWith([y + parts[0]] + parts[1..], sep) == y + JoinWith(parts, sep)
  {
    if |parts| > 1 {
      assert ([y + parts[0]] + parts[1..])[1..] == parts[1..];
    }
  }

  /** Joining the parts with the separator gives back the string. */
  lemma {:induction false} SplitCharJoin(s: string, c: char)
    ensures JoinWith(SplitChar(s, c), [c]) == s
    decreases |s|
  {
    if s != [] {
      var rest := SplitChar(s[1..], c);
      var r := SplitChar(s, c);
      assert JoinWith(rest, [c]) == s[1..] by {
        SplitCharJoin(s[1..], c);
      }
      assert rest != [];
      if s[0] == c {
        assert r == [""] + rest;
        assert r[1..] == rest;
        assert JoinWith(r, [c]) == "" + [c] + JoinWith(rest, [c]);
        assert [c] + s[1..] == s;
      } else {
        assert r == [[s[0]] + rest[0]] + rest[1..];
        JoinPrepend([s[0]], rest, [c]);
        assert [s[0]] + s[1..] == s;
      }
    }
  }

  /** Splitting a string in which the separator does not occur gives that string alone. */
  lemma SplitCharNone(s: string, c: char)
    requires c !in s
    ensures SplitChar(s, c) == [s]
  {
    SplitCharCount(s, c);
    SplitCharJoin(s, c);
    assert multiset(s)[c] == 0;
  }

  /** The first separator ends the first part. */
  lemma {:induction false} SplitCharFirst(a: string, c: char, b: string)
    requires c !in a
    ensures SplitChar(a + [c] + b, c) == [a] + SplitChar(b, c)
    decreases |a|
  {
    var s := a + [c] + b;
    if a != [] {
      assert s[0] == a[0] && s[0] != c;
      assert s[1..] == a[1..] + [c] + b;
      SplitCharFirst(a[1..], c, b);
      var rest := SplitChar(s[1..], c);
      assert rest == [a[1..]] + SplitChar(b, c);
      assert SplitChar(s, c) == [[s[0]] + rest[0]] + rest[1..];
      assert [s[0]] + rest[0] == a;
    } else {
      assert s[0] == c && s[1..] == b;
    }
  }

  /** Join then split gives back the parts when no part contains the separator. */
  lemma {:induction false} SplitJoin(parts: seq<string>, c: char)
    requires parts != []
    requires forall i :: 0 <= i < |parts| ==> c !in parts[i]
    ensures SplitChar(JoinWith(parts, [c]), c) == parts
  {
    if |parts| == 1 {
      SplitCharNone(parts[0], c);
    } else {
      SplitJoin(parts[1..], c);
      assert JoinWith(parts, [c]) == parts[0] + [c] + JoinWith(parts[1..], [c]);
      SplitCharFirst(parts[0], c, JoinWith(parts[1..], [c]));
    }
  }

  /**
   Joining stripped, non-blank parts with single spaces gives a stripped text,
   which is empty exactly when there are no parts.
   */
  lemma {:induction false} JoinStrippedParts(parts: seq<string>)
    requires forall i :: 0 <= i < |parts| ==> parts[i] != [] && IsStripped(parts[i])
    ensures var t := JoinWith(parts, " ");
      IsStripped(t) && (t == [] <==> parts == [])
      && (parts != [] ==> t[0] == parts[0][0])
  {
    if |parts| > 1 {
      JoinStrippedParts(parts[1..]);
      var t := JoinWith(parts, " ");
      var u := JoinWith(parts[1..], " ");
      assert t == parts[0] + " " + u;
      assert t[|t| - 1] == u[|u| - 1];
    }
  }
}
