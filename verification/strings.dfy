/**
 * String primitives of the JavaScript runtime that the admin application
 * relies on: `String.prototype.trim`, ASCII case mapping, `startsWith`,
 * `includes`, `split`, `join` and the `\s` character class.
 * Strings are sequences of `char`; a `char` stands for one UTF-16 unit.
 */
module Strings {
  /** The characters JavaScript's `\s` and `trim` treat as white space. */
  predicate IsSpace(c: char)
  {
    c == ' ' || c == '\t' || c == '\n' || c == '\r' || c == '\U{000B}' || c == '\U{000C}'
    || c == '\U{00A0}' || c == '\U{1680}' || ('\U{2000}' <= c <= '\U{200A}')
    || c == '\U{2028}' || c == '\U{2029}' || c == '\U{202F}' || c == '\U{205F}'
    || c == '\U{3000}' || c == '\U{FEFF}'
  }

  predicate IsLowerAscii(c: char) { 'a' <= c <= 'z' }
  predicate IsUpperAscii(c: char) { 'A' <= c <= 'Z' }
  predicate IsDigit(c: char) { '0' <= c <= '9' }

  /** `toLowerCase` on one character (ASCII letters only). */
  function LowerChar(c: char): (r: char)
    ensures !IsUpperAscii(r)
    ensures IsUpperAscii(c) ==> IsLowerAscii(r) && r as int == c as int + 32
    ensures !IsUpperAscii(c) ==> r == c
  {
    if IsUpperAscii(c) then (c as int + 32) as char else c
  }

  /** `toUpperCase` on one character (ASCII letters only). */
  function UpperChar(c: char): (r: char)
    ensures !IsLowerAscii(r)
    ensures IsLowerAscii(c) ==> IsUpperAscii(r) && r as int + 32 == c as int
    ensures !IsLowerAscii(c) ==> r == c
  {
    if IsLowerAscii(c) then (c as int - 32) as char else c
  }

  function Lower(s: string): (r: string)
    ensures |r| == |s|
    ensures forall i :: 0 <= i < |s| ==> r[i] == LowerChar(s[i])
  {
    seq(|s|, i requires 0 <= i < |s| => LowerChar(s[i]))
  }

  function Upper(s: string): (r: string)
    ensures |r| == |s|
    ensures forall i :: 0 <= i < |s| ==> r[i] == UpperChar(s[i])
  {
    seq(|s|, i requires 0 <= i < |s| => UpperChar(s[i]))
  }

  /** Lower-casing twice is lower-casing once. */
  lemma LowerIdempotent(s: string)
    ensures Lower(Lower(s)) == Lower(s)
  {
  }

  /** Upper-casing does not depend on the case the input was written in. */
  lemma UpperOfLower(s: string)
    ensures Upper(Lower(s)) == Upper(s)
  {
  }

  predicate NoLeadingSpace(s: string) { s == [] || !IsSpace(s[0]) }
  predicate NoTrailingSpace(s: string) { s == [] || !IsSpace(s[|s| - 1]) }
  predicate IsTrimmed(s: string) { NoLeadingSpace(s) && NoTrailingSpace(s) }
  predicate AllSpace(s: string) { forall i :: 0 <= i < |s| ==> IsSpace(s[i]) }

  /** `trimStart`: drops the leading white space, nothing else. */
  function TrimStart(s: string): (r: string)
    ensures |r| <= |s| && r == s[|s| - |r|..]
    ensures NoLeadingSpace(r)
  {
    if s != [] && IsSpace(s[0]) then TrimStart(s[1..]) else s
  }

  /** What `trimStart` drops is white space. */
  lemma {:induction false} TrimStartDropsSpace(s: string)
    ensures AllSpace(s[..|s| - |TrimStart(s)|])
  {
    if s != [] && IsSpace(s[0]) {
      TrimStartDropsSpace(s[1..]);
      var n := |s| - |TrimStart(s)|;
      forall i | 0 <= i < n ensures IsSpace(s[..n][i]) {
        if i > 0 {
          assert s[..n][i] == s[1..][..n - 1][i - 1];
        }
      }
    }
  }

  /** `trimEnd`: drops the trailing white space, nothing else. */
  function TrimEnd(s: string): (r: string)
    ensures |r| <= |s| && r == s[..|r|]
    ensures NoTrailingSpace(r)
  {
    if s != [] && IsSpace(s[|s| - 1]) then TrimEnd(s[..|s| - 1]) else s
  }

  /** What `trimEnd` drops is white space. */
  lemma {:induction false} TrimEndDropsSpace(s: string)
    ensures AllSpace(s[|TrimEnd(s)|..])
  {
    if s != [] && IsSpace(s[|s| - 1]) {
      var init := s[..|s| - 1];
      TrimEndDropsSpace(init);
      var n := |TrimEnd(s)|;
      forall i | n <= i < |s| ensures IsSpace(s[i]) {
        if i < |s| - 1 {
          assert init[n..][i - n] == s[i];
        }
      }
    }
  }

  /** `trim`: the input without its leading and trailing white space. */
  function Trim(s: string): (r: string)
    ensures IsTrimmed(r)
    ensures |r| <= |s|
  {
    var t := TrimStart(s);
    var r := TrimEnd(t);
    assert NoLeadingSpace(r) by {
      if r != [] { assert r[0] == t[0]; }
    }
    r
  }

  /** The trimmed text is a slice of the input with only white space around it. */
  lemma TrimSlice(s: string)
    ensures exists a, b :: 0 <= a <= b <= |s| && Trim(s) == s[a..b] && AllSpace(s[..a]) && AllSpace(s[b..])
  {
    var t := TrimStart(s);
    var r := TrimEnd(t);
    TrimStartDropsSpace(s);
    TrimEndDropsSpace(t);
    var a, b := |s| - |t|, |s| - |t| + |r|;
    assert r == s[a..b];
    assert AllSpace(s[b..]) by {
      assert s[b..] == t[|r|..];
    }
    assert Trim(s) == s[a..b] && AllSpace(s[..a]);
  }

  /** A trimmed string is its own trim. */
  lemma TrimOfTrimmed(s: string)
    requires IsTrimmed(s)
    ensures Trim(s) == s
  {
  }

  /** `trim` is idempotent. */
  lemma TrimIdempotent(s: string)
    ensures Trim(Trim(s)) == Trim(s)
  {
    TrimOfTrimmed(Trim(s));
  }

  /** A string is blank (`!s.trim()`) exactly when it is made of white space only. */
  lemma TrimEmptyIffAllSpace(s: string)
    ensures Trim(s) == [] <==> AllSpace(s)
  {
    if AllSpace(s) {
      AllSpaceTrimStart(s);
    } else {
      var i :| 0 <= i < |s| && !IsSpace(s[i]);
      var t := TrimStart(s);
      TrimStartDropsSpace(s);
      forall j | 0 <= j < |s| - |t|
        ensures IsSpace(s[j])
      {
        assert s[..|s| - |t|][j] == s[j];
      }
      assert t[0] == s[|s| - |t|];
      var r := TrimEnd(t);
      TrimEndDropsSpace(t);
      forall j | |r| <= j < |t|
        ensures IsSpace(t[j])
      {
        assert t[|r|..][j - |r|] == t[j];
      }
      assert |r| > 0;
    }
  }

  lemma AllSpaceTrimStart(s: string)
    requires AllSpace(s)
    ensures TrimStart(s) == []
  {
  }

  /** `startsWith`. */
  predicate StartsWith(s: string, prefix: string)
  {
    |prefix| <= |s| && s[..|prefix|] == prefix
  }

  /** `includes`: the needle occurs at some offset. */
  predicate Contains(s: string, needle: string)
  {
    exists i | 0 <= i <= |s| :: OccursAt(s, needle, i)
  }

  predicate OccursAt(s: string, needle: string, i: int)
  {
    0 <= i && i + |needle| <= |s| && s[i..i + |needle|] == needle
  }

  /** `parts.join(sep)`. */
  function Join(parts: seq<string>, sep: string): (r: string)
    ensures parts == [] ==> r == []
    ensures |parts| == 1 ==> r == parts[0]
  {
    if parts == [] then []
    else if |parts| == 1 then parts[0]
    else parts[0] + sep + Join(parts[1..], sep)
  }

  /** `s.split(c)` for a one-character separator: never empty, and no piece holds `c`. */
  function Split(s: string, c: char): (r: seq<string>)
    ensures |r| >= 1
    ensures forall k :: 0 <= k < |r| ==> c !in r[k]
  {
    if s == [] then [""]
    else
      var rest := Split(s[1..], c);
      if s[0] == c then [""] + rest else [[s[0]] + rest[0]] + rest[1..]
  }

  /** `split` followed by `join` with the same separator gives the input back. */
  lemma {:induction false} JoinSplit(s: string, c: char)
    ensures Join(Split(s, c), [c]) == s
  {
    if s != [] {
      JoinSplit(s[1..], c);
      var rest := Split(s[1..], c);
      if s[0] != c {
        if |rest| > 1 {
          assert Join(rest, [c]) == rest[0] + [c] + Join(rest[1..], [c]);
        }
      }
    }
  }

  /** `.filter(Boolean)` on strings: the non-empty ones, in order. */
  function NonEmpty(parts: seq<string>): (r: seq<string>)
    ensures |r| <= |parts|
    ensures forall k :: 0 <= k < |r| ==> r[k] != [] && r[k] in parts
    ensures forall k :: 0 <= k < |parts| && parts[k] != [] ==> parts[k] in r
  {
    if parts == [] then []
    else if parts[0] == [] then NonEmpty(parts[1..])
    else [parts[0]] + NonEmpty(parts[1..])
  }

  /** `s.replace(/\s+/g, rep)`: every maximal run of white space becomes `rep`. */
  function ReplaceSpaceRuns(s: string, rep: string): (r: string)
    decreases |s|
  {
    if s == [] then []
    else if IsSpace(s[0]) then rep + ReplaceSpaceRuns(TrimStart(s), rep)
    else [s[0]] + ReplaceSpaceRuns(s[1..], rep)
  }

  /** With a separator free of white space, the result holds no white space at all. */
  lemma {:induction false} ReplaceSpaceRunsNoSpace(s: string, rep: string)
    requires forall i :: 0 <= i < |rep| ==> !IsSpace(rep[i])
    ensures forall i :: 0 <= i < |ReplaceSpaceRuns(s, rep)| ==> !IsSpace(ReplaceSpaceRuns(s, rep)[i])
    decreases |s|
  {
    if s != [] {
      if IsSpace(s[0]) {
        ReplaceSpaceRunsNoSpace(TrimStart(s), rep);
      } else {
        ReplaceSpaceRunsNoSpace(s[1..], rep);
      }
    }
  }

  /** A string with no white space is left as it is. */
  lemma {:induction false} ReplaceSpaceRunsNoop(s: string, rep: string)
    requires forall i :: 0 <= i < |s| ==> !IsSpace(s[i])
    ensures ReplaceSpaceRuns(s, rep) == s
    decreases |s|
  {
    if s != [] {
      ReplaceSpaceRunsNoop(s[1..], rep);
    }
  }

  function DigitChar(d: nat): (r: char)
    requires d < 10
    ensures IsDigit(r)
  {
    ('0' as int + d) as char
  }

  /** The decimal notation of a natural number, as `String(n)` prints it. */
  function NatToString(n: nat): (r: string)
    ensures |r| >= 1
    ensures forall i :: 0 <= i < |r| ==> IsDigit(r[i])
    ensures |r| > 1 ==> r[0] != '0'
  {
    if n < 10 then [DigitChar(n)] else NatToString(n / 10) + [DigitChar(n % 10)]
  }

  /** Different numbers print differently. */
  lemma {:induction false} NatToStringInjective(m: nat, n: nat)
    requires NatToString(m) == NatToString(n)
    ensures m == n
  {
    var a, b := NatToString(m), NatToString(n);
    if m >= 10 && n >= 10 {
      assert a[..|a| - 1] == NatToString(m / 10);
      assert b[..|b| - 1] == NatToString(n / 10);
      NatToStringInjective(m / 10, n / 10);
      assert a[|a| - 1] == DigitChar(m % 10);
    }
  }

  /** `s.replace(/[^…]/g, "")`: the characters `keep` accepts, in order. */
  function Filter(s: string, keep: char -> bool): (r: string)
    ensures |r| <= |s|
    ensures forall i :: 0 <= i < |r| ==> keep(r[i])
    ensures (forall i :: 0 <= i < |s| ==> keep(s[i])) ==> r == s
  {
    if s == [] then []
    else if keep(s[0]) then [s[0]] + Filter(s[1..], keep)
    else Filter(s[1..], keep)
  }

  /** Every character `ReplaceSpaceRuns` produces is a non-space character of the input or one of the replacement. */
  lemma {:induction false} ReplaceSpaceRunsChars(s: string, rep: string, ok: char -> bool)
    requires forall i :: 0 <= i < |s| ==> ok(s[i]) || IsSpace(s[i])
    requires forall i :: 0 <= i < |rep| ==> ok(rep[i])
    ensures forall i :: 0 <= i < |ReplaceSpaceRuns(s, rep)| ==> ok(ReplaceSpaceRuns(s, rep)[i])
    decreases |s|
  {
    if s != [] {
      if IsSpace(s[0]) {
        var t := TrimStart(s);
        assert forall i :: 0 <= i < |t| ==> t[i] == s[|s| - |t| + i];
        ReplaceSpaceRunsChars(t, rep, ok);
      } else {
        ReplaceSpaceRunsChars(s[1..], rep, ok);
      }
    }
  }

  lemma LowerAppend(a: string, b: string)
    ensures Lower(a + b) == Lower(a) + Lower(b)
  {
  }

  /** Leading white space is what `trimStart` removes. */
  lemma {:induction false} TrimStartSpaces(w: string, s: string)
    requires AllSpace(w) && NoLeadingSpace(s)
    ensures TrimStart(w + s) == s
  {
    if w != [] {
      assert (w + s)[1..] == w[1..] + s;
      TrimStartSpaces(w[1..], s);
    }
  }

  /** Trailing white space is what `trimEnd` removes. */
  lemma {:induction false} TrimEndSpaces(s: string, w: string)
    requires AllSpace(w) && NoTrailingSpace(s)
    ensures TrimEnd(s + w) == s
  {
    if w != [] {
      assert (s + w)[..|s + w| - 1] == s + w[..|w| - 1];
      TrimEndSpaces(s, w[..|w| - 1]);
    }
  }

  /** `trim` removes exactly the white space around a trimmed middle. */
  lemma TrimSurrounded(w1: string, m: string, w2: string)
    requires AllSpace(w1) && AllSpace(w2) && IsTrimmed(m)
    ensures Trim(w1 + m + w2) == m
  {
    if m == [] {
      assert AllSpace(w1 + m + w2);
      AllSpaceTrimStart(w1 + m + w2);
    } else {
      assert w1 + m + w2 == w1 + (m + w2);
      TrimStartSpaces(w1, m + w2);
      TrimEndSpaces(m, w2);
    }
  }

  lemma {:induction false} FilterAppend(a: string, b: string, keep: char -> bool)
    ensures Filter(a + b, keep) == Filter(a, keep) + Filter(b, keep)
  {
    if a != [] {
      assert (a + b)[0] == a[0];
      assert (a + b)[1..] == a[1..] + b;
      FilterAppend(a[1..], b, keep);
    } else {
      assert a + b == b;
    }
  }

  lemma {:induction false} FilterNone(s: string, keep: char -> bool)
    requires forall i :: 0 <= i < |s| ==> !keep(s[i])
    ensures Filter(s, keep) == []
  {
    if s != [] {
      FilterNone(s[1..], keep);
    }
  }

  /** Text without white space is copied through by `ReplaceSpaceRuns`. */
  lemma {:induction false} ReplaceSpaceRunsPrefix(a: string, t: string, rep: string)
    requires forall i :: 0 <= i < |a| ==> !IsSpace(a[i])
    ensures ReplaceSpaceRuns(a + t, rep) == a + ReplaceSpaceRuns(t, rep)
    decreases |a|
  {
    if a != [] {
      assert (a + t)[0] == a[0];
      assert (a + t)[1..] == a[1..] + t;
      ReplaceSpaceRunsPrefix(a[1..], t, rep);
    } else {
      assert a + t == t;
    }
  }

  /** One run of white space between two words becomes one separator. */
  lemma ReplaceSpaceRunsBetween(a: string, w: string, b: string, rep: string)
    requires forall i :: 0 <= i < |a| ==> !IsSpace(a[i])
    requires forall i :: 0 <= i < |b| ==> !IsSpace(b[i])
    requires AllSpace(w) && w != []
    ensures ReplaceSpaceRuns(a + w + b, rep) == a + rep + b
  {
    assert a + w + b == a + (w + b);
    ReplaceSpaceRunsPrefix(a, w + b, rep);
    TrimStartSpaces(w, b);
    ReplaceSpaceRunsNoop(b, rep);
  }
}
