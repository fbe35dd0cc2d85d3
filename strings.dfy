/** String helpers standing for the few library calls the program makes on
    `str` (Python) and `string` (TypeScript): literal search, prefix and
    suffix tests, `split(':')`, `strip()`/`trim()`, `lower()`, `int()` and
    `str()`. Characters are treated as ASCII: no Unicode case folding and only
    the ASCII white-space characters. */
module Strings {
  import opened Wrappers

  /** `pat` occurs in `s` starting at position `k`. */
  predicate IsAt(s: string, pat: string, k: nat) {
    k + |pat| <= |s| && s[k..k + |pat|] == pat
  }

  predicate StartsWith(s: string, prefix: string) {
    IsAt(s, prefix, 0)
  }

  lemma StartsWithConcat(p: string, t: string)
    ensures StartsWith(p + t, p)
  {
    assert (p + t)[0..|p|] == p;
  }

  predicate EndsWith(s: string, suffix: string) {
    |suffix| <= |s| && s[|s| - |suffix|..] == suffix
  }

  /** `s.indexOf(pat, from)` / `s.find(pat, from)`: the leftmost occurrence at
      or after `from`, or None when there is none. */
  function IndexOf(s: string, pat: string, from: nat): (r: Option<nat>)
    ensures r.Some? ==> from <= r.value && IsAt(s, pat, r.value)
    ensures r.Some? ==> forall k :: from <= k < r.value ==> !IsAt(s, pat, k)
    ensures r.None? ==> forall k :: from <= k ==> !IsAt(s, pat, k)
    decreases |s| - from
  {
    if from + |pat| > |s| then None
    else if s[from..from + |pat|] == pat then Some(from)
    else IndexOf(s, pat, from + 1)
  }

  /** `s.split(sep)[-1]`: the text after the last `sep`, or all of `s`. */
  function LastSegment(s: string, sep: char): (r: string)
    ensures |r| <= |s| && s[|s| - |r|..] == r
    ensures sep !in r
    ensures |r| < |s| ==> s[|s| - |r| - 1] == sep
  {
    if |s| == 0 then ""
    else if s[|s| - 1] == sep then ""
    else LastSegment(s[..|s| - 1], sep) + [s[|s| - 1]]
  }

  /** After a separator, the last segment is whatever follows it when
      that holds no separator. */
  lemma {:induction false} LastSegmentAfter(p: string, s: string, sep: char)
    requires |p| > 0 && p[|p| - 1] == sep
    requires sep !in s
    ensures LastSegment(p + s, sep) == s
    decreases |s|
  {
    if |s| == 0 {
      assert p + s == p;
    } else {
      var t := s[..|s| - 1];
      LastSegmentAfter(p, t, sep);
      assert (p + s)[..|p + s| - 1] == p + t;
    }
  }

  /** A string without the separator is its own last segment. */
  lemma LastSegmentWhole(s: string, sep: char)
    ensures sep !in s ==> LastSegment(s, sep) == s
  {
    if sep !in s {
      var r := LastSegment(s, sep);
      assert s[|s| - |r|..] == s;
    }
  }

  /** JavaScript `s || fallback` on strings: the fallback stands in for
      the empty string only. */
  function OrDefault(s: string, fallback: string): (r: string)
    ensures s != "" ==> r == s
    ensures s == "" ==> r == fallback
  {
    if s != "" then s else fallback
  }

  /** Python `s.split(sep)` for a one-character separator. */
  function Split(s: string, sep: char): (r: seq<string>)
    ensures |r| >= 1
  {
    if |s| == 0 then [""]
    else
      var rest := Split(s[1..], sep);
      if s[0] == sep then [""] + rest
      else [[s[0]] + rest[0]] + rest[1..]
  }

  /** `sep.join(parts)`, the inverse of `Split`. */
  function Join(parts: seq<string>, sep: char): string
    requires |parts| >= 1
  {
    if |parts| == 1 then parts[0]
    else parts[0] + [sep] + Join(parts[1..], sep)
  }

  /** Prefixing the first part prefixes the joined text. */
  lemma JoinPrefixFirst(parts: seq<string>, c: char, sep: char)
    requires |parts| >= 1
    ensures Join([[c] + parts[0]] + parts[1..], sep) == [c] + Join(parts, sep)
  {
    var q := [[c] + parts[0]] + parts[1..];
    assert q[0] == [c] + parts[0] && q[1..] == parts[1..];
    if |parts| > 1 {
      assert ([c] + parts[0]) + [sep] + Join(parts[1..], sep) == [c] + (parts[0] + [sep] + Join(parts[1..], sep));
    }
  }

  /** No part of a split holds the separator. */
  lemma {:induction false} SplitPartsFree(s: string, sep: char)
    ensures forall i :: 0 <= i < |Split(s, sep)| ==> sep !in Split(s, sep)[i]
  {
    if |s| > 0 {
      var rest := Split(s[1..], sep);
      SplitPartsFree(s[1..], sep);
      var r := Split(s, sep);
      forall i | 0 <= i < |r|
        ensures sep !in r[i]
      {
        if s[0] == sep {
          if i > 0 {
            assert r[i] == rest[i - 1];
          }
        } else if i == 0 {
          assert r[0] == [s[0]] + rest[0];
        } else {
          assert r[i] == rest[i];
        }
      }
    }
  }

  /** Splitting then joining gives back the string, and no part holds the
      separator. */
  lemma {:induction false} JoinSplit(s: string, sep: char)
    ensures Join(Split(s, sep), sep) == s
    ensures forall i :: 0 <= i < |Split(s, sep)| ==> sep !in Split(s, sep)[i]
  {
    SplitPartsFree(s, sep);
    if |s| > 0 {
      var rest := Split(s[1..], sep);
      JoinSplit(s[1..], sep);
      if s[0] == sep {
        assert ([""] + rest)[1..] == rest;
      } else {
        JoinPrefixFirst(rest, s[0], sep);
      }
      assert s == [s[0]] + s[1..];
    }
  }

  /** A separator-free first field splits off as the first part. */
  lemma {:induction false} SplitField(a: string, rest: string, sep: char)
    requires sep !in a
    ensures Split(a + [sep] + rest, sep) == [a] + Split(rest, sep)
    decreases |a|
  {
    var s := a + [sep] + rest;
    if |a| == 0 {
      assert s == [sep] + rest && s[1..] == rest;
    } else {
      assert s[0] == a[0] && s[1..] == a[1..] + [sep] + rest;
      SplitField(a[1..], rest, sep);
      PrefixFirstPart(a[0], a[1..], Split(rest, sep));
      assert [a[0]] + a[1..] == a;
    }
  }

  lemma PrefixFirstPart(c: char, first: string, tail: seq<string>)
    ensures var r := [first] + tail; [[c] + r[0]] + r[1..] == [[c] + first] + tail
  {
    var r := [first] + tail;
    assert r[0] == first && r[1..] == tail;
  }

  /** A string without the separator splits into itself alone. */
  lemma {:induction false} SplitPlain(t: string, sep: char)
    ensures sep !in t ==> Split(t, sep) == [t]
  {
    if sep !in t && |t| > 0 {
      SplitPlain(t[1..], sep);
      assert [t[0]] + t[1..] == t;
    }
  }

  /** Three separator-free fields joined by the separator split back into
      those fields. */
  lemma SplitThree(a: string, b: string, c: string, sep: char)
    requires sep !in a && sep !in b && sep !in c
    ensures Split(a + [sep] + b + [sep] + c, sep) == [a, b, c]
  {
    assert a + [sep] + b + [sep] + c == a + [sep] + (b + [sep] + c);
    SplitField(a, b + [sep] + c, sep);
    SplitField(b, c, sep);
    SplitPlain(c, sep);
  }

  /** Two separator-free fields joined by the separator split back into
      those fields. */
  lemma SplitTwo(a: string, b: string, sep: char)
    requires sep !in a && sep !in b
    ensures Split(a + [sep] + b, sep) == [a, b]
  {
    SplitField(a, b, sep);
    SplitPlain(b, sep);
  }

  /** The ASCII white-space characters removed by `strip()` and `trim()`. */
  predicate IsSpace(c: char) {
    c == ' ' || c == '\t' || c == '\n' || c == '\r' || c == '\U{000B}' || c == '\U{000C}'
  }

  /** The end of the run of white space that starts at `i`. */
  function SpaceRunEnd(s: string, i: nat): (k: nat)
    requires i <= |s|
    ensures i <= k <= |s|
    ensures forall j :: i <= j < k ==> IsSpace(s[j])
    ensures k < |s| ==> !IsSpace(s[k])
    decreases |s| - i
  {
    if i < |s| && IsSpace(s[i]) then SpaceRunEnd(s, i + 1) else i
  }

  /** The start of the run of white space that ends at `j`, not before
      `lo`. */
  function SpaceRunStart(s: string, lo: nat, j: nat): (k: nat)
    requires lo <= j <= |s|
    ensures lo <= k <= j
    ensures forall i :: k <= i < j ==> IsSpace(s[i])
    ensures k > lo ==> !IsSpace(s[k - 1])
    decreases j
  {
    if j > lo && IsSpace(s[j - 1]) then SpaceRunStart(s, lo, j - 1) else j
  }

  /** Python `s.strip()` / TypeScript `s.trim()`: the text between the
      leading and the trailing run of white space. */
  function Trim(s: string): (r: string)
    ensures |r| <= |s|
    ensures |r| > 0 ==> !IsSpace(r[0]) && !IsSpace(r[|r| - 1])
    ensures (forall i :: 0 <= i < |s| ==> IsSpace(s[i])) <==> r == ""
  {
    var a := SpaceRunEnd(s, 0);
    var b := SpaceRunStart(s, a, |s|);
    assert a < |s| ==> b > a;
    s[a..b]
  }

  /** The trim is a slice of `s` with only white space cut at either
      end. */
  lemma TrimSlice(s: string)
    ensures exists a, b :: (0 <= a <= b <= |s| && Trim(s) == s[a..b] &&
                            (forall i :: 0 <= i < a ==> IsSpace(s[i])) &&
                            (forall i :: b <= i < |s| ==> IsSpace(s[i])))
  {
    var a := SpaceRunEnd(s, 0);
    var b := SpaceRunStart(s, a, |s|);
    assert Trim(s) == s[a..b];
  }

  /** A string with no white space at either end is its own trim. */
  lemma TrimUnchanged(s: string)
    requires |s| > 0 && !IsSpace(s[0]) && !IsSpace(s[|s| - 1])
    ensures Trim(s) == s
  {
    assert SpaceRunEnd(s, 0) == 0;
    assert SpaceRunStart(s, 0, |s|) == |s|;
    assert s[0..|s|] == s;
  }

  /** Trimming twice is the same as trimming once. */
  lemma TrimIdempotent(s: string)
    ensures Trim(Trim(s)) == Trim(s)
  {
    var r := Trim(s);
    if |r| > 0 {
      TrimUnchanged(r);
    }
  }

  function LowerChar(c: char): char {
    if 'A' <= c <= 'Z' then (c as int + 32) as char else c
  }

  /** `s.lower()`: ASCII upper-case letters become lower-case. */
  function Lower(s: string): (r: string)
    ensures |r| == |s|
  {
    if |s| == 0 then "" else [LowerChar(s[0])] + Lower(s[1..])
  }

  /** Lower-casing works character by character. */
  lemma {:induction false} LowerAt(s: string, i: nat)
    requires i < |s|
    ensures Lower(s)[i] == LowerChar(s[i])
  {
    if i > 0 {
      LowerAt(s[1..], i - 1);
    }
  }

  /** Lower-casing `s` gives `t` when it does so character by character. */
  lemma LowerIs(s: string, t: string)
    requires |s| == |t| && forall i :: 0 <= i < |s| ==> LowerChar(s[i]) == t[i]
    ensures Lower(s) == t
  {
    forall i | 0 <= i < |s|
      ensures Lower(s)[i] == t[i]
    {
      LowerAt(s, i);
    }
  }

  predicate IsDigit(c: char) {
    '0' <= c <= '9'
  }

  predicate AllDigits(s: string) {
    forall i :: 0 <= i < |s| ==> IsDigit(s[i])
  }

  /** The value of a run of decimal digits (leading zeros allowed). */
  function DigitsValue(s: string): nat
    requires AllDigits(s)
  {
    if |s| == 0 then 0
    else DigitsValue(s[..|s| - 1]) * 10 + (s[|s| - 1] as int - '0' as int)
  }

  /** `str(n)` for a natural number: its decimal digits, no leading zero. */
  function NatToString(n: nat): (r: string)
    ensures |r| >= 1 && AllDigits(r)
    ensures |r| > 1 ==> r[0] != '0'
  {
    if n < 10 then [('0' as int + n) as char]
    else NatToString(n / 10) + [('0' as int + n % 10) as char]
  }

  /** Reading back the digits of `str(n)` gives `n`. */
  lemma {:induction false} DigitsOfNatToString(n: nat)
    ensures DigitsValue(NatToString(n)) == n
  {
    if n >= 10 {
      DigitsOfNatToString(n / 10);
      var r := NatToString(n);
      assert r[..|r| - 1] == NatToString(n / 10);
    }
  }

  /** Different numbers print differently. */
  lemma NatToStringInjective(a: nat, b: nat)
    requires a != b
    ensures NatToString(a) != NatToString(b)
  {
    DigitsOfNatToString(a);
    DigitsOfNatToString(b);
  }

  /** Python `int(s)` on a base-10 string: surrounding white space, an
      optional sign and at least one ASCII digit; anything else is the
      `ValueError` case, here None. */
  function ParseInt(s: string): (r: Option<int>)
    ensures r.Some? ==> exists i :: 0 <= i < |s| && IsDigit(s[i])
  {
    var t := Trim(s);
    if |t| > 0 && (t[0] == '-' || t[0] == '+') then
      var d := t[1..];
      if |d| > 0 && AllDigits(d) then
        assert IsDigit(d[0]) && d[0] == t[1];
        assert t[1] == s[SpaceRunEnd(s, 0) + 1];
        var v: int := DigitsValue(d);
        Some(if t[0] == '-' then -v else v)
      else None
    else if |t| > 0 && AllDigits(t) then
      assert t[0] == s[SpaceRunEnd(s, 0)];
      Some(DigitsValue(t))
    else None
  }

  /** `int(str(n)) == n`. */
  lemma ParseIntOfNat(n: nat)
    ensures ParseInt(NatToString(n)) == Some(n)
  {
    var r := NatToString(n);
    TrimUnchanged(r);
    assert IsDigit(r[0]);
    DigitsOfNatToString(n);
  }

  /** The decimal digits of `n` never contain `c` unless `c` is a digit. */
  lemma NatToStringNoChar(n: nat, c: char)
    requires !IsDigit(c)
    ensures c !in NatToString(n)
  {
  }
}
