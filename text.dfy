/** The Python string operations the core relies on (`in`, `find`, `count`,
    `endswith`, `rstrip`, `lower`, `replace`, slicing, `str(int)` and
    `join`), stated over `string` = `seq<char>`. */
module Text {

  /** `t` occurs in `s` starting at index `i`. */
  predicate OccursAt(s: string, t: string, i: int) {
    0 <= i && i + |t| <= |s| && s[i..i + |t|] == t
  }

  /** Python's `t in s`. */
  predicate Contains(s: string, t: string) {
    exists i | 0 <= i <= |s| - |t| :: OccursAt(s, t, i)
  }

  /** Python's `s.find(t, k)`: the first index at or after `k` where `t` occurs, or -1. */
  function FindFrom(s: string, t: string, k: nat): (r: int)
    decreases |s| - k
    ensures r == -1 || (k <= r && OccursAt(s, t, r))
    ensures r == -1 ==> forall i :: k <= i ==> !OccursAt(s, t, i)
    ensures r != -1 ==> forall i :: k <= i < r ==> !OccursAt(s, t, i)
  {
    if k + |t| > |s| then -1
    else if s[k..k + |t|] == t then k
    else FindFrom(s, t, k + 1)
  }

  /** Python's `s.find(t)`; `s.index(t)` is the same index when `t in s`. */
  function Find(s: string, t: string): (r: int)
    ensures r == -1 <==> !Contains(s, t)
    ensures r != -1 ==> OccursAt(s, t, r) && forall i :: 0 <= i < r ==> !OccursAt(s, t, i)
  {
    FindFrom(s, t, 0)
  }

  /** Occurrences in a suffix are occurrences in the whole string, shifted. */
  lemma OccursShift(s: string, t: string, d: nat, j: nat)
    requires d <= |s|
    ensures OccursAt(s[d..], t, j) <==> OccursAt(s, t, j + d)
  {
    if 0 <= j && j + |t| <= |s| - d {
      assert s[d..][j..j + |t|] == s[j + d..j + d + |t|];
    }
  }

  /** An occurrence in the suffix `s[d..]` is one in `s`, `d` further on. */
  lemma OccursInSuffix(s: string, t: string, d: nat, j: nat)
    requires d <= |s| && OccursAt(s[d..], t, j)
    ensures OccursAt(s, t, j + d)
  {
    assert s[d..][j..j + |t|] == s[j + d..j + d + |t|];
  }

  /** An occurrence in `a` is still an occurrence in `a + b`. */
  lemma OccursExtend(a: string, b: string, t: string, i: int)
    requires OccursAt(a, t, i)
    ensures OccursAt(a + b, t, i)
  {
    assert (a + b)[i..i + |t|] == a[i..i + |t|];
  }

  /** An occurrence in `s` moves by `|a|` when `s` is framed by `a` and `b`. */
  lemma OccursFramed(a: string, s: string, b: string, t: string, i: nat)
    requires OccursAt(s, t, i)
    ensures OccursAt(a + s + b, t, |a| + i)
  {
    assert (a + s + b)[|a| + i..|a| + i + |t|] == s[i..i + |t|];
  }

  /** `s` framed by `a` and `b`: `a` opens the result, `b` closes it and `s`
      fills what lies between. */
  lemma Framed(a: string, s: string, b: string)
    ensures a <= a + s + b && EndsWith(a + s + b, b)
    ensures (a + s + b)[|a|..|a + s + b| - |b|] == s
  {
    var r := a + s + b;
    assert r[..|a|] == a;
    assert r[|r| - |b|..] == b;
  }

  /** An occurrence of `v` inside an occurrence of `u` is an occurrence of `v`. */
  lemma OccursWithin(s: string, u: string, v: string, i: int, j: int)
    requires OccursAt(s, u, i) && OccursAt(u, v, j)
    ensures OccursAt(s, v, i + j)
  {
    forall k | 0 <= k < |v|
      ensures s[i + j + k] == v[k]
    {
      assert u[j + k] == v[k];
      assert s[i + (j + k)] == u[j + k];
    }
    assert s[i + j..i + j + |v|] == v;
  }

  /** If `s` contains `u` and `u` contains `v`, then `s` contains `v`. */
  lemma ContainsWithin(s: string, u: string, v: string)
    requires Contains(s, u) && Contains(u, v)
    ensures Contains(s, v)
  {
    var i :| 0 <= i <= |s| - |u| && OccursAt(s, u, i);
    var j :| 0 <= j <= |u| - |v| && OccursAt(u, v, j);
    OccursWithin(s, u, v, i, j);
  }

  /** Python's `s.count(t)` for a non-empty `t`: occurrences found left to
      right, each search resuming after the previous match (no overlap). */
  function Count(s: string, t: string): nat
    requires |t| > 0
    decreases |s|
  {
    if |s| < |t| then 0
    else if s[..|t|] == t then 1 + Count(s[|t|..], t)
    else Count(s[1..], t)
  }

  /** `s.count(t) >= 1` exactly when `t in s`. */
  lemma {:induction false} CountPositive(s: string, t: string)
    requires |t| > 0
    ensures Count(s, t) >= 1 <==> Contains(s, t)
    decreases |s|
  {
    if |s| < |t| {
    } else if s[..|t|] == t {
      assert OccursAt(s, t, 0);
    } else {
      CountPositive(s[1..], t);
      if Contains(s, t) {
        var i :| 0 <= i <= |s| - |t| && OccursAt(s, t, i);
        assert i != 0;
        OccursShift(s, t, 1, i - 1);
        assert OccursAt(s[1..], t, i - 1);
      }
      if Contains(s[1..], t) {
        var j :| 0 <= j <= |s[1..]| - |t| && OccursAt(s[1..], t, j);
        OccursShift(s, t, 1, j);
        assert OccursAt(s, t, j + 1);
      }
    }
  }

  /** `t` occurs twice in `s` without overlapping. */
  predicate TwoApart(s: string, t: string) {
    exists i, j | 0 <= i <= j <= |s| :: i + |t| <= j && OccursAt(s, t, i) && OccursAt(s, t, j)
  }

  lemma CountTwoSound(s: string, t: string)
    requires |t| > 0 && Count(s, t) >= 2
    ensures TwoApart(s, t)
  {
    var i, j := CountTwoWitness(s, t);
    TwoApartIntro(s, t, i, j);
  }

  /** Two non-overlapping occurrences that `Count` has counted. */
  lemma {:induction false} CountTwoWitness(s: string, t: string) returns (i: nat, j: nat)
    requires |t| > 0 && Count(s, t) >= 2
    ensures i + |t| <= j && OccursAt(s, t, i) && OccursAt(s, t, j)
    decreases |s|
  {
    if s[..|t|] == t {
      i := 0;
      j := CountTwoAtStart(s, t);
    } else {
      var rest := s[1..];
      assert Count(rest, t) >= 2 by {
        assert Count(s, t) == Count(rest, t);
      }
      var a, b := CountTwoWitness(rest, t);
      OccursInSuffix(s, t, 1, a);
      OccursInSuffix(s, t, 1, b);
      i, j := a + 1, b + 1;
    }
  }

  /** When `s` starts with `t` and counts it twice, a second occurrence
      follows the first. */
  lemma CountTwoAtStart(s: string, t: string) returns (j: nat)
    requires 0 < |t| <= |s| && s[..|t|] == t && Count(s, t) >= 2
    ensures |t| <= j && OccursAt(s, t, 0) && OccursAt(s, t, j)
  {
    var rest := s[|t|..];
    assert Contains(rest, t) by {
      assert Count(s, t) == 1 + Count(rest, t);
      CountPositive(rest, t);
    }
    var k := OccurrenceOf(rest, t);
    assert OccursAt(s, t, 0) by {
      assert s[0..|t|] == s[..|t|];
    }
    OccursInSuffix(s, t, |t|, k);
    j := k + |t|;
  }

  /** A position where `t` occurs in `s`. */
  lemma OccurrenceOf(s: string, t: string) returns (k: nat)
    requires Contains(s, t)
    ensures OccursAt(s, t, k)
  {
    k :| k <= |s| - |t| && OccursAt(s, t, k);
  }

  lemma TwoApartIntro(s: string, t: string, i: nat, j: nat)
    requires i + |t| <= j && OccursAt(s, t, i) && OccursAt(s, t, j)
    ensures TwoApart(s, t)
  {
  }

  lemma {:induction false} CountTwoComplete(s: string, t: string, i: nat, j: nat)
    requires |t| > 0 && i + |t| <= j && OccursAt(s, t, i) && OccursAt(s, t, j)
    ensures Count(s, t) >= 2
    decreases |s|
  {
    if s[..|t|] == t {
      OccursShift(s, t, |t|, j - |t|);
      CountPositive(s[|t|..], t);
    } else {
      assert i != 0;
      OccursShift(s, t, 1, i - 1);
      OccursShift(s, t, 1, j - 1);
      CountTwoComplete(s[1..], t, i - 1, j - 1);
    }
  }

  /** `s.count(t) >= 2` exactly when `t` occurs twice without overlapping. */
  lemma CountAtLeastTwo(s: string, t: string)
    requires |t| > 0
    ensures Count(s, t) >= 2 <==> TwoApart(s, t)
  {
    if Count(s, t) >= 2 {
      CountTwoSound(s, t);
    }
    if TwoApart(s, t) {
      var i, j :| 0 <= i <= j <= |s| && i + |t| <= j && OccursAt(s, t, i) && OccursAt(s, t, j);
      CountTwoComplete(s, t, i, j);
    }
  }

  /** Python's `s.endswith(t)`. */
  predicate EndsWith(s: string, t: string) {
    |t| <= |s| && s[|s| - |t|..] == t
  }

  /** Python's `s[:n]`. */
  function Prefix(s: string, n: nat): (r: string)
    ensures r <= s && |r| == if |s| <= n then |s| else n
  {
    if |s| <= n then s else s[..n]
  }

  /** Python's `str.isspace` on one character. */
  predicate IsSpace(c: char) {
    c == ' ' || ('\t' <= c <= '\r') || ('\U{1C}' <= c <= '\U{1F}')
    || c == '\U{85}' || c == '\U{A0}' || c == '\U{1680}'
    || ('\U{2000}' <= c <= '\U{200A}') || c == '\U{2028}' || c == '\U{2029}'
    || c == '\U{202F}' || c == '\U{205F}' || c == '\U{3000}'
  }

  /** Python's `s.rstrip()`: the longest prefix of `s` that does not end in whitespace
      and after which only whitespace follows. */
  function RStrip(s: string): (r: string)
    ensures r <= s
    ensures |r| == 0 || !IsSpace(r[|r| - 1])
    ensures forall k :: |r| <= k < |s| ==> IsSpace(s[k])
  {
    if |s| > 0 && IsSpace(s[|s| - 1]) then RStrip(s[..|s| - 1]) else s
  }

  /** Stripping trailing whitespace undoes appending it to a text that does
      not already end in whitespace. */
  lemma RStripAppended(s: string, w: string)
    requires |s| > 0 && !IsSpace(s[|s| - 1])
    requires forall k :: 0 <= k < |w| ==> IsSpace(w[k])
    ensures RStrip(s + w) == s
  {
    var r := RStrip(s + w);
    assert (s + w)[|s| - 1] == s[|s| - 1];
    assert forall k :: |s| <= k < |s + w| ==> IsSpace((s + w)[k]) by {
      forall k | |s| <= k < |s + w|
        ensures IsSpace((s + w)[k])
      {
        assert (s + w)[k] == w[k - |s|];
      }
    }
  }

  /** `lower()` on one character; only ASCII letters are mapped. */
  function LowerChar(c: char): char {
    if 'A' <= c <= 'Z' then (c as int + 32) as char else c
  }

  /** Python's `s.lower()`, restricted to ASCII case mapping. */
  function ToLower(s: string): (r: string)
    ensures |r| == |s|
    ensures forall k :: 0 <= k < |s| ==> r[k] == LowerChar(s[k])
  {
    seq(|s|, k requires 0 <= k < |s| => LowerChar(s[k]))
  }

  /** Python's `s.replace(" ", "")`. */
  function RemoveSpaces(s: string): (r: string)
    ensures ' ' !in r && |r| <= |s|
  {
    if s == [] then [] else (if s[0] == ' ' then [] else [s[0]]) + RemoveSpaces(s[1..])
  }

  predicate IsDigit(c: char) {
    '0' <= c <= '9'
  }

  function DigitChar(d: nat): (c: char)
    requires d < 10
    ensures IsDigit(c)
  {
    ('0' as int + d) as char
  }

  /** Python's `str(n)` for a natural number: decimal digits, no leading zero. */
  function NatToString(n: nat): (r: string)
    ensures |r| > 0 && forall k :: 0 <= k < |r| ==> IsDigit(r[k])
    ensures |r| > 1 ==> r[0] != '0'
    decreases n
  {
    if n < 10 then [DigitChar(n)] else NatToString(n / 10) + [DigitChar(n % 10)]
  }

  /** The number a string of decimal digits denotes (Python's `int(s)`). */
  function DigitsValue(s: string): nat
    requires forall k :: 0 <= k < |s| ==> IsDigit(s[k])
  {
    if s == [] then 0
    else
      assert IsDigit(s[|s| - 1]);
      DigitsValue(s[..|s| - 1]) * 10 + (s[|s| - 1] as int - '0' as int)
  }

  /** `int(str(n)) == n`. */
  lemma {:induction false} NatToStringRoundTrip(n: nat)
    ensures DigitsValue(NatToString(n)) == n
    decreases n
  {
    if n >= 10 {
      var p := NatToString(n / 10);
      assert (p + [DigitChar(n % 10)])[..|p|] == p;
      NatToStringRoundTrip(n / 10);
    }
  }

  /** Different numbers print differently. */
  lemma NatToStringInjective(a: nat, b: nat)
    ensures NatToString(a) == NatToString(b) ==> a == b
  {
    NatToStringRoundTrip(a);
    NatToStringRoundTrip(b);
  }

  /** Python's `sep.join(xs)`. */
  function Join(sep: string, xs: seq<string>): string
    decreases |xs|
  {
    if |xs| == 0 then ""
    else if |xs| == 1 then xs[0]
    else Join(sep, xs[..|xs| - 1]) + sep + xs[|xs| - 1]
  }

  /** Where the `i`-th item starts in `Join(sep, xs)`. */
  function JoinOffset(sep: string, xs: seq<string>, i: nat): nat
    requires i <= |xs|
  {
    if i == 0 then 0 else JoinOffset(sep, xs, i - 1) + |xs[i - 1]| + |sep|
  }

  lemma {:induction false} JoinOffsetPrefix(sep: string, xs: seq<string>, n: nat, i: nat)
    requires i <= n <= |xs|
    ensures JoinOffset(sep, xs[..n], i) == JoinOffset(sep, xs, i)
  {
    if i > 0 {
      JoinOffsetPrefix(sep, xs, n, i - 1);
    }
  }

  lemma {:induction false} JoinLength(sep: string, xs: seq<string>)
    requires |xs| > 0
    ensures |Join(sep, xs)| + |sep| == JoinOffset(sep, xs, |xs|)
    decreases |xs|
  {
    if |xs| > 1 {
      JoinLength(sep, xs[..|xs| - 1]);
      JoinOffsetPrefix(sep, xs, |xs| - 1, |xs| - 1);
    }
  }

  lemma {:induction false} JoinItemAt(sep: string, xs: seq<string>, i: nat)
    requires i < |xs|
    ensures OccursAt(Join(sep, xs), xs[i], JoinOffset(sep, xs, i))
    decreases |xs|
  {
    var n := |xs|;
    if n == 1 {
      assert OccursAt(xs[0], xs[0], 0);
    } else {
      var p := xs[..n - 1];
      var jp := Join(sep, p);
      assert Join(sep, xs) == jp + (sep + xs[n - 1]);
      if i < n - 1 {
        JoinItemAt(sep, p, i);
        JoinOffsetPrefix(sep, xs, n - 1, i);
        OccursExtend(jp, sep + xs[n - 1], xs[i], JoinOffset(sep, xs, i));
      } else {
        JoinLength(sep, p);
        JoinOffsetPrefix(sep, xs, n - 1, n - 1);
        assert (jp + (sep + xs[n - 1]))[|jp| + |sep|..] == xs[n - 1];
      }
    }
  }

  lemma {:induction false} JoinSeparatorAt(sep: string, xs: seq<string>, i: nat)
    requires i + 1 < |xs|
    ensures OccursAt(Join(sep, xs), sep, JoinOffset(sep, xs, i) + |xs[i]|)
    decreases |xs|
  {
    var n := |xs|;
    var p := xs[..n - 1];
    var jp := Join(sep, p);
    JoinOffsetPrefix(sep, xs, n - 1, i);
    if i < n - 2 {
      assert Join(sep, xs) == jp + (sep + xs[n - 1]);
      JoinSeparatorAt(sep, p, i);
      OccursExtend(jp, sep + xs[n - 1], sep, JoinOffset(sep, xs, i) + |xs[i]|);
    } else {
      JoinLength(sep, p);
      JoinOffsetPrefix(sep, xs, n - 1, n - 1);
      assert JoinOffset(sep, xs, i) + |xs[i]| == |jp|;
      assert OccursAt(sep, sep, 0) by {
        assert sep[0..|sep|] == sep;
      }
      OccursFramed(jp, sep, xs[n - 1], sep, 0);
    }
  }

  /** Items start in list order, each after the previous one and a separator. */
  lemma {:induction false} JoinOffsetIncreasing(sep: string, xs: seq<string>, i: nat, j: nat)
    requires i < j <= |xs|
    ensures JoinOffset(sep, xs, i) + |xs[i]| + |sep| <= JoinOffset(sep, xs, j)
    decreases j - i
  {
    if j > i + 1 {
      JoinOffsetIncreasing(sep, xs, i, j - 1);
    }
  }
}
