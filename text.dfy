/**
 * String helpers standing in for the parts of Go's `strings`, `unicode` and
 * `fmt` packages that the converter uses. Strings are sequences of code points.
 */
module Text {

  /** Go's unicode.IsSpace: the Latin-1 spaces plus the Unicode White_Space characters. */
  predicate IsSpace(c: char) {
    c == ' ' || c == '\t' || c == '\n' || c == '\U{000B}' || c == '\U{000C}' || c == '\r'
    || c == '\U{0085}' || c == '\U{00A0}' || c == '\U{1680}'
    || ('\U{2000}' <= c <= '\U{200A}')
    || c == '\U{2028}' || c == '\U{2029}' || c == '\U{202F}' || c == '\U{205F}' || c == '\U{3000}'
  }

  /** No leading or trailing space: the shape strings.TrimSpace produces. */
  predicate Trimmed(s: string) {
    s == [] || (!IsSpace(s[0]) && !IsSpace(s[|s| - 1]))
  }

  /** The index of the first non-space character of s at or after i, or |s| when there is none. */
  function SkipSpace(s: string, i: nat): (r: nat)
    requires i <= |s|
    decreases |s| - i
    ensures i <= r <= |s|
    ensures r < |s| ==> !IsSpace(s[r])
  {
    if i == |s| || !IsSpace(s[i]) then i else SkipSpace(s, i + 1)
  }

  /** Every character SkipSpace passes over is a space. */
  lemma {:induction false} SkipSpaceSkipsSpaces(s: string, i: nat, k: nat)
    requires i <= |s| && i <= k < SkipSpace(s, i)
    decreases |s| - i
    ensures IsSpace(s[k])
  {
    if k > i {
      SkipSpaceSkipsSpaces(s, i + 1, k);
    }
  }

  /** The end of s[..j] once its trailing spaces are dropped. */
  function EndSpace(s: string, j: nat): (r: nat)
    requires j <= |s|
    ensures r <= j
    ensures r > 0 ==> !IsSpace(s[r - 1])
  {
    if j == 0 || !IsSpace(s[j - 1]) then j else EndSpace(s, j - 1)
  }

  /** Every character EndSpace drops is a space. */
  lemma {:induction false} EndSpaceDropsSpaces(s: string, j: nat, k: nat)
    requires j <= |s| && EndSpace(s, j) <= k < j
    ensures IsSpace(s[k])
  {
    if k < j - 1 {
      EndSpaceDropsSpaces(s, j - 1, k);
    }
  }

  /** strings.TrimLeftFunc(s, unicode.IsSpace) */
  function TrimLeftSpace(s: string): (r: string)
    ensures |r| <= |s|
    ensures r == [] || !IsSpace(r[0])
  {
    s[SkipSpace(s, 0)..]
  }

  /** strings.TrimRightFunc(s, unicode.IsSpace) */
  function TrimRightSpace(s: string): (r: string)
    ensures |r| <= |s|
    ensures r == [] || !IsSpace(r[|r| - 1])
  {
    s[..EndSpace(s, |s|)]
  }

  /** strings.TrimSpace */
  function TrimSpace(s: string): (r: string)
    ensures Trimmed(r)
    ensures |r| <= |s|
  {
    TrimRightSpace(TrimLeftSpace(s))
  }

  /** Trimming a string that has no space at either end changes nothing. */
  lemma TrimSpaceOfTrimmed(s: string)
    requires Trimmed(s)
    ensures TrimSpace(s) == s
  {
  }

  /** strings.TrimSpace yields a contiguous piece of its input, and only spaces are dropped. */
  lemma TrimSpaceIsInfix(s: string)
    ensures exists i, j :: 0 <= i <= j <= |s| && TrimSpace(s) == s[i..j]
                           && (forall k :: 0 <= k < i ==> IsSpace(s[k]))
                           && (forall k :: j <= k < |s| ==> IsSpace(s[k]))
  {
    var i := SkipSpace(s, 0);
    var l := s[i..];
    var e := EndSpace(l, |l|);
    assert TrimSpace(s) == s[i..i + e];
    forall k | 0 <= k < i
      ensures IsSpace(s[k])
    {
      SkipSpaceSkipsSpaces(s, 0, k);
    }
    forall k | i + e <= k < |s|
      ensures IsSpace(s[k])
    {
      EndSpaceDropsSpaces(l, |l|, k - i);
    }
  }

  /** The index of the first character of s at or after i that is not in cut, or |s|. */
  function SkipCut(s: string, cut: set<char>, i: nat): (r: nat)
    requires i <= |s|
    decreases |s| - i
    ensures i <= r <= |s|
    ensures r < |s| ==> s[r] !in cut
  {
    if i == |s| || s[i] !in cut then i else SkipCut(s, cut, i + 1)
  }

  /** The end of s[..j] once its trailing characters in cut are dropped. */
  function EndCut(s: string, cut: set<char>, j: nat): (r: nat)
    requires j <= |s|
    ensures r <= j
    ensures r > 0 ==> s[r - 1] !in cut
  {
    if j == 0 || s[j - 1] !in cut then j else EndCut(s, cut, j - 1)
  }

  /** strings.Trim(s, cutset) with the cutset given as a set of characters. */
  function TrimCutset(s: string, cut: set<char>): (r: string)
    ensures |r| <= |s|
    ensures r == [] || (r[0] !in cut && r[|r| - 1] !in cut)
    ensures forall i :: 0 <= i < |r| ==> r[i] in s
  {
    var k := SkipCut(s, cut, 0);
    var t := s[k..];
    var r := t[..EndCut(t, cut, |t|)];
    assert forall i :: 0 <= i < |r| ==> r[i] == s[k + i];
    r
  }

  /** Every character SkipCut passes over is in cut. */
  lemma {:induction false} SkipCutSkips(s: string, cut: set<char>, i: nat, k: nat)
    requires i <= |s| && i <= k < SkipCut(s, cut, i)
    decreases |s| - i
    ensures s[k] in cut
  {
    if k > i {
      SkipCutSkips(s, cut, i + 1, k);
    }
  }

  /** Every character EndCut drops from the end of s[..j] is in cut. */
  lemma {:induction false} EndCutDrops(s: string, cut: set<char>, j: nat, k: nat)
    requires j <= |s| && EndCut(s, cut, j) <= k < j
    ensures s[k] in cut
  {
    if k < j - 1 {
      EndCutDrops(s, cut, j - 1, k);
    }
  }

  /** strings.Trim cuts off a run of cut characters at each end and keeps the middle as it is. */
  lemma TrimCutsetIsInfix(s: string, cut: set<char>)
    ensures exists i, j :: 0 <= i <= j <= |s| && TrimCutset(s, cut) == s[i..j]
                           && (forall k :: 0 <= k < i ==> s[k] in cut)
                           && (forall k :: j <= k < |s| ==> s[k] in cut)
  {
    var i := SkipCut(s, cut, 0);
    var t := s[i..];
    var e := EndCut(t, cut, |t|);
    assert TrimCutset(s, cut) == s[i..i + e];
    forall k | 0 <= k < i
      ensures s[k] in cut
    {
      SkipCutSkips(s, cut, 0, k);
    }
    forall k | i + e <= k < |s|
      ensures s[k] in cut
    {
      EndCutDrops(t, cut, |t|, k - i);
    }
  }

  /** strings.HasPrefix */
  predicate HasPrefix(s: string, p: string) {
    |p| <= |s| && s[..|p|] == p
  }

  lemma PrefixOfConcat(a: string, b: string)
    ensures HasPrefix(a + b, a)
  {
    assert (a + b)[..|a|] == a;
  }

  lemma PrefixOfConcat4(a: string, b: string, c: string, d: string)
    ensures HasPrefix(a + b + c + d, a)
  {
    assert a + b + c + d == a + (b + c + d);
    PrefixOfConcat(a, b + c + d);
  }

  lemma PrefixTrans(s: string, p: string, q: string)
    requires HasPrefix(s, p) && HasPrefix(p, q)
    ensures HasPrefix(s, q)
  {
    assert s[..|q|] == s[..|p|][..|q|];
  }

  lemma PrefixExtend(a: string, b: string, p: string)
    requires HasPrefix(b, p)
    ensures HasPrefix(a + b, a + p)
  {
    assert (a + b)[..|a + p|] == a + b[..|p|];
  }

  /** strings.HasSuffix */
  predicate HasSuffix(s: string, p: string) {
    |p| <= |s| && s[|s| - |p|..] == p
  }

  lemma SuffixOfConcat(a: string, b: string)
    ensures HasSuffix(a + b, b)
  {
    assert (a + b)[|a|..] == b;
  }

  lemma SuffixExtend(a: string, b: string, c: string, p: string)
    requires HasSuffix(b, p)
    ensures HasSuffix(a + b + c, p + c)
  {
    assert (a + b + c)[|a + b + c| - |p + c|..] == b[|b| - |p|..] + c;
  }

  /** Whether sub occurs in s at an index from i on. */
  predicate ContainsFrom(s: string, sub: string, i: nat)
    decreases |s| - i
  {
    i + |sub| <= |s| && (s[i..i + |sub|] == sub || ContainsFrom(s, sub, i + 1))
  }

  /** strings.Contains */
  predicate Contains(s: string, sub: string) {
    ContainsFrom(s, sub, 0)
  }

  /** Lower-casing of the ASCII letters; other characters are kept. */
  function ToLowerAscii(s: string): (r: string)
    ensures |r| == |s|
    ensures forall i :: 0 <= i < |s| ==> r[i] == if 'A' <= s[i] <= 'Z' then s[i] - 'A' + 'a' else s[i]
  {
    seq(|s|, i requires 0 <= i < |s| => if 'A' <= s[i] <= 'Z' then s[i] - 'A' + 'a' else s[i])
  }

  /** strings.ReplaceAll for a single character. */
  function ReplaceChar(s: string, from: char, to: char): (r: string)
    ensures |r| == |s|
    ensures forall i :: 0 <= i < |s| ==> r[i] == if s[i] == from then to else s[i]
  {
    seq(|s|, i requires 0 <= i < |s| => if s[i] == from then to else s[i])
  }

  /** strings.Repeat, written so that it grows at the end. */
  function Repeat(s: string, n: nat): (r: string)
    ensures |r| == n * |s|
  {
    if n == 0 then "" else Repeat(s, n - 1) + s
  }

  /** strings.Repeat gives n copies of s: it starts with s and repeats with period |s|. */
  lemma {:induction false} RepeatCopies(s: string, n: nat)
    ensures n > 0 ==> HasPrefix(Repeat(s, n), s)
    ensures forall i :: 0 <= i && i + |s| < |Repeat(s, n)| ==> Repeat(s, n)[i + |s|] == Repeat(s, n)[i]
  {
    if n > 0 {
      RepeatCopies(s, n - 1);
      var p := Repeat(s, n - 1);
      var r := Repeat(s, n);
      assert r == p + s;
      if n == 1 {
        assert r == s;
      } else {
        var q := Repeat(s, n - 2);
        assert p == q + s;
        PrefixOfConcat(p, s);
        PrefixTrans(r, p, s);
        forall i | 0 <= i && i + |s| < |r|
          ensures r[i + |s|] == r[i]
        {
          if i + |s| >= |p| {
            assert r[i + |s|] == s[i + |s| - |p|];
            assert r[i] == p[i] == s[i - |q|];
          }
        }
      }
    }
  }

  /** strings.Join */
  function Join(parts: seq<string>, sep: string): string
  {
    if |parts| == 0 then ""
    else if |parts| == 1 then parts[0]
    else Join(parts[..|parts| - 1], sep) + sep + parts[|parts| - 1]
  }

  /** The decimal digit character for d. */
  function Digit(d: nat): (c: char)
    requires d < 10
    ensures '0' <= c <= '9'
  {
    ('0' as int + d) as char
  }

  /** Decimal rendering of a natural number, as fmt's %d prints it. */
  function Itoa(n: nat): (r: string)
    ensures |r| >= 1
    ensures n >= 10 ==> |r| >= 2
  {
    if n < 10 then [Digit(n)] else Itoa(n / 10) + [Digit(n % 10)]
  }

  /** Distinct numbers print differently. */
  lemma {:induction false} ItoaInjective(a: nat, b: nat)
    requires Itoa(a) == Itoa(b)
    ensures a == b
  {
    if a < 10 && b < 10 {
      assert Itoa(a)[0] == Digit(a) && Itoa(b)[0] == Digit(b);
    } else if a >= 10 && b >= 10 {
      var ra, rb := Itoa(a / 10), Itoa(b / 10);
      assert Itoa(a) == ra + [Digit(a % 10)];
      assert Itoa(b) == rb + [Digit(b % 10)];
      assert |ra| == |rb|;
      assert ra == Itoa(a)[..|ra|] && rb == Itoa(b)[..|rb|];
      ItoaInjective(a / 10, b / 10);
      assert Itoa(a)[|ra|] == Digit(a % 10) && Itoa(b)[|rb|] == Digit(b % 10);
    }
  }
}
