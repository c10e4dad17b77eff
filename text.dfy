/**
 * The string operations the log analysis applies column by column:
 * Python's str.strip (with and without a character set), str.split with a
 * separator and maxsplit, str.join, str(n) for naturals, str.rjust and int().
 */
module Text {
  import opened Wrappers

  /** Python's str.isspace(): the characters str.strip() removes when given no argument. */
  predicate IsSpace(c: char) {
    var n := c as int;
    n == 0x20 || 0x09 <= n <= 0x0d || 0x1c <= n <= 0x1f || n == 0x85 || n == 0xa0 ||
    n == 0x1680 || 0x2000 <= n <= 0x200a || n == 0x2028 || n == 0x2029 ||
    n == 0x202f || n == 0x205f || n == 0x3000
  }

  /** The number of leading characters satisfying `drop`. */
  function LeadingCount(s: string, drop: char -> bool): (n: nat)
    ensures n <= |s| && (n == |s| || !drop(s[n]))
    ensures forall k :: 0 <= k < n ==> drop(s[k])
  {
    if |s| > 0 && drop(s[0]) then 1 + LeadingCount(s[1..], drop) else 0
  }

  /** The number of trailing characters satisfying `drop`. */
  function TrailingCount(s: string, drop: char -> bool): (n: nat)
    ensures n <= |s| && (n == |s| || !drop(s[|s| - 1 - n]))
    ensures forall k :: |s| - n <= k < |s| ==> drop(s[k])
  {
    if |s| > 0 && drop(s[|s| - 1]) then 1 + TrailingCount(s[..|s| - 1], drop) else 0
  }

  /**
   * str.strip: drops the leading, then the trailing characters satisfying
   * `drop`; what is left is a slice of `s` whose two ends are kept.
   */
  function Strip(s: string, drop: char -> bool): (r: string)
    ensures var i := LeadingCount(s, drop);
      i + |r| <= |s| && r == s[i..i + |r|] &&
      (forall k :: i + |r| <= k < |s| ==> drop(s[k]))
    ensures r == [] || (!drop(r[0]) && !drop(r[|r| - 1]))
  {
    var l := s[LeadingCount(s, drop)..];
    l[..|l| - TrailingCount(l, drop)]
  }

  /** str.strip() with no argument. */
  function Trim(s: string): string {
    Strip(s, IsSpace)
  }

  /** A string whose two ends are kept characters is left alone by Strip. */
  lemma StripKeeps(s: string, drop: char -> bool)
    requires s == [] || (!drop(s[0]) && !drop(s[|s| - 1]))
    ensures Strip(s, drop) == s
  {
  }

  /** The position of the first occurrence of `c`. */
  function FirstIndex(s: string, c: char): (i: nat)
    requires c in s
    ensures i < |s| && s[i] == c && c !in s[..i]
  {
    if s[0] == c then 0 else 1 + FirstIndex(s[1..], c)
  }

  /** sep.join(parts) for a one-character separator. */
  function Join(parts: seq<string>, sep: char): string {
    if |parts| == 0 then ""
    else if |parts| == 1 then parts[0]
    else parts[0] + [sep] + Join(parts[1..], sep)
  }

  lemma JoinTwo(a: string, b: string, sep: char)
    ensures Join([a, b], sep) == a + [sep] + b
  {
    assert [a, b][1..] == [b];
  }

  /**
   * s.split(sep, maxsplit): splits at the first `maxsplit` occurrences of
   * `sep`, keeping empty pieces. The contract determines the pieces: they
   * join back to `s`, no piece but the last holds `sep`, and the last holds
   * none unless all `maxsplit` splits were made.
   */
  function Split(s: string, sep: char, maxsplit: nat): (r: seq<string>)
    ensures 1 <= |r| <= maxsplit + 1
    ensures Join(r, sep) == s
    ensures forall i :: 0 <= i < |r| - 1 ==> sep !in r[i]
    ensures |r| < maxsplit + 1 ==> sep !in r[|r| - 1]
    decreases maxsplit
  {
    if maxsplit == 0 || sep !in s then [s]
    else
      var i := FirstIndex(s, sep);
      var rest := Split(s[i + 1..], sep, maxsplit - 1);
      SplitStep(s, sep, i, rest, maxsplit - 1);
      [s[..i]] + rest
  }

  /** The pieces after the first separator, with the text before it put in front, split `s`. */
  lemma SplitStep(s: string, sep: char, i: nat, rest: seq<string>, m: nat)
    requires i < |s| && s[i] == sep && sep !in s[..i]
    requires 1 <= |rest| <= m + 1 && Join(rest, sep) == s[i + 1..]
    requires forall k :: 0 <= k < |rest| - 1 ==> sep !in rest[k]
    requires |rest| < m + 1 ==> sep !in rest[|rest| - 1]
    ensures 1 <= |[s[..i]] + rest| <= m + 2 && Join([s[..i]] + rest, sep) == s
    ensures forall k :: 0 <= k < |[s[..i]] + rest| - 1 ==> sep !in ([s[..i]] + rest)[k]
    ensures |[s[..i]] + rest| < m + 2 ==> sep !in ([s[..i]] + rest)[|[s[..i]] + rest| - 1]
  {
    assert s == s[..i] + [sep] + s[i + 1..];
    ConsParts(s[..i], rest, sep);
  }

  /** A piece put in front of at least one other joins with a separator. */
  lemma ConsParts(a: string, rest: seq<string>, sep: char)
    requires |rest| >= 1
    ensures Join([a] + rest, sep) == a + [sep] + Join(rest, sep)
    ensures forall k :: 1 <= k <= |rest| ==> ([a] + rest)[k] == rest[k - 1]
    ensures ([a] + rest)[|[a] + rest| - 1] == rest[|rest| - 1]
  {
    assert ([a] + rest)[1..] == rest;
  }

  /** Splitting a string that starts with a separator-free piece and a separator. */
  lemma {:induction false} SplitAfter(a: string, sep: char, b: string, maxsplit: nat)
    requires maxsplit >= 1 && sep !in a
    ensures Split(a + ([sep] + b), sep, maxsplit) == [a] + Split(b, sep, maxsplit - 1)
  {
    var s := a + ([sep] + b);
    assert s[|a|] == sep;
    assert forall k :: 0 <= k < |a| ==> s[k] == a[k];
    var i := FirstIndex(s, sep);
    assert i == |a|;
    assert s[..i] == a && s[i + 1..] == b;
  }

  lemma Assoc(a: string, b: string, c: string)
    ensures (a + b) + c == a + (b + c)
  {
  }

  /** With no split allowed, or no separator present, the string is one piece. */
  lemma SplitNone(s: string, sep: char, maxsplit: nat)
    requires maxsplit == 0 || sep !in s
    ensures Split(s, sep, maxsplit) == [s]
  {
  }

  predicate IsDigit(c: char) {
    '0' <= c <= '9'
  }

  predicate AllDigits(s: string) {
    forall i :: 0 <= i < |s| ==> IsDigit(s[i])
  }

  function DigitValue(c: char): (d: nat)
    requires IsDigit(c)
    ensures d < 10
  {
    c as int - '0' as int
  }

  function Digit(d: nat): (c: char)
    requires d < 10
    ensures IsDigit(c) && DigitValue(c) == d
  {
    ('0' as int + d) as char
  }

  /** The number a string of decimal digits denotes. */
  function DigitsValue(s: string): nat
    requires AllDigits(s)
  {
    if s == [] then 0 else DigitsValue(s[..|s| - 1]) * 10 + DigitValue(s[|s| - 1])
  }

  /** str(n) for a natural: its decimal digits, without leading zeros. */
  function NatText(n: nat): (r: string)
    ensures |r| >= 1 && AllDigits(r) && DigitsValue(r) == n
    ensures r[0] == '0' ==> n == 0
  {
    if n < 10 then [Digit(n)]
    else
      var r := NatText(n / 10) + [Digit(n % 10)];
      assert r[..|r| - 1] == NatText(n / 10);
      r
  }

  /** s.rjust(width, fill). */
  function RJust(s: string, width: nat, fill: char): (r: string)
    ensures |r| == if |s| >= width then |s| else width
    ensures r[|r| - |s|..] == s
    ensures forall i :: 0 <= i < |r| - |s| ==> r[i] == fill
  {
    if |s| >= width then s else seq(width - |s|, _ => fill) + s
  }

  function Pow10(k: nat): (p: nat)
    ensures p >= 1
  {
    if k == 0 then 1 else 10 * Pow10(k - 1)
  }

  /** A number below 10^k has at most k digits. */
  lemma {:induction false} NatTextLength(n: nat, k: nat)
    requires 1 <= k && n < Pow10(k)
    ensures |NatText(n)| <= k
  {
    if n >= 10 {
      assert k >= 2;
      NatTextLength(n / 10, k - 1);
    }
  }

  /** Leading zeros do not change the value of a digit string. */
  lemma {:induction false} LeadingZeros(z: nat, s: string)
    requires AllDigits(s)
    ensures AllDigits(seq(z, _ => '0') + s)
    ensures DigitsValue(seq(z, _ => '0') + s) == DigitsValue(s)
  {
    var t := seq(z, _ => '0') + s;
    if s == [] {
      ZerosValue(z);
      assert t == seq(z, _ => '0');
    } else {
      LeadingZeros(z, s[..|s| - 1]);
      assert t[..|t| - 1] == seq(z, _ => '0') + s[..|s| - 1];
    }
  }

  lemma {:induction false} ZerosValue(z: nat)
    ensures AllDigits(seq(z, _ => '0')) && DigitsValue(seq(z, _ => '0')) == 0
  {
    if z > 0 {
      ZerosValue(z - 1);
      assert seq(z, _ => '0')[..z - 1] == seq(z - 1, _ => '0');
    }
  }

  /**
   * Zero-padded decimal text, the `'%0<width>d'` of isoformat and the
   * `str(n).rjust(width, "0")` of the date-hour key.
   */
  function Padded(n: nat, width: nat): string {
    RJust(NatText(n), width, '0')
  }

  /** A number below 10^width is written in exactly `width` digits that read back as it. */
  lemma PaddedDigits(n: nat, width: nat)
    requires 1 <= width && n < Pow10(width)
    ensures |Padded(n, width)| == width && AllDigits(Padded(n, width))
    ensures DigitsValue(Padded(n, width)) == n
  {
    NatTextLength(n, width);
    var t, r := NatText(n), Padded(n, width);
    var z := width - |t|;
    assert r[..z] == seq(z, _ => '0');
    assert r == r[..z] + r[z..];
    LeadingZeros(z, t);
  }

  /**
   * int(s) on text: surrounding whitespace is ignored, one optional sign,
   * then one or more decimal digits.
   */
  function ParseInt(s: string): Option<int>
  {
    ParseSigned(Trim(s))
  }

  /** The text int() reads once the whitespace is gone: an optional sign, then digits. */
  function ParseSigned(t: string): Option<int>
  {
    if |t| >= 2 && (t[0] == '-' || t[0] == '+') && AllDigits(t[1..]) then
      Some(if t[0] == '-' then -(DigitsValue(t[1..]) as int) else DigitsValue(t[1..]))
    else if |t| >= 1 && AllDigits(t) then Some(DigitsValue(t))
    else None
  }

  /** str(n) for an integer. */
  function IntText(n: int): string {
    if n < 0 then "-" + NatText(-n) else NatText(n)
  }

  /** int() reads back what str() writes. */
  lemma ParseIntText(n: int)
    ensures ParseInt(IntText(n)) == Some(n)
  {
    if n < 0 {
      ParseNegative(NatText(-n));
    } else {
      ParseDigits(NatText(n));
    }
  }

  /** int() of a run of digits is their decimal value. */
  lemma ParseDigits(d: string)
    requires |d| >= 1 && AllDigits(d)
    ensures ParseInt(d) == Some(DigitsValue(d))
  {
    assert Trim(d) == d by {
      assert IsDigit(d[0]) && IsDigit(d[|d| - 1]);
      StripKeeps(d, IsSpace);
    }
  }

  /** int() of a minus sign and a run of digits is the negated decimal value. */
  lemma {:induction false} ParseNegative(d: string)
    requires |d| >= 1 && AllDigits(d)
    ensures ParseInt("-" + d) == Some(-(DigitsValue(d) as int))
  {
    var t := "-" + d;
    assert Trim(t) == t by {
      assert t[|t| - 1] == d[|d| - 1] && IsDigit(d[|d| - 1]);
      StripKeeps(t, IsSpace);
    }
    assert ParseSigned(t) == Some(-(DigitsValue(d) as int)) by {
      assert t[0] == '-' && t[1..] == d;
    }
  }

  /** Python's `<` on str: lexicographic order by character code. */
  predicate LexLess(s: string, t: string) {
    if s == [] then t != []
    else if t == [] then false
    else s[0] < t[0] || (s[0] == t[0] && LexLess(s[1..], t[1..]))
  }

  /** Any two strings are equal or ordered one way. */
  lemma {:induction false} LexTotal(s: string, t: string)
    ensures s == t || LexLess(s, t) || LexLess(t, s)
  {
    if s != [] && t != [] && s[0] == t[0] {
      LexTotal(s[1..], t[1..]);
      if s[1..] == t[1..] {
        assert s == [s[0]] + s[1..] && t == [t[0]] + t[1..];
      }
    }
  }

  lemma {:induction false} LexIrreflexive(s: string)
    ensures !LexLess(s, s)
  {
    if s != [] {
      LexIrreflexive(s[1..]);
    }
  }

  /** Two strings that start with equally long pieces compare by those pieces first. */
  lemma {:induction false} LexConcat(p: string, x: string, q: string, y: string)
    requires |p| == |q|
    ensures LexLess(p + x, q + y) <==> LexLess(p, q) || (p == q && LexLess(x, y))
  {
    if p != [] {
      assert (p + x)[1..] == p[1..] + x && (q + y)[1..] == q[1..] + y;
      LexConcat(p[1..], x, q[1..], y);
      if p[0] == q[0] && p[1..] == q[1..] {
        assert p == [p[0]] + p[1..] && q == [q[0]] + q[1..];
      }
    } else {
      assert p + x == x && q + y == y;
    }
  }

  /** Equally long digit strings compare as text exactly as their values compare. */
  lemma {:induction false} LexDigits(s: string, t: string)
    requires |s| == |t| && AllDigits(s) && AllDigits(t)
    ensures LexLess(s, t) <==> DigitsValue(s) < DigitsValue(t)
    ensures s == t <==> DigitsValue(s) == DigitsValue(t)
  {
    if s != [] {
      var n := |s| - 1;
      LexDigits(s[..n], t[..n]);
      assert s == s[..n] + [s[n]] && t == t[..n] + [t[n]];
      LexConcat(s[..n], [s[n]], t[..n], [t[n]]);
      assert LexLess([s[n]], [t[n]]) <==> s[n] < t[n];
    }
  }

  /** The order of strings is transitive. */
  lemma {:induction false} LexTransitive(a: string, b: string, c: string)
    requires LexLess(a, b) && LexLess(b, c)
    ensures LexLess(a, c)
  {
    if a != [] && a[0] == b[0] && b[0] == c[0] {
      LexTransitive(a[1..], b[1..], c[1..]);
    }
  }
}
