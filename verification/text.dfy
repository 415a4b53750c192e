/** String operations the program relies on: decimal rendering and parsing
    of integers (`str(n)`, `int(s)`, `"%02d"`), splitting at the last
    occurrence of a character (`s.rsplit(c, 1)`), and Python's
    lexicographic string comparison. */
module Text {
  import opened Outcomes

  /** The character of a decimal digit. */
  function DigitChar(d: nat): (c: char)
    requires d < 10
    ensures '0' <= c <= '9'
  {
    (48 + d) as char
  }

  predicate IsDigit(c: char) {
    '0' <= c <= '9'
  }

  function DigitValue(c: char): (d: nat)
    requires IsDigit(c)
    ensures d < 10 && DigitChar(d) == c
  {
    c as int - 48
  }

  predicate AllDigits(s: string) {
    forall i :: 0 <= i < |s| ==> IsDigit(s[i])
  }

  /** A non-empty string of ASCII decimal digits: what `int()` accepts here. */
  predicate IsDecimal(s: string) {
    |s| > 0 && AllDigits(s)
  }

  /** A decimal string without a superfluous leading zero: what `str()` of a
      non-negative integer produces. */
  predicate IsCanonicalDecimal(s: string) {
    IsDecimal(s) && NoLeadingZero(s)
  }

  /** Only the number zero is written with a leading `0`. */
  predicate NoLeadingZero(s: string) {
    |s| > 1 ==> s[0] != '0'
  }

  /** `str(n)` for a non-negative integer. */
  function NatToString(n: nat): (s: string)
    ensures IsCanonicalDecimal(s)
    ensures n < 10 <==> |s| == 1
    decreases n
  {
    if n < 10 then [DigitChar(n)] else NatToString(n / 10) + [DigitChar(n % 10)]
  }

  function Pow10(k: nat): (p: nat)
    ensures p >= 1
  {
    if k == 0 then 1 else 10 * Pow10(k - 1)
  }

  /** `int(s)` for a non-empty string of decimal digits. The number of digits
      bounds the value: below `10^|s|`, and at least `10^(|s|-1)` when the
      first digit is not zero. */
  function ParseNat(s: string): (n: nat)
    requires IsDecimal(s)
    ensures n < Pow10(|s|)
    ensures s[0] != '0' ==> Pow10(|s| - 1) <= n
    decreases |s|
  {
    if |s| == 1 then DigitValue(s[0])
    else
      var p := s[..|s| - 1];
      assert p[0] == s[0];
      10 * ParseNat(p) + DigitValue(s[|s| - 1])
  }

  /** `"%02d" % n`: at least two digits, left-padded with zero, denoting `n`. */
  function Pad2(n: nat): (r: string)
    ensures IsDecimal(r) && |r| >= 2 && ParseNat(r) == n
    ensures n < 100 ==> |r| == 2
  {
    ParseNatToString(n);
    if n < 10 then
      var r := "0" + NatToString(n);
      assert r[..1] == "0";
      r
    else NatToString(n)
  }

  /** Reading back what `str` rendered gives the number again. */
  lemma {:induction false} ParseNatToString(n: nat)
    ensures ParseNat(NatToString(n)) == n
    decreases n
  {
    var s := NatToString(n);
    if n >= 10 {
      ParseNatToString(n / 10);
      assert s[..|s| - 1] == NatToString(n / 10);
    }
  }

  /** A decimal string whose first digit is not zero denotes a positive number. */
  lemma {:induction false} ParsePositive(s: string)
    requires IsDecimal(s) && s[0] != '0'
    ensures ParseNat(s) >= 1
    decreases |s|
  {
    if |s| > 1 {
      var p := s[..|s| - 1];
      assert p[0] == s[0];
      ParsePositive(p);
    }
  }

  /** Rendering what was parsed gives back a canonical decimal string, so on
      canonical strings `str(int(s)) == s`. */
  lemma {:induction false} ToStringParseNat(s: string)
    requires IsCanonicalDecimal(s)
    ensures NatToString(ParseNat(s)) == s
    decreases |s|
  {
    if |s| > 1 {
      var p := s[..|s| - 1];
      assert p[0] == s[0];
      ParsePositive(p);
      ToStringParseNat(p);
      var n := ParseNat(s);
      assert n / 10 == ParseNat(p) && n % 10 == DigitValue(s[|s| - 1]);
      assert s == p + [s[|s| - 1]];
    }
  }

  /** Distinct canonical decimal strings denote distinct numbers. */
  lemma ParseNatInjective(a: string, b: string)
    requires IsCanonicalDecimal(a) && IsCanonicalDecimal(b)
    requires ParseNat(a) == ParseNat(b)
    ensures a == b
  {
    ToStringParseNat(a);
    ToStringParseNat(b);
  }

  /** For n below 100, `"%02d" % n` is exactly its tens and units digit. */
  lemma Pad2Digits(n: nat)
    requires n < 100
    ensures Pad2(n) == [DigitChar(n / 10), DigitChar(n % 10)]
  {
    if n >= 10 {
      assert NatToString(n / 10) == [DigitChar(n / 10)];
    }
  }

  /** The position of the last occurrence of `c` in `s`, if any. */
  function LastIndexOf(s: string, c: char): (r: Option<nat>)
    ensures r.None? <==> c !in s
    ensures r.Some? ==> r.value < |s| && s[r.value] == c && c !in s[r.value + 1..]
    decreases |s|
  {
    if |s| == 0 then None
    else if s[|s| - 1] == c then Some(|s| - 1)
    else
      var r := LastIndexOf(s[..|s| - 1], c);
      assert r.Some? ==> s[r.value + 1..] == s[..|s| - 1][r.value + 1..] + [s[|s| - 1]];
      assert r.None? ==> s == s[..|s| - 1] + [s[|s| - 1]];
      r
  }

  /** `a, b = s.rsplit(c, 1)`: the parts before and after the last `c`;
      `None` when `s` has no `c` (the unpacking raises in Python). */
  function RSplitOnce(s: string, c: char): (r: Option<(string, string)>)
    ensures r.None? <==> c !in s
    ensures r.Some? ==> c !in r.value.1 && |r.value.0| + 1 + |r.value.1| == |s|
  {
    match LastIndexOf(s, c)
    case None => None
    case Some(i) => Some((s[..i], s[i + 1..]))
  }

  /** Splitting `a + c + b` at its last `c` gives back `a` and `b` whenever
      `b` has no `c`, whatever `a` contains. */
  lemma RSplitJoin(a: string, c: char, b: string)
    requires c !in b
    ensures RSplitOnce(a + [c] + b, c) == Some((a, b))
  {
    var s := a + [c] + b;
    assert s[|a|] == c;
    var i := LastIndexOf(s, c).value;
    assert forall j :: |a| < j < |s| ==> s[j] == b[j - |a| - 1];
    assert forall j :: i < j < |s| ==> s[j] == s[i + 1..][j - i - 1];
    assert s[..i] == a && s[i + 1..] == b;
  }

  /** Conversely, a successful split rejoins to the original string and its
      right part has no `c`. */
  lemma RSplitRejoin(s: string, c: char)
    requires RSplitOnce(s, c).Some?
    ensures var (a, b) := RSplitOnce(s, c).value; a + [c] + b == s && c !in b
  {
    var i := LastIndexOf(s, c).value;
    assert s == s[..i] + [c] + s[i + 1..];
  }

  /** Python's `a < b` on strings: lexicographic by code point, a proper
      prefix coming first. */
  predicate StrLt(a: string, b: string)
    ensures StrLt(a, b) ==> a != b
    decreases |a|
  {
    if |a| == 0 then |b| > 0
    else if |b| == 0 then false
    else if a[0] != b[0] then a[0] < b[0]
    else StrLt(a[1..], b[1..])
  }

  lemma {:induction false} StrLtIrreflexive(a: string)
    ensures !StrLt(a, a)
    decreases |a|
  {
    if |a| > 0 {
      StrLtIrreflexive(a[1..]);
    }
  }

  lemma {:induction false} StrLtTransitive(a: string, b: string, c: string)
    requires StrLt(a, b) && StrLt(b, c)
    ensures StrLt(a, c)
    decreases |a|
  {
    if |a| > 0 && |b| > 0 && |c| > 0 && a[0] == b[0] && b[0] == c[0] {
      StrLtTransitive(a[1..], b[1..], c[1..]);
    }
  }

  lemma {:induction false} StrLtTotal(a: string, b: string)
    requires a != b
    ensures StrLt(a, b) || StrLt(b, a)
    decreases |a|
  {
    if |a| > 0 && |b| > 0 && a[0] == b[0] {
      assert a == [a[0]] + a[1..] && b == [b[0]] + b[1..];
      StrLtTotal(a[1..], b[1..]);
    }
  }

  lemma {:induction false} StrLtAsymmetric(a: string, b: string)
    requires StrLt(a, b)
    ensures !StrLt(b, a)
    decreases |a|
  {
    if |a| > 0 && |b| > 0 && a[0] == b[0] {
      StrLtAsymmetric(a[1..], b[1..]);
    }
  }
}
