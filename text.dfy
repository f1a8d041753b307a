/**
 * Character strings as the sales API uses them: substring search (the `*x*`
 * cache patterns and SQL `icontains`), ASCII case folding, the lexicographic
 * order used by `ORDER BY` on category labels, and decimal digit strings.
 */
module Text {

  // ---------------------------------------------------------------------------
  // Substrings

  /** `x` occurs in `s` as a contiguous run of characters. */
  predicate Contains(s: string, x: string)
    decreases |s|
  {
    x <= s || (|s| > 0 && Contains(s[1..], x))
  }

  /** Whatever surrounds `x`, the result contains `x`. */
  lemma {:induction false} ContainsInfix(a: string, x: string, b: string)
    ensures Contains(a + x + b, x)
  {
    if a == [] {
      assert a + x + b == x + b;
    } else {
      assert (a + x + b)[1..] == a[1..] + x + b;
      ContainsInfix(a[1..], x, b);
    }
  }

  /** A string that contains `x` is at least as long as `x`. */
  lemma {:induction false} ContainsLength(s: string, x: string)
    requires Contains(s, x)
    ensures |x| <= |s|
  {
    if !(x <= s) {
      ContainsLength(s[1..], x);
    }
  }

  // ---------------------------------------------------------------------------
  // ASCII case folding

  function LowerChar(c: char): (r: char)
    ensures 'A' <= c <= 'Z' ==> r as int == c as int + 32
    ensures !('A' <= c <= 'Z') ==> r == c
  {
    if 'A' <= c <= 'Z' then (c as int + 32) as char else c
  }

  function Lower(s: string): (r: string)
    ensures |r| == |s|
    ensures forall i :: 0 <= i < |s| ==> r[i] == LowerChar(s[i])
  {
    if s == [] then [] else [LowerChar(s[0])] + Lower(s[1..])
  }

  /** Case-insensitive substring test (Django's `icontains` lookup). */
  predicate IContains(s: string, x: string)
  {
    Contains(Lower(s), Lower(x))
  }

  // ---------------------------------------------------------------------------
  // Whitespace stripping

  /**
   * Python's `str.isspace()` for one character: the Unicode whitespace that
   * `str.strip()` removes.
   */
  predicate IsSpace(c: char)
  {
    var n := c as int;
    n == 0x20 || 0x09 <= n <= 0x0D || 0x1C <= n <= 0x1F || n == 0x85 || n == 0xA0 || n == 0x1680
    || 0x2000 <= n <= 0x200A || n == 0x2028 || n == 0x2029 || n == 0x202F || n == 0x205F || n == 0x3000
  }

  predicate AllSpace(s: string)
  {
    forall i :: 0 <= i < |s| ==> IsSpace(s[i])
  }

  /** `s.lstrip()`: `s` without its leading whitespace. */
  function StripLeft(s: string): (r: string)
    ensures r == [] <==> AllSpace(s)
    ensures r != [] ==> !IsSpace(r[0])
    ensures Contains(s, r)
    ensures forall c :: !IsSpace(c) ==> (c in r <==> c in s)
    decreases |s|
  {
    if s != [] && IsSpace(s[0]) then
      assert s == [s[0]] + s[1..];
      StripLeft(s[1..])
    else
      s
  }

  /** `s.rstrip()`: `s` without its trailing whitespace, a prefix of `s`. */
  function StripRight(s: string): (r: string)
    ensures r == [] <==> AllSpace(s)
    ensures r != [] ==> !IsSpace(r[|r| - 1])
    ensures r <= s
    ensures forall c :: !IsSpace(c) ==> (c in r <==> c in s)
    decreases |s|
  {
    if s != [] && IsSpace(s[|s| - 1]) then
      assert s == s[..|s| - 1] + [s[|s| - 1]];
      StripRight(s[..|s| - 1])
    else
      s
  }

  /**
   * `s.strip()`: `s` without its leading and trailing whitespace. The result
   * is empty iff `s` is all whitespace, it occurs in `s`, and it keeps every
   * character of `s` that is not whitespace.
   */
  function Strip(s: string): (r: string)
    ensures r == [] <==> AllSpace(s)
    ensures r != [] ==> !IsSpace(r[0]) && !IsSpace(r[|r| - 1])
    ensures Contains(s, r)
    ensures forall c :: !IsSpace(c) ==> (c in r <==> c in s)
  {
    var t := StripLeft(s);
    var r := StripRight(t);
    ContainsPrefix(s, t, r);
    r
  }

  /** A string that contains `t` contains every prefix of `t`. */
  lemma {:induction false} ContainsPrefix(s: string, t: string, r: string)
    requires Contains(s, t) && r <= t
    ensures Contains(s, r)
    decreases |s|
  {
    if !(t <= s) {
      ContainsPrefix(s[1..], t, r);
    }
  }

  lemma {:induction false} StripLeftSpaces(a: string, t: string)
    requires AllSpace(a)
    requires t == [] || !IsSpace(t[0])
    ensures StripLeft(a + t) == t
    decreases |a|
  {
    if a == [] {
      assert a + t == t;
    } else {
      assert (a + t)[0] == a[0] && (a + t)[1..] == a[1..] + t;
      StripLeftSpaces(a[1..], t);
    }
  }

  lemma {:induction false} StripRightSpaces(t: string, b: string)
    requires AllSpace(b)
    requires t == [] || !IsSpace(t[|t| - 1])
    ensures StripRight(t + b) == t
    decreases |b|
  {
    if b == [] {
      assert t + b == t;
    } else {
      var n := |t + b|;
      assert (t + b)[n - 1] == b[|b| - 1] && (t + b)[..n - 1] == t + b[..|b| - 1];
      StripRightSpaces(t, b[..|b| - 1]);
    }
  }

  /** Whitespace around a text without whitespace at its ends strips back to that text. */
  lemma StripSurrounded(a: string, m: string, b: string)
    requires AllSpace(a) && AllSpace(b)
    requires m == [] || (!IsSpace(m[0]) && !IsSpace(m[|m| - 1]))
    ensures Strip(a + m + b) == m
  {
    if m == [] {
      var s := a + m + b;
      forall i | 0 <= i < |s| ensures IsSpace(s[i]) {
        if i >= |a| {
          assert s[i] == b[i - |a|];
        }
      }
    } else {
      assert a + m + b == a + (m + b);
      assert (m + b)[0] == m[0];
      StripLeftSpaces(a, m + b);
      StripRightSpaces(m, b);
    }
  }

  // ---------------------------------------------------------------------------
  // Lexicographic order by code point

  predicate StrLess(a: string, b: string)
    decreases |a|
  {
    if a == [] then b != []
    else if b == [] then false
    else a[0] < b[0] || (a[0] == b[0] && StrLess(a[1..], b[1..]))
  }

  lemma {:induction false} StrLessIrreflexive(a: string)
    ensures !StrLess(a, a)
  {
    if a != [] {
      StrLessIrreflexive(a[1..]);
    }
  }

  lemma {:induction false} StrLessTransitive(a: string, b: string, c: string)
    requires StrLess(a, b) && StrLess(b, c)
    ensures StrLess(a, c)
  {
    if a != [] && a[0] == b[0] && b[0] == c[0] {
      StrLessTransitive(a[1..], b[1..], c[1..]);
    }
  }

  lemma {:induction false} StrLessTotal(a: string, b: string)
    ensures a == b || StrLess(a, b) || StrLess(b, a)
  {
    if a != [] && b != [] && a[0] == b[0] {
      StrLessTotal(a[1..], b[1..]);
      if a[1..] == b[1..] {
        assert a == [a[0]] + a[1..] && b == [b[0]] + b[1..];
      }
    }
  }

  // ---------------------------------------------------------------------------
  // Decimal digit strings

  predicate IsDigit(c: char)
  {
    '0' <= c <= '9'
  }

  predicate AllDigits(s: string)
  {
    forall i :: 0 <= i < |s| ==> IsDigit(s[i])
  }

  function DigitChar(d: nat): (c: char)
    requires d < 10
    ensures IsDigit(c) && c as int - '0' as int == d
  {
    ('0' as int + d) as char
  }

  function Pow10(k: nat): (p: nat)
    ensures p >= 1
  {
    if k == 0 then 1 else 10 * Pow10(k - 1)
  }

  /** The shortest decimal representation of `n` (Python's `str(n)` for n >= 0). */
  function NatToString(n: nat): (s: string)
    ensures |s| >= 1 && AllDigits(s)
    decreases n
  {
    if n < 10 then [DigitChar(n)] else NatToString(n / 10) + [DigitChar(n % 10)]
  }

  /** The value of a digit string, most significant digit first. */
  function ParseDigits(s: string): nat
    requires AllDigits(s)
    decreases |s|
  {
    if s == [] then 0
    else ParseDigits(s[..|s| - 1]) * 10 + (s[|s| - 1] as int - '0' as int)
  }

  lemma {:induction false} ParseNatToString(n: nat)
    ensures ParseDigits(NatToString(n)) == n
    decreases n
  {
    if n >= 10 {
      var s := NatToString(n);
      assert s[..|s| - 1] == NatToString(n / 10);
      ParseNatToString(n / 10);
    }
  }

  /** Numbers below 10^k need at most k digits. */
  lemma {:induction false} NatToStringLength(n: nat, k: nat)
    requires k >= 1 && n < Pow10(k)
    ensures |NatToString(n)| <= k
    decreases k
  {
    if n >= 10 {
      assert k >= 2;
      NatToStringLength(n / 10, k - 1);
    }
  }

  function Zeros(k: nat): (z: string)
    ensures |z| == k && AllDigits(z)
    ensures forall i :: 0 <= i < k ==> z[i] == '0'
  {
    if k == 0 then [] else Zeros(k - 1) + ['0']
  }

  /** Left-pads `s` with '0' up to `width` characters (`%02d`-style). */
  function PadLeft(s: string, width: nat): (r: string)
    ensures |r| == if |s| >= width then |s| else width
    ensures AllDigits(s) ==> AllDigits(r)
  {
    if |s| >= width then s else Zeros(width - |s|) + s
  }

  lemma {:induction false} ParseZeros(k: nat)
    ensures ParseDigits(Zeros(k)) == 0
  {
    if k > 0 {
      assert Zeros(k)[..k - 1] == Zeros(k - 1);
      ParseZeros(k - 1);
    }
  }

  /** Leading zeros do not change the value of a digit string. */
  lemma {:induction false} ParseLeadingZeros(k: nat, s: string)
    requires AllDigits(s)
    ensures ParseDigits(Zeros(k) + s) == ParseDigits(s)
    decreases |s|
  {
    var z := Zeros(k);
    if s == [] {
      assert z + s == z;
      ParseZeros(k);
    } else {
      assert (z + s)[..|z + s| - 1] == z + s[..|s| - 1];
      ParseLeadingZeros(k, s[..|s| - 1]);
    }
  }

  lemma {:induction false} ParsePadLeft(s: string, width: nat)
    requires AllDigits(s)
    ensures ParseDigits(PadLeft(s, width)) == ParseDigits(s)
  {
    if |s| < width {
      var k := width - |s|;
      assert PadLeft(s, width) == Zeros(k) + s;
      ParseLeadingZeros(k, s);
    }
  }
}
