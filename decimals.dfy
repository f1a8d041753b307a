/**
 * Fixed-point decimals as Python's `decimal.Decimal` renders them when the
 * exponent is fixed (`DecimalField(decimal_places=k)`): an optional '-', the
 * integer digits, '.', exactly k fraction digits. Values are kept as a sign and
 * a magnitude in units of 10^-k.
 */
module Decimals {
  import opened Wrappers
  import opened Text

  /** Python's `str(d)` (fixed-point formatting) for a Decimal with exponent -places. */
  function RenderFixed(negative: bool, magnitude: nat, places: nat): string
    requires places >= 1
  {
    var p := Pow10(places);
    (if negative then "-" else "")
    + NatToString(Quot(magnitude, p))
    + "."
    + PadLeft(NatToString(magnitude % p), places)
  }

  /** Integer part of magnitude / p. */
  function Quot(m: nat, p: nat): (q: nat)
    requires p >= 1
    ensures q * p + m % p == m
  {
    DivNonNegative(m, p);
    m / p
  }

  lemma DivNonNegative(m: nat, p: nat)
    requires p >= 1
    ensures m / p >= 0 && (m / p) * p + m % p == m
  {
  }

  /** Reads back a string of the form RenderFixed produces. */
  function ParseFixed(s: string, places: nat): Option<(bool, nat)>
    requires places >= 1
  {
    if |s| > 0 && s[0] == '-' then
      match ParseUnsigned(s[1..], places)
      case Some(m) => Some((true, m))
      case None => None
    else
      match ParseUnsigned(s, places)
      case Some(m) => Some((false, m))
      case None => None
  }

  /** The magnitude, in units of 10^-places, of a whole part and a fraction part. */
  function Combine(whole: nat, frac: nat, places: nat): nat
  {
    whole * Pow10(places) + frac
  }

  /** Digits, '.', exactly `places` digits. */
  function ParseUnsigned(body: string, places: nat): Option<nat>
    requires places >= 1
  {
    if |body| < places + 2 || body[|body| - places - 1] != '.' then None
    else
      var whole := body[..|body| - places - 1];
      var frac := body[|body| - places..];
      if AllDigits(whole) && AllDigits(frac)
      then Some(Combine(ParseDigits(whole), ParseDigits(frac), places))
      else None
  }

  lemma ParseUnsignedShape(whole: string, frac: string, places: nat)
    requires places >= 1 && |whole| >= 1 && |frac| == places
    requires AllDigits(whole) && AllDigits(frac)
    ensures ParseUnsigned(whole + "." + frac, places)
         == Some(Combine(ParseDigits(whole), ParseDigits(frac), places))
  {
    var body := whole + "." + frac;
    assert body[|body| - places - 1] == '.';
    assert body[..|body| - places - 1] == whole;
    assert body[|body| - places..] == frac;
  }

  /** The sign in front of an unsigned body is read back as given. */
  lemma ParseSigned(negative: bool, body: string, places: nat, m: nat)
    requires places >= 1 && |body| > 0 && body[0] != '-'
    requires ParseUnsigned(body, places) == Some(m)
    ensures ParseFixed((if negative then "-" else "") + body, places) == Some((negative, m))
  {
    if negative {
      assert ("-" + body)[1..] == body;
    } else {
      assert "" + body == body;
    }
  }

  /** ParseFixed reads a sign, digit runs and the point at the right place. */
  lemma ParseShape(negative: bool, whole: string, frac: string, places: nat)
    requires places >= 1 && |whole| >= 1 && |frac| == places
    requires AllDigits(whole) && AllDigits(frac)
    ensures ParseFixed((if negative then "-" else "") + whole + "." + frac, places)
         == Some((negative, Combine(ParseDigits(whole), ParseDigits(frac), places)))
  {
    var body := whole + "." + frac;
    ParseUnsignedShape(whole, frac, places);
    assert IsDigit(body[0]);
    ParseSigned(negative, body, places, Combine(ParseDigits(whole), ParseDigits(frac), places));
    ConcatAssoc(if negative then "-" else "", whole, ".", frac);
  }

  lemma ConcatAssoc(a: string, b: string, c: string, d: string)
    ensures a + b + c + d == a + (b + c + d)
  {
  }

  /** Rendering loses nothing: the sign and every unit of the magnitude come back. */
  lemma RenderParse(negative: bool, magnitude: nat, places: nat)
    requires places >= 1
    ensures ParseFixed(RenderFixed(negative, magnitude, places), places) == Some((negative, magnitude))
  {
    var p := Pow10(places);
    var q := Quot(magnitude, p);
    var digits := NatToString(magnitude % p);
    NatToStringLength(magnitude % p, places);
    var frac := PadLeft(digits, places);
    ParseShape(negative, NatToString(q), frac, places);
    ParseNatToString(q);
    ParsePadLeft(digits, places);
    ParseNatToString(magnitude % p);
  }

  /** Two renderings are equal only when sign and magnitude are. */
  lemma RenderInjective(n1: bool, m1: nat, n2: bool, m2: nat, places: nat)
    requires places >= 1
    requires RenderFixed(n1, m1, places) == RenderFixed(n2, m2, places)
    ensures n1 == n2 && m1 == m2
  {
    RenderParse(n1, m1, places);
    RenderParse(n2, m2, places);
  }

  /**
   * Rounding to the nearest integer, ties to the even neighbour
   * (`ROUND_HALF_EVEN`, the default rounding of Python's decimal context).
   */
  function RoundHalfEven(x: real): (n: int)
    ensures x - 0.5 <= n as real <= x + 0.5
    ensures (n as real - x == 0.5 || x - n as real == 0.5) ==> n % 2 == 0
  {
    var f := x.Floor;
    var d := x - f as real;
    if d < 0.5 then f
    else if d > 0.5 then f + 1
    else if f % 2 == 0 then f
    else f + 1
  }
}
