/** Decimal rendering of the numbers that the prompt interpolates.

    Integer slider values are rendered the way an f-string renders a Python
    `int`: the shortest decimal numeral. The stair width is a float slider with
    a step of 0.01; it is modelled as a whole number of centimetres and rendered
    as Python's `str` renders such a float: the integer part, a point, and the
    fraction with trailing zeros dropped but at least one digit kept
    (`1.5`, `2.0`, `1.57`).
 */
module Numerals {

  datatype Option<T> = None | Some(value: T)

  predicate IsDigit(c: char) {
    '0' <= c <= '9'
  }

  predicate AllDigits(s: string) {
    forall i :: 0 <= i < |s| ==> IsDigit(s[i])
  }

  function DigitChar(d: nat): (c: char)
    requires d < 10
    ensures IsDigit(c) && c as int - '0' as int == d
  {
    (d + '0' as int) as char
  }

  function DigitValue(c: char): (d: nat)
    requires IsDigit(c)
    ensures d < 10 && DigitChar(d) == c
  {
    c as int - '0' as int
  }

  /** The decimal numeral of `n`: digits only, and no leading zero unless `n` is 0. */
  function NatToString(n: nat): (r: string)
    ensures 1 <= |r| && AllDigits(r)
    ensures r[0] == '0' ==> n == 0 && r == "0"
    ensures n < 10 <==> |r| == 1
  {
    if n < 10 then [DigitChar(n)] else NatToString(n / 10) + [DigitChar(n % 10)]
  }

  /** The value of a string of decimal digits (the reference reading of a numeral). */
  function ParseDigits(s: string): nat
    requires AllDigits(s)
  {
    if s == [] then 0 else 10 * ParseDigits(s[..|s| - 1]) + DigitValue(s[|s| - 1])
  }

  /** Reading the rendered numeral back gives the number: rendering loses nothing. */
  lemma {:induction false} ParseNatToString(n: nat)
    ensures ParseDigits(NatToString(n)) == n
  {
    var r := NatToString(n);
    if n >= 10 {
      ParseNatToString(n / 10);
      assert r[..|r| - 1] == NatToString(n / 10);
    }
  }

  /** Two numbers render the same only if they are equal. */
  lemma NatToStringInjective(m: nat, n: nat)
    requires NatToString(m) == NatToString(n)
    ensures m == n
  {
    ParseNatToString(m);
    ParseNatToString(n);
  }

  /** The digits after the point for `hundredths` hundredths of a metre. */
  function FractionDigits(hundredths: nat): (r: string)
    requires hundredths < 100
    ensures |r| == 1 || |r| == 2
    ensures AllDigits(r)
    ensures |r| == 2 ==> r[1] != '0'
  {
    if hundredths % 10 == 0 then [DigitChar(hundredths / 10)]
    else [DigitChar(hundredths / 10), DigitChar(hundredths % 10)]
  }

  /** The width of `cm` centimetres rendered in metres, as Python renders the float. */
  function WidthToString(cm: nat): (r: string)
  {
    NatToString(cm / 100) + "." + FractionDigits(cm % 100)
  }

  /** Index of the first occurrence of `c` in `s`, if there is one. */
  function IndexOf(s: string, c: char): (r: Option<nat>)
    ensures r.Some? ==> r.value < |s| && s[r.value] == c
    ensures r.Some? ==> forall i :: 0 <= i < r.value ==> s[i] != c
    ensures r.None? ==> forall i :: 0 <= i < |s| ==> s[i] != c
  {
    if s == [] then None
    else if s[0] == c then Some(0)
    else match IndexOf(s[1..], c)
      case None => None
      case Some(k) => Some(k + 1)
  }

  /** Reads a metre value with one or two fraction digits back into centimetres;
      `None` for any string of another shape. */
  function ParseWidth(s: string): (r: Option<nat>)
  {
    match IndexOf(s, '.')
    case None => None
    case Some(k) =>
      var whole, frac := s[..k], s[k + 1..];
      if whole == [] || !AllDigits(whole) || !AllDigits(frac) || !(1 <= |frac| <= 2) then None
      else
        var hundredths := if |frac| == 1 then 10 * DigitValue(frac[0])
                          else 10 * DigitValue(frac[0]) + DigitValue(frac[1]);
        Some(100 * ParseDigits(whole) + hundredths)
  }

  /** Rendering the stair width and reading it back gives the width: the rendered
      form carries the exact value. */
  lemma WidthRoundTrip(cm: nat)
    ensures ParseWidth(WidthToString(cm)) == Some(cm)
  {
    var whole, frac := NatToString(cm / 100), FractionDigits(cm % 100);
    var s := WidthToString(cm);
    assert s == whole + "." + frac;
    assert s[|whole|] == '.';
    assert forall i :: 0 <= i < |whole| ==> s[i] == whole[i] && IsDigit(s[i]);
    assert IndexOf(s, '.') == Some(|whole|);
    assert s[..|whole|] == whole;
    assert s[|whole| + 1..] == frac;
    ParseNatToString(cm / 100);
  }

  /** A concrete rendering of a slider value. */
  lemma NumeralExample()
    ensures NatToString(700) == "700"
  {
    assert NatToString(70) == "70";
  }

  /** Concrete renderings: a width of 1.5 m shows as "1.5" and 2.0 m as "2.0". */
  lemma WidthExamples()
    ensures WidthToString(150) == "1.5"
    ensures WidthToString(200) == "2.0"
    ensures WidthToString(157) == "1.57"
  {
  }
}
