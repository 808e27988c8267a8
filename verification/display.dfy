/**
 * `toPercent` (app.js): a raw score rounded the way `Math.round` rounds,
 * clamped to 0..100 and written as a decimal number followed by "%".
 */
module Display {

  /** `Math.round`: the nearest integer, halves rounded up (towards +infinity). */
  function Round(v: real): (n: int)
    ensures (n as real) - 0.5 <= v < (n as real) + 0.5
  {
    (v + 0.5).Floor
  }

  /** The displayed percentage, before it is written as text. */
  function ToPercent(v: real): (n: int)
    ensures 0 <= n <= 100
    ensures n == 100 <==> v >= 99.5
    ensures n == 0 <==> v < 0.5
    ensures 0.5 <= v < 99.5 ==> (n as real) - 0.5 <= v < (n as real) + 0.5
  {
    var r := Round(v);
    if r > 100 then 100 else if r < 0 then 0 else r
  }

  /** A larger raw score never shows a smaller percentage. */
  lemma ToPercentMonotone(v: real, w: real)
    requires v <= w
    ensures ToPercent(v) <= ToPercent(w)
  {
  }

  /** On a whole number already in range the display is that number. */
  lemma ToPercentIdentity(n: int)
    requires 0 <= n <= 100
    ensures ToPercent(n as real) == n
  {
  }

  function DigitChar(d: nat): (c: char)
    requires d < 10
    ensures '0' <= c <= '9'
  {
    "0123456789"[d]
  }

  function DigitValue(c: char): nat
    requires '0' <= c <= '9'
  {
    (c as int - '0' as int) as nat
  }

  /** Decimal text of a natural number, as a template literal prints an integer. */
  function Decimal(n: nat): (s: string)
    ensures 1 <= |s|
    ensures forall i :: 0 <= i < |s| ==> '0' <= s[i] <= '9'
    ensures n < 10 <==> |s| == 1
    ensures |s| > 1 ==> s[0] != '0'
    decreases n
  {
    if n < 10 then [DigitChar(n)] else Decimal(n / 10) + [DigitChar(n % 10)]
  }

  /** The value of a string of decimal digits. */
  function DecimalValue(s: string): nat
    requires forall i :: 0 <= i < |s| ==> '0' <= s[i] <= '9'
  {
    if s == [] then 0 else DecimalValue(s[..|s| - 1]) * 10 + DigitValue(s[|s| - 1])
  }

  /** Reading back the decimal text of n gives n. */
  lemma {:induction false} DecimalRoundTrip(n: nat)
    ensures DecimalValue(Decimal(n)) == n
  {
    if n >= 10 {
      DecimalRoundTrip(n / 10);
      var s := Decimal(n);
      assert s[..|s| - 1] == Decimal(n / 10);
    }
  }

  /** `toPercent(v)`: the text shown for a raw score. */
  function PercentText(v: real): string
  {
    Decimal(ToPercent(v)) + "%"
  }

  /** The shown text is one to three digits and a percent sign, and reads back as ToPercent(v). */
  lemma PercentTextReadsBack(v: real)
    ensures var t := PercentText(v);
      2 <= |t| <= 4 && t[|t| - 1] == '%' &&
      (forall i :: 0 <= i < |t| - 1 ==> '0' <= t[i] <= '9') &&
      DecimalValue(t[..|t| - 1]) == ToPercent(v)
  {
    var t := PercentText(v);
    DecimalRoundTrip(ToPercent(v));
    assert t[..|t| - 1] == Decimal(ToPercent(v));
    DecimalLength(ToPercent(v));
  }

  lemma {:induction false} DecimalLength(n: nat)
    requires n <= 100
    ensures |Decimal(n)| <= 3
  {
    if n >= 10 {
      DecimalLength(n / 10);
    }
  }

  /** "100%" is shown exactly from 99.5 up, so for every score of 100 or more. */
  lemma PercentTextFull(v: real)
    ensures PercentText(v) == "100%" <==> v >= 99.5
  {
    assert Decimal(100) == Decimal(10) + ['0'];
    assert Decimal(10) == Decimal(1) + ['0'];
    if PercentText(v) == "100%" {
      PercentTextReadsBack(v);
      assert PercentText(v)[..3] == "100";
    }
  }

  /** "0%" is shown exactly below 0.5, so for every negative score. */
  lemma PercentTextEmpty(v: real)
    ensures PercentText(v) == "0%" <==> v < 0.5
  {
    if PercentText(v) == "0%" {
      PercentTextReadsBack(v);
      assert PercentText(v)[..1] == "0";
    }
  }
}
