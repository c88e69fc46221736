/**
 * Decimal rendering of the configured percentage, as JavaScript's
 * `Number.prototype.toString()` renders an integral number of magnitude
 * at most 2^53 (every such integer is exactly a double and is printed digit
 * for digit), together with the inverse reader for such strings, so that the
 * rendering is shown to lose nothing.
 */
module NumberFormat {
  import opened Wrappers

  predicate IsDigit(c: char) {
    '0' <= c <= '9'
  }

  predicate AllDigits(s: string) {
    forall i :: 0 <= i < |s| ==> IsDigit(s[i])
  }

  /** A non-empty digit string without a superfluous leading zero. */
  predicate IsCanonicalDigits(s: string) {
    |s| > 0 && AllDigits(s) && (s[0] == '0' ==> |s| == 1)
  }

  function DigitChar(d: nat): (c: char)
    requires d < 10
    ensures IsDigit(c) && DigitValue(c) == d
  {
    ('0' as int + d) as char
  }

  function DigitValue(c: char): (d: nat)
    requires IsDigit(c)
    ensures d < 10
  {
    c as int - '0' as int
  }

  /** The decimal digits of `n`, most significant first. */
  function RenderNat(n: nat): (s: string)
    ensures IsCanonicalDigits(s)
    ensures s[0] == '0' <==> n == 0
    decreases n
  {
    if n < 10 then [DigitChar(n)] else RenderNat(n / 10) + [DigitChar(n % 10)]
  }

  /** `n.toString()` for an integral JavaScript number. */
  function Render(n: int): (s: string)
    ensures |s| > 0
    ensures s[0] == '-' <==> n < 0
    ensures n >= 0 ==> IsCanonicalDigits(s)
    ensures n < 0 ==> IsCanonicalDigits(s[1..]) && s[1] != '0'
  {
    if n < 0 then "-" + RenderNat(-n) else RenderNat(n)
  }

  /** The value of a digit string. */
  function DigitsValue(s: string): (v: nat)
    requires AllDigits(s)
    decreases |s|
  {
    if s == [] then 0 else DigitsValue(s[..|s| - 1]) * 10 + DigitValue(s[|s| - 1])
  }

  /**
   * The inverse of `Render`: reads an integer written as `Render` writes one;
   * anything else is `None`.
   */
  function Parse(s: string): (r: Option<int>)
    ensures r.Some? ==> |s| > 0 && (s[0] == '-' <==> r.value < 0)
    ensures r.Some? ==> Render(r.value) == s
  {
    if |s| > 0 && s[0] == '-' then
      var t := s[1..];
      if IsCanonicalDigits(t) && t[0] != '0' then
        RenderNegative(s);
        Some(-(DigitsValue(t) as int))
      else None
    else if IsCanonicalDigits(s) then
      RenderNatDigitsValue(s);
      Some(DigitsValue(s))
    else None
  }

  /** `-` followed by canonical digits other than zero is the rendering of a negative number. */
  lemma RenderNegative(s: string)
    requires |s| > 1 && s[0] == '-' && IsCanonicalDigits(s[1..]) && s[1] != '0'
    ensures DigitsValue(s[1..]) > 0
    ensures Render(-(DigitsValue(s[1..]) as int)) == s
  {
    var t := s[1..];
    DigitsValuePositive(t);
    RenderNatDigitsValue(t);
    assert s == "-" + t;
  }

  /** A canonical digit string is the rendering of its own value. */
  lemma {:induction false} RenderNatDigitsValue(s: string)
    requires IsCanonicalDigits(s)
    ensures RenderNat(DigitsValue(s)) == s
    decreases |s|
  {
    var n := |s| - 1;
    var v := DigitsValue(s);
    if n == 0 {
      assert DigitChar(DigitValue(s[0])) == s[0];
    } else {
      var init := s[..n];
      assert init[0] == s[0] != '0';
      DigitsValuePositive(init);
      RenderNatDigitsValue(init);
      assert v / 10 == DigitsValue(init) && v % 10 == DigitValue(s[n]);
      assert DigitChar(DigitValue(s[n])) == s[n];
      assert s == init + [s[n]];
    }
  }

  lemma {:induction false} DigitsValueRenderNat(n: nat)
    ensures DigitsValue(RenderNat(n)) == n
    decreases n
  {
    if n >= 10 {
      var s := RenderNat(n);
      DigitsValueRenderNat(n / 10);
      assert s[..|s| - 1] == RenderNat(n / 10);
    }
  }

  lemma {:induction false} DigitsValuePositive(s: string)
    requires AllDigits(s) && |s| > 0 && s[0] != '0'
    ensures DigitsValue(s) > 0
    decreases |s|
  {
    if |s| > 1 {
      DigitsValuePositive(s[..|s| - 1]);
    }
  }

  /** Reading back the rendered percentage gives the configured number. */
  lemma ParseRender(n: int)
    ensures Parse(Render(n)) == Some(n)
  {
    var s := Render(n);
    if n < 0 {
      var t := RenderNat(-n);
      assert s[0] == '-' && s[1..] == t;
      assert IsCanonicalDigits(t) && t[0] != '0';
      DigitsValueRenderNat(-n);
      assert Parse(s) == Some(-(DigitsValue(t) as int));
    } else {
      DigitsValueRenderNat(n);
      assert s[0] != '-' && IsCanonicalDigits(s);
      assert Parse(s) == Some(DigitsValue(s));
    }
  }

  /** Distinct percentages are rendered as distinct strings. */
  lemma RenderInjective(m: int, n: int)
    ensures Render(m) == Render(n) <==> m == n
  {
    if Render(m) == Render(n) {
      ParseRender(m);
      ParseRender(n);
    }
  }
}
