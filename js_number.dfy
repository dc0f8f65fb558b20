/** JavaScript's global `parseFloat`, read as an exact rational number: skip
    leading white space, then take the longest prefix that is a decimal
    literal (optional sign, digits with an optional point and fraction, an
    optional exponent). `None` stands for `NaN`, the answer when no such
    prefix exists. */
module JsNumber {
  import opened Optional
  import opened Text

  predicate AllDigits(s: string) {
    forall i | 0 <= i < |s| :: IsDigit(s[i])
  }

  function DigitValue(c: char): nat
    requires IsDigit(c)
  {
    (c as int) - ('0' as int)
  }

  /** Length of the run of digits at the start of `s`. */
  function DigitRun(s: string): (n: nat)
    ensures n <= |s| && AllDigits(s[..n])
    ensures n == |s| || !IsDigit(s[n])
  {
    if s != [] && IsDigit(s[0]) then
      var n := 1 + DigitRun(s[1..]);
      assert s[..n] == [s[0]] + s[1..][..n - 1];
      n
    else 0
  }

  /** The integer a run of decimal digits denotes. */
  function Whole(d: string): nat
    requires AllDigits(d)
  {
    if d == [] then 0 else 10 * Whole(d[..|d| - 1]) + DigitValue(d[|d| - 1])
  }

  /** The value of `0.d₁d₂…` for the digits after a decimal point. */
  function Fraction(d: string): (r: real)
    requires AllDigits(d)
    ensures 0.0 <= r < 1.0
  {
    if d == [] then 0.0 else (DigitValue(d[0]) as real + Fraction(d[1..])) / 10.0
  }

  /** `x` times ten to the power `n`, one decimal place at a time. */
  function ScaleUp(x: real, n: nat): (r: real)
    ensures x >= 0.0 ==> r >= x
  {
    if n == 0 then x else 10.0 * ScaleUp(x, n - 1)
  }

  /** `x` divided by ten to the power `n`, one decimal place at a time. */
  function ScaleDown(x: real, n: nat): (r: real)
    ensures x >= 0.0 ==> 0.0 <= r <= x
  {
    if n == 0 then x else ScaleDown(x, n - 1) / 10.0
  }

  /** `x` scaled by the exponent part (`e`, optional sign, digits) at the
      start of `s`; `x` itself when `s` does not start with a complete one,
      in which case the literal ends before the `e`. */
  function WithExponent(x: real, s: string): (r: real)
    ensures x >= 0.0 ==> r >= 0.0
  {
    if |s| >= 2 && (s[0] == 'e' || s[0] == 'E') then
      var digits := if s[1] == '+' || s[1] == '-' then s[2..] else s[1..];
      var k := DigitRun(digits);
      if k == 0 then x
      else if s[1] == '-' then ScaleDown(x, Whole(digits[..k]))
      else ScaleUp(x, Whole(digits[..k]))
    else x
  }

  /** An unsigned decimal literal starts here: a digit, or a point followed
      by a digit. */
  predicate StartsNumeral(u: string) {
    || (u != [] && IsDigit(u[0]))
    || (|u| >= 2 && u[0] == '.' && IsDigit(u[1]))
  }

  /** The longest unsigned decimal literal at the start of `u`, if any. */
  function ParseUnsigned(u: string): (r: Option<real>)
    ensures r.Some? <==> StartsNumeral(u)
    ensures r.Some? ==> r.value >= 0.0
  {
    var n := DigitRun(u);
    assert n > 0 <==> u != [] && IsDigit(u[0]);
    ParseAfterWhole(u[..n], u[n..])
  }

  /** The literal once its whole part `w` (possibly empty) is read and `a`
      follows it: an optional point with fraction digits, then an optional
      exponent part. */
  function ParseAfterWhole(w: string, a: string): (r: Option<real>)
    requires AllDigits(w)
    requires a == [] || !IsDigit(a[0])
    ensures r.Some? <==> w != [] || (|a| >= 2 && a[0] == '.' && IsDigit(a[1]))
    ensures r.Some? ==> r.value >= 0.0
  {
    if a != [] && a[0] == '.' then
      var m := DigitRun(a[1..]);
      if w == [] && m == 0 then None
      else Some(WithExponent(Whole(w) as real + Fraction(a[1..][..m]), a[1..][m..]))
    else if w == [] then None
    else Some(WithExponent(Whole(w) as real, a))
  }

  predicate HasSign(t: string) {
    t != [] && (t[0] == '+' || t[0] == '-')
  }

  function Unsigned(t: string): string {
    if HasSign(t) then t[1..] else t
  }

  /** `parseFloat(s)`: `None` (NaN) exactly when, after white space and an
      optional sign, no digit or point-and-digit follows. */
  function ParseFloat(s: string): (r: Option<real>)
    ensures r.Some? <==> StartsNumeral(Unsigned(TrimStart(s)))
  {
    ParseSigned(TrimStart(s))
  }

  /** The signed literal at the start of `t`, which starts with no white space. */
  function ParseSigned(t: string): (r: Option<real>)
    ensures r.Some? <==> StartsNumeral(Unsigned(t))
  {
    if t != [] && t[0] == '-' then
      match ParseUnsigned(t[1..])
      case None => None
      case Some(x) => Some(-x)
    else ParseUnsigned(Unsigned(t))
  }

  lemma DigitIsNoMark(c: char)
    requires IsDigit(c)
    ensures c != '+' && c != '-' && c != '.' && c != 'e' && c != 'E' && !IsSpace(c)
  {
  }

  lemma TrimStartDigits(d: string, t: string)
    requires d != [] && AllDigits(d)
    ensures TrimStart(d + t) == d + t
  {
    var s := d + t;
    assert s[0] == d[0];
    assert IsDigit(s[0]);
    assert !IsSpace(s[0]);
  }

  /** The unsigned literal at the start of `d + t` has the digits `d` as its
      whole part. */
  lemma UnsignedDigits(d: string, t: string)
    requires AllDigits(d)
    requires t == [] || !IsDigit(t[0])
    ensures ParseUnsigned(d + t) == ParseAfterWhole(d, t)
  {
    var s := d + t;
    DigitRunAppend(d, t);
    assert s[..|d|] == d && s[|d|..] == t;
  }

  /** What `parseFloat` reads from text that starts with a digit. */
  lemma ParseFloatDigits(d: string, t: string)
    requires d != [] && AllDigits(d)
    requires t == [] || !IsDigit(t[0])
    ensures ParseFloat(d + t) == ParseAfterWhole(d, t)
  {
    var s := d + t;
    TrimStartDigits(d, t);
    assert ParseFloat(s) == ParseSigned(s);
    assert s[0] == d[0];
    DigitIsNoMark(d[0]);
    assert ParseSigned(s) == ParseUnsigned(s);
    UnsignedDigits(d, t);
  }

  /** The decimal digits of `n`, most significant first, without leading zeros. */
  function NatText(n: nat): (d: string)
    ensures d != [] && AllDigits(d)
  {
    var c := ('0' as int + n % 10) as char;
    if n < 10 then [c] else NatText(n / 10) + [c]
  }

  lemma {:induction false} WholeNatText(n: nat)
    ensures Whole(NatText(n)) == n
  {
    var d := NatText(n);
    if n >= 10 {
      WholeNatText(n / 10);
      assert d[..|d| - 1] == NatText(n / 10);
    }
  }

  lemma {:induction false} DigitRunAppend(d: string, t: string)
    requires AllDigits(d)
    ensures DigitRun(d + t) == |d| + DigitRun(t)
  {
    if d != [] {
      DigitRunAppend(d[1..], t);
      assert (d + t)[1..] == d[1..] + t;
    } else {
      assert d + t == t;
    }
  }

  lemma {:induction false} SpaceRunSkipsSpace(w: string, s: string)
    requires AllSpace(w)
    ensures SpaceRun(w + s) == |w| + SpaceRun(s)
  {
    if w != [] {
      var ws := w + s;
      assert ws[0] == w[0] && IsSpace(w[0]);
      assert ws[1..] == w[1..] + s;
      SpaceRunSkipsSpace(w[1..], s);
    } else {
      assert w + s == s;
    }
  }

  lemma TrimStartSkipsSpace(w: string, s: string)
    requires AllSpace(w)
    ensures TrimStart(w + s) == TrimStart(s)
  {
    SpaceRunSkipsSpace(w, s);
    assert (w + s)[|w| + SpaceRun(s)..] == s[SpaceRun(s)..];
  }

  /** Leading white space does not change what `parseFloat` reads. */
  lemma ParseFloatSkipsSpace(w: string, s: string)
    requires AllSpace(w)
    ensures ParseFloat(w + s) == ParseFloat(s)
  {
    TrimStartSkipsSpace(w, s);
  }

  /** The text after the digits starts with neither a digit, a point, `e`
      nor `E`, so it cannot continue the literal. (Some texts that start
      with a point or an `e`, such as `.x` or `eggs`, do not continue it
      either; this condition leaves them out.) */
  predicate EndsLiteral(t: string) {
    t == [] || !(IsDigit(t[0]) || t[0] == '.' || t[0] == 'e' || t[0] == 'E')
  }

  /** Reading a whole number back: `parseFloat` inverts `NatText` when the
      text after the digits does not start with a digit, a point, `e` or
      `E`. */
  lemma ParseFloatNatText(n: nat, t: string)
    requires EndsLiteral(t)
    ensures ParseFloat(NatText(n) + t) == Some(n as real)
  {
    ParseFloatDigits(NatText(n), t);
    WholeNatText(n);
  }

  /** Digits that nothing extends read as their whole number. */
  lemma UnsignedEnds(d: string, t: string)
    requires d != [] && AllDigits(d)
    requires EndsLiteral(t)
    ensures ParseUnsigned(d + t) == Some(Whole(d) as real)
  {
    UnsignedDigits(d, t);
    assert WithExponent(Whole(d) as real, t) == Whole(d) as real;
  }

  /** A leading minus sign is not white space, and `parseFloat` negates
      the unsigned literal that follows it. */
  lemma ParseFloatMinus(u: string, v: real)
    requires ParseUnsigned(u) == Some(v)
    ensures ParseFloat(['-'] + u) == Some(-v)
  {
    var s := ['-'] + u;
    assert s[0] == '-' && !IsSpace('-');
    assert SpaceRun(s) == 0;
    assert TrimStart(s) == s;
    assert s[1..] == u;
  }

  /** A leading minus sign negates the value of the digits that follow. */
  lemma {:induction false} ParseFloatNegated(d: string, t: string)
    requires d != [] && AllDigits(d)
    requires EndsLiteral(t)
    ensures ParseFloat(['-'] + (d + t)) == Some(-(Whole(d) as real))
  {
    UnsignedEnds(d, t);
    ParseFloatMinus(d + t, Whole(d) as real);
  }

  /** A point and fraction digits after the whole part add their fraction. */
  lemma {:induction false} AfterWholePoint(w: string, f: string)
    requires w != [] && AllDigits(w) && AllDigits(f)
    ensures ParseAfterWhole(w, ['.'] + f) == Some(Whole(w) as real + Fraction(f))
  {
    var a := ['.'] + f;
    assert a[1..] == f;
    DigitRunAppend(f, []);
    assert f + [] == f;
    assert f[..|f|] == f && f[|f|..] == [];
  }

  /** A whole part, a point and fraction digits read as their sum. */
  lemma ParseFloatDecimal(d: string, f: string)
    requires d != [] && AllDigits(d) && AllDigits(f)
    ensures ParseFloat(d + ['.'] + f) == Some(Whole(d) as real + Fraction(f))
  {
    var a := ['.'] + f;
    assert a[0] == '.' && !IsDigit('.');
    assert d + ['.'] + f == d + a;
    ParseFloatDigits(d, a);
    AfterWholePoint(d, f);
  }

  lemma WithExponentDigits(x: real, e: string)
    requires e != [] && AllDigits(e)
    ensures WithExponent(x, ['e'] + e) == ScaleUp(x, Whole(e))
  {
    var a := ['e'] + e;
    assert |a| >= 2 && a[0] == 'e';
    assert a[1] == e[0] && a[1..] == e;
    DigitIsNoMark(e[0]);
    assert !(a[1] == '+' || a[1] == '-');
    DigitRunAppend(e, []);
    assert e + [] == e;
    var k := DigitRun(e);
    assert k == |e| && e[..k] == e;
    assert WithExponent(x, a) == ScaleUp(x, Whole(e[..k]));
  }

  /** An exponent part scales the whole part by a power of ten. */
  lemma ParseFloatExponent(d: string, e: string)
    requires d != [] && AllDigits(d)
    requires e != [] && AllDigits(e)
    ensures ParseFloat(d + ['e'] + e) == Some(ScaleUp(Whole(d) as real, Whole(e)))
  {
    var a := ['e'] + e;
    assert a[0] == 'e' && !IsDigit('e');
    assert d + ['e'] + e == d + a;
    ParseFloatDigits(d, a);
    assert ParseAfterWhole(d, a) == Some(WithExponent(Whole(d) as real, a));
    WithExponentDigits(Whole(d) as real, e);
  }

}
