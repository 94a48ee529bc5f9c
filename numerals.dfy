/**
 * Decimal numbers as the interpreter reads and writes them.
 *
 * Reading: the library readers (`strtod`, `stod`, `stoul`) are modelled on
 * the literal syntax the interpreter's own G-code produces and consumes:
 * decimal digits with at most one '.', and at least one digit.
 *
 * Writing: `stream << fixed << setprecision(p) << v` followed by the
 * interpreter's trimming of trailing zeros and of a trailing '.'.
 *
 * Rounding helpers: C `round` (half away from zero), `floor`, `ceil` and
 * the truncating conversion of a double to an integer.
 */
module Numerals {
  import opened Errors
  import opened Text

  function Pow10(n: nat): (r: nat)
    ensures r >= 1
  {
    if n == 0 then 1 else 10 * Pow10(n - 1)
  }

  function DigitValue(c: char): (d: nat)
    requires IsDigit(c)
    ensures d < 10
  {
    c as int - '0' as int
  }

  function DigitChar(d: nat): (c: char)
    requires d < 10
    ensures IsDigit(c) && DigitValue(c) == d
  {
    ('0' as int + d) as char
  }

  predicate AllDigits(s: string) {
    forall i :: 0 <= i < |s| ==> IsDigit(s[i])
  }

  /** Value of a string of decimal digits, most significant first. */
  function DigitsValue(s: string): nat
    requires AllDigits(s)
  {
    if |s| == 0 then 0 else DigitsValue(s[..|s| - 1]) * 10 + DigitValue(s[|s| - 1])
  }

  lemma {:induction false} DigitsValueConcat(a: string, b: string)
    requires AllDigits(a) && AllDigits(b)
    ensures AllDigits(a + b)
    ensures DigitsValue(a + b) == DigitsValue(a) * Pow10(|b|) + DigitsValue(b)
    decreases |b|
  {
    assert AllDigits(a + b);
    if |b| == 0 {
      assert a + b == a;
    } else {
      var b' := b[..|b| - 1];
      var d := DigitValue(b[|b| - 1]);
      assert (a + b)[..|a + b| - 1] == a + b';
      assert DigitsValue(a + b) == DigitsValue(a + b') * 10 + d;
      DigitsValueConcat(a, b');
      ShiftDigit(DigitsValue(a), Pow10(|b'|), DigitsValue(b'), d);
    }
  }

  /** One more digit after `x * p + y`. */
  lemma ShiftDigit(x: nat, p: nat, y: nat, d: nat)
    ensures (x * p + y) * 10 + d == x * (10 * p) + (y * 10 + d)
  {
    assert (x * p) * 10 == x * (10 * p);
  }

  /** The characters of a rendered number. */
  predicate NumberChar(c: char) {
    IsDigit(c) || c == '.' || c == '-'
  }

  /** Zero digits, as `setprecision` pads a fraction. */
  function Zeros(n: nat): (r: string)
    ensures |r| == n && AllDigits(r)
    ensures forall i :: 0 <= i < n ==> r[i] == '0'
  {
    seq(n, i => '0')
  }

  lemma {:induction false} ZerosValue(n: nat)
    ensures DigitsValue(Zeros(n)) == 0
    decreases n
  {
    if n > 0 {
      assert Zeros(n)[..n - 1] == Zeros(n - 1);
      ZerosValue(n - 1);
    }
  }

  /** Length of the run of decimal digits that starts at index `i`. */
  function DigitRun(s: string, i: nat): (n: nat)
    requires i <= |s|
    ensures i + n <= |s|
    ensures forall k :: i <= k < i + n ==> IsDigit(s[k])
    ensures i + n < |s| ==> !IsDigit(s[i + n])
    decreases |s| - i
  {
    if i < |s| && IsDigit(s[i]) then 1 + DigitRun(s, i + 1) else 0
  }

  /** Value of the digits `s[i..j]`, read in place. */
  function DigitsAt(s: string, i: nat, j: nat): nat
    requires i <= j <= |s| && forall k :: i <= k < j ==> IsDigit(s[k])
    decreases j
  {
    if j == i then 0 else DigitsAt(s, i, j - 1) * 10 + DigitValue(s[j - 1])
  }

  /** Reading digits in place is reading the slice. */
  lemma {:induction false} DigitsAtSlice(s: string, i: nat, j: nat)
    requires i <= j <= |s| && forall k :: i <= k < j ==> IsDigit(s[k])
    ensures AllDigits(s[i..j]) && DigitsAt(s, i, j) == DigitsValue(s[i..j])
    decreases j
  {
    assert AllDigits(s[i..j]);
    if j > i {
      assert s[i..j][..j - i - 1] == s[i..j - 1];
      DigitsAtSlice(s, i, j - 1);
    }
  }

  /** Digits `d` copied into `s` at `j` read in place as the value of `d`. */
  lemma {:induction false} DigitsAtCopy(s: string, j: nat, d: string)
    requires AllDigits(d) && j + |d| <= |s|
    requires forall k :: j <= k < j + |d| ==> s[k] == d[k - j]
    ensures forall k :: j <= k < j + |d| ==> IsDigit(s[k])
    ensures DigitsAt(s, j, j + |d|) == DigitsValue(d)
    decreases |d|
  {
    if |d| > 0 {
      var e := d[..|d| - 1];
      assert AllDigits(e);
      DigitsAtCopy(s, j, e);
      assert s[j + |d| - 1] == d[|d| - 1];
    }
  }

  /** `x` divided by ten `b` times: the value of `b` fraction digits whose digit value is `x`. */
  function Fraction(x: real, b: nat): (r: real)
    ensures x >= 0.0 ==> r >= 0.0
  {
    if b == 0 then x else Fraction(x, b - 1) / 10.0
  }

  /**
   * The library reader on `s[i..]`, restricted to the literal syntax:
   * digits, then optionally '.' and digits, with at least one digit.
   * The result is the value and the number of characters read, or `None`
   * when no number starts at `i` (the reader then reads nothing).
   */
  function ReadLiteral(s: string, i: nat): (r: Option<(real, nat)>)
    requires i <= |s|
    ensures r.Some? ==> 1 <= r.value.1 && i + r.value.1 <= |s| && r.value.0 >= 0.0
    ensures r.Some? ==> IsDigit(s[i]) || s[i] == '.'
    ensures i < |s| && IsDigit(s[i]) ==> r.Some?
    ensures r.Some? && i + r.value.1 < |s| ==> !IsDigit(s[i + r.value.1])
  {
    var a := DigitRun(s, i);
    var whole := DigitsAt(s, i, i + a);
    if i + a < |s| && s[i + a] == '.' then
      var b := DigitRun(s, i + a + 1);
      if a + b == 0 then None
      else Some((whole as real + Fraction(DigitsAt(s, i + a + 1, i + a + 1 + b) as real, b), a + 1 + b))
    else if a == 0 then None
    else Some((whole as real, a))
  }

  /** The reader on a value that may carry a leading '-'. */
  function ReadSigned(s: string, i: nat): (r: Option<(real, nat)>)
    requires i <= |s|
    ensures r.Some? ==> 1 <= r.value.1 && i + r.value.1 <= |s|
    ensures i < |s| && s[i] == '-' ==>
      && (r.Some? <==> ReadLiteral(s, i + 1).Some?)
      && (r.Some? ==> r.value == (-ReadLiteral(s, i + 1).value.0, ReadLiteral(s, i + 1).value.1 + 1))
    ensures (i == |s| || s[i] != '-') ==> r == ReadLiteral(s, i)
  {
    if i < |s| && s[i] == '-' then
      match ReadLiteral(s, i + 1)
      case None => None
      case Some((v, n)) => Some((-v, n + 1))
    else ReadLiteral(s, i)
  }

  /** Decimal text of a natural number, without leading zeros (`to_string`). */
  function NatToString(n: nat): (r: string)
    ensures |r| >= 1 && AllDigits(r)
    ensures n >= 10 ==> r[0] != '0'
    decreases n
  {
    if n < 10 then [DigitChar(n)] else NatToString(n / 10) + [DigitChar(n % 10)]
  }

  lemma {:induction false} NatToStringValue(n: nat)
    ensures DigitsValue(NatToString(n)) == n
    decreases n
  {
    if n >= 10 {
      var s := NatToString(n);
      assert s[..|s| - 1] == NatToString(n / 10);
      NatToStringValue(n / 10);
    }
  }

  /**
   * Reading back the decimal text of `n`, followed by anything that is not
   * a digit or '.', gives `n` and consumes exactly that text.
   */
  lemma ReadNatToString(pre: string, n: nat, post: string)
    requires post != [] ==> !IsDigit(post[0]) && post[0] != '.'
    ensures ReadLiteral(pre + NatToString(n) + post, |pre|)
         == Some((n as real, |NatToString(n)|))
  {
    ReadDigits(pre, NatToString(n), post);
    NatToStringValue(n);
  }

  /** A run of digits followed by anything that is not a digit or '.' reads as its value. */
  lemma {:induction false} ReadDigits(pre: string, d: string, post: string)
    requires |d| >= 1 && AllDigits(d)
    requires post != [] ==> !IsDigit(post[0]) && post[0] != '.'
    ensures ReadLiteral(pre + d + post, |pre|) == Some((DigitsValue(d) as real, |d|))
  {
    var s := pre + d + post;
    var i := |pre|;
    assert s[i..i + |d|] == d;
    assert i + |d| < |s| ==> s[i + |d|] == post[0];
    ReadRun(s, i, |d|);
  }

  /** The reader on a run of `n` digits that no digit and no '.' follows. */
  lemma {:induction false} ReadRun(s: string, i: nat, n: nat)
    requires 1 <= n && i + n <= |s| && AllDigits(s[i..i + n])
    requires i + n < |s| ==> !IsDigit(s[i + n]) && s[i + n] != '.'
    ensures ReadLiteral(s, i) == Some((DigitsValue(s[i..i + n]) as real, n))
  {
    forall k | i <= k < i + n
      ensures IsDigit(s[k])
    {
      assert s[k] == s[i..i + n][k - i];
    }
    DigitRunExact(s, i, n);
    DigitsAtSlice(s, i, i + n);
  }

  /** The reader on `a` digits, a '.', and `b` digits that no digit follows. */
  lemma {:induction false} ReadPointed(s: string, i: nat, a: nat, b: nat)
    requires 1 <= a + b && i + a + 1 + b <= |s| && s[i + a] == '.'
    requires forall k :: i <= k < i + a ==> IsDigit(s[k])
    requires forall k :: i + a + 1 <= k < i + a + 1 + b ==> IsDigit(s[k])
    requires i + a + 1 + b < |s| ==> !IsDigit(s[i + a + 1 + b])
    ensures ReadLiteral(s, i)
         == Some((DigitsAt(s, i, i + a) as real + Fraction(DigitsAt(s, i + a + 1, i + a + 1 + b) as real, b), a + 1 + b))
  {
    DigitRunExact(s, i, a);
    DigitRunExact(s, i + a + 1, b);
  }

  lemma {:induction false} DigitRunExact(s: string, i: nat, n: nat)
    requires i + n <= |s|
    requires forall k :: i <= k < i + n ==> IsDigit(s[k])
    requires i + n < |s| ==> !IsDigit(s[i + n])
    ensures DigitRun(s, i) == n
    decreases n
  {
    if n > 0 {
      DigitRunExact(s, i + 1, n - 1);
    }
  }

  /** `s` left-padded with zeros to at least `width` characters. */
  function PadLeft(s: string, width: nat): (r: string)
    ensures |r| == if |s| >= width then |s| else width
    ensures AllDigits(s) ==> AllDigits(r)
  {
    if |s| >= width then s else Zeros(width - |s|) + s
  }

  /** C `round`: to the nearest integer, halfway cases away from zero. */
  function Round(x: real): (r: int)
    ensures x >= 0.0 ==> r >= 0
    ensures (r as real) - 0.5 <= x <= (r as real) + 0.5
  {
    if x >= 0.0 then (x + 0.5).Floor else -((-x + 0.5).Floor)
  }

  /** C `floor`. */
  function Floor(x: real): (r: int)
    ensures r as real <= x < r as real + 1.0
  {
    x.Floor
  }

  /** C `ceil`. */
  function Ceil(x: real): (r: int)
    ensures r as real - 1.0 < x <= r as real
  {
    -((-x).Floor)
  }

  /** Conversion of a double to an integer: truncation toward zero. */
  function Trunc(x: real): (r: int)
    ensures x >= 0.0 ==> 0.0 <= r as real <= x < r as real + 1.0
    ensures x < 0.0 ==> r as real - 1.0 < x <= r as real <= 0.0
  {
    if x >= 0.0 then x.Floor else -((-x).Floor)
  }

  function Abs(x: real): (r: real)
    ensures r >= 0.0 && (r == x || r == -x)
  {
    if x < 0.0 then -x else x
  }

  function Quotient(m: nat, d: nat): (q: nat)
    requires d >= 1
    ensures q * d <= m < q * d + d
  {
    m / d
  }

  /** `x` multiplied by ten `n` times, that is by `Pow10(n)`. */
  function Scaled(x: real, n: nat): (r: real)
    ensures x >= 0.0 ==> r >= 0.0
  {
    if n == 0 then x else 10.0 * Scaled(x, n - 1)
  }

  /** Scaling a whole number gives the whole number times the unit. */
  lemma {:induction false} ScaledWhole(m: nat, n: nat)
    ensures Scaled(m as real, n) == (m * Pow10(n)) as real
  {
    if n > 0 {
      ScaledWhole(m, n - 1);
      assert m * Pow10(n) == 10 * (m * Pow10(n - 1));
    }
  }

  /** `|v|` in units of the last printed decimal, rounded. */
  function Magnitude(v: real, prec: nat): (m: nat)
  {
    Round(Scaled(Abs(v), prec))
  }

  /**
   * `fixed << setprecision(prec) << v`: an optional '-', the integer part,
   * and, when `prec > 0`, a '.' with exactly `prec` fraction digits, the
   * magnitude rounded to `prec` decimals.
   */
  function Fixed(v: real, prec: nat): (r: string)
    ensures forall i :: 0 <= i < |r| ==> NumberChar(r[i])
  {
    var m := Magnitude(v, prec);
    var unit := Pow10(prec);
    var whole := Quotient(m, unit);
    FixedText(v < 0.0, whole, m - whole * unit, prec)
  }

  /** The text of a sign, a whole part and `prec` fraction digits of `fraction`, padded with leading zeros. */
  function FixedText(negative: bool, whole: nat, fraction: nat, prec: nat): (r: string)
    ensures forall i :: 0 <= i < |r| ==> NumberChar(r[i])
  {
    var sign := if negative then "-" else "";
    sign + NatToString(whole) + (if prec == 0 then "" else "." + PadLeft(NatToString(fraction), prec))
  }

  /** Length of `s` once its trailing '0' characters are dropped. */
  function TrimZerosLength(s: string): (n: nat)
    ensures n <= |s|
    ensures n > 0 ==> s[n - 1] != '0'
    ensures forall k :: n <= k < |s| ==> s[k] == '0'
  {
    if |s| == 0 || s[|s| - 1] != '0' then |s| else TrimZerosLength(s[..|s| - 1])
  }

  /**
   * The interpreter's clean-up of a fixed-notation number: trailing zeros
   * go, then a trailing '.', and an empty remainder becomes "0".
   */
  function TrimNumber(s: string): (r: string)
    ensures r != []
    ensures r == "0" || (|r| <= |s| && r == s[..|r|])
  {
    var t := s[..TrimZerosLength(s)];
    var u := if t != [] && t[|t| - 1] == '.' then t[..|t| - 1] else t;
    if u == [] then "0" else u
  }

  /** How a parameter value is written into an output line. */
  function Render(v: real, prec: nat): (r: string)
    ensures r != [] && forall i :: 0 <= i < |r| ==> NumberChar(r[i])
  {
    TrimNumber(Fixed(v, prec))
  }

  /** The number the text `Fixed(v, prec)` stands for: the rounded magnitude in units of the last decimal, with the sign of `v`. */
  function FixedValue(v: real, prec: nat): real {
    var w := Fraction(Magnitude(v, prec) as real, prec);
    if v < 0.0 then -w else w
  }

  lemma {:induction false} Pow10Add(a: nat, b: nat)
    ensures Pow10(a + b) == Pow10(a) * Pow10(b)
    decreases b
  {
    if b > 0 {
      Pow10Add(a, b - 1);
      assert Pow10(a + b) == 10 * Pow10(a + b - 1);
    }
  }

  /** Dividing by ten `b` times is dividing by `Pow10(b)`. */
  lemma {:induction false} FractionDiv(x: real, b: nat)
    ensures Fraction(x, b) == x / (Pow10(b) as real)
    decreases b
  {
    if b > 0 {
      FractionDiv(x, b - 1);
      var p := Pow10(b - 1) as real;
      assert p >= 1.0;
      assert Pow10(b) as real == 10.0 * p;
      assert (x / p) / 10.0 == x / (10.0 * p);
    }
  }

  /** Multiplying by ten `n` times is multiplying by `Pow10(n)`. */
  lemma {:induction false} ScaledMul(x: real, n: nat)
    ensures Scaled(x, n) == x * (Pow10(n) as real)
    decreases n
  {
    if n > 0 {
      ScaledMul(x, n - 1);
      assert Pow10(n) as real == 10.0 * (Pow10(n - 1) as real);
    }
  }

  /** A number below `Pow10(k)` has at most `k` digits. */
  lemma {:induction false} NatToStringLength(n: nat, k: nat)
    requires 1 <= k && n < Pow10(k)
    ensures |NatToString(n)| <= k
    decreases n
  {
    if n >= 10 {
      assert k >= 2;
      assert n / 10 < Pow10(k - 1);
      NatToStringLength(n / 10, k - 1);
    }
  }

  /** Zeros in front of digits do not change their value. */
  lemma PadLeftValue(d: string, width: nat)
    requires AllDigits(d)
    ensures DigitsValue(PadLeft(d, width)) == DigitsValue(d)
  {
    if |d| < width {
      DigitsValueConcat(Zeros(width - |d|), d);
      ZerosValue(width - |d|);
    }
  }

  /** A product within half of `m` divides to within half a unit of `m / u`. */
  lemma DivideNear(a: real, m: real, u: real, x: real)
    requires u >= 1.0 && x == a * u && m - 0.5 <= x <= m + 0.5
    ensures Abs(a - m / u) <= 0.5 / u
  {
    var w := m / u;
    assert w * u == m;
    var d := a - w;
    assert d * u == a * u - m;
    if d >= 0.0 {
      assert d * u <= 0.5;
      assert d <= 0.5 / u;
    } else {
      assert -d * u <= 0.5;
      assert -d <= 0.5 / u;
    }
  }

  /** Whole units plus a fraction of a unit. */
  lemma AddUnits(q: real, f: real, u: real)
    requires u >= 1.0
    ensures q + f / u == (q * u + f) / u
  {
    assert (q + f / u) * u == q * u + f;
  }

  /**
   * The fixed-notation value is within half a unit of the last printed
   * decimal of `v`: `setprecision(prec)` rounds to the nearest.
   */
  lemma {:induction false} FixedValueNear(v: real, prec: nat)
    ensures Abs(FixedValue(v, prec) - v) <= 0.5 / (Pow10(prec) as real)
  {
    var a := Abs(v);
    RoundedNear(a, prec);
    assert Abs(FixedValue(v, prec) - v) == Abs(a - Fraction(Magnitude(v, prec) as real, prec));
  }

  /** Rounding the scaled magnitude and scaling back stays within half a unit. */
  lemma {:induction false} RoundedNear(a: real, prec: nat)
    ensures Abs(a - Fraction(Round(Scaled(a, prec)) as real, prec)) <= 0.5 / (Pow10(prec) as real)
  {
    var x := Scaled(a, prec);
    var m := Round(x);
    var u := Pow10(prec) as real;
    ScaledMul(a, prec);
    FractionDiv(m as real, prec);
    DivideNear(a, m as real, u, x);
  }

  /** The whole part and the fraction digits of a magnitude add up to the magnitude in units. */
  lemma {:induction false} WholeAndFraction(m: nat, prec: nat)
    ensures var unit := Pow10(prec);
      (Quotient(m, unit) as real) + Fraction((m - Quotient(m, unit) * unit) as real, prec) == Fraction(m as real, prec)
  {
    var unit := Pow10(prec);
    var q := Quotient(m, unit);
    var f := m - q * unit;
    SplitUnits(q, f, unit);
    FractionDiv(f as real, prec);
    FractionDiv((q * unit + f) as real, prec);
  }

  /** In reals, `q` units of `unit` and `f` more divide back into `q` and a fraction. */
  lemma SplitUnits(q: nat, f: nat, unit: nat)
    requires unit >= 1
    ensures (q as real) + (f as real) / (unit as real) == ((q * unit + f) as real) / (unit as real)
  {
    var u := unit as real;
    assert (q * unit) as real == (q as real) * u;
    AddUnits(q as real, f as real, u);
  }

  /** The reader takes a leading '-' and the literal after it, or the literal alone. */
  lemma {:induction false} ReadSignedAfter(sign: string, body: string, post: string, v: real)
    requires sign == "-" || sign == ""
    requires |body| >= 1 && IsDigit(body[0])
    requires ReadLiteral(sign + body + post, |sign|) == Some((v, |body|))
    ensures ReadSigned(sign + body + post, 0) == Some((if sign == "-" then -v else v, |sign + body|))
  {
    var l := sign + body + post;
    assert l[|sign|] == body[0];
    if sign == "" {
      assert l[0] != '-';
    } else {
      assert l[0] == '-';
    }
  }

  /** A signed run of digits that no digit or '.' follows reads as its signed value. */
  lemma {:induction false} ReadSignedDigits(sign: string, w: string, post: string)
    requires sign == "-" || sign == ""
    requires |w| >= 1 && AllDigits(w)
    requires post != [] ==> !IsDigit(post[0]) && post[0] != '.'
    ensures var v := DigitsValue(w) as real;
      ReadSigned(sign + w + post, 0) == Some((if sign == "-" then -v else v, |sign + w|))
  {
    ReadDigits(sign, w, post);
    ReadSignedAfter(sign, w, post, DigitsValue(w) as real);
  }

  /** The reader on a copy of `w` '.' `f` at `i` in `l` that no digit follows: the whole and fraction values. */
  lemma {:induction false} ReadPointedAt(l: string, i: nat, w: string, f: string)
    requires |w| >= 1 && AllDigits(w) && AllDigits(f)
    requires i + |w| + 1 + |f| <= |l| && l[i + |w|] == '.'
    requires forall k :: i <= k < i + |w| ==> l[k] == w[k - i]
    requires forall k :: i + |w| + 1 <= k < i + |w| + 1 + |f| ==> l[k] == f[k - (i + |w| + 1)]
    requires i + |w| + 1 + |f| < |l| ==> !IsDigit(l[i + |w| + 1 + |f|])
    ensures ReadLiteral(l, i) == Some((DigitsValue(w) as real + Fraction(DigitsValue(f) as real, |f|), |w| + 1 + |f|))
  {
    DigitsAtCopy(l, i, w);
    DigitsAtCopy(l, i + |w| + 1, f);
    ReadPointed(l, i, |w|, |f|);
  }

  /** Digits `w`, a '.' and digits `f` between any two texts that no digit follows. */
  lemma {:induction false} ReadPointedPieces(pre: string, w: string, f: string, post: string)
    requires |w| >= 1 && AllDigits(w) && AllDigits(f)
    requires post != [] ==> !IsDigit(post[0])
    ensures ReadLiteral(pre + (w + "." + f) + post, |pre|)
         == Some((DigitsValue(w) as real + Fraction(DigitsValue(f) as real, |f|), |w + "." + f|))
  {
    var body := w + "." + f;
    var l := pre + body + post;
    var i := |pre|;
    forall k | i <= k < i + |w|
      ensures l[k] == w[k - i]
    {
      assert l[k] == body[k - i];
    }
    forall k | i + |w| + 1 <= k < i + |w| + 1 + |f|
      ensures l[k] == f[k - (i + |w| + 1)]
    {
      assert l[k] == body[k - i];
    }
    assert l[i + |w|] == body[|w|] == '.';
    assert i + |w| + 1 + |f| < |l| ==> l[i + |w| + 1 + |f|] == post[0];
    ReadPointedAt(l, i, w, f);
  }

  /** A signed number with a point, `w.f`, that no digit follows reads as its signed value. */
  lemma {:induction false} ReadSignedPointed(sign: string, w: string, f: string, post: string)
    requires sign == "-" || sign == ""
    requires |w| >= 1 && AllDigits(w) && AllDigits(f)
    requires post != [] ==> !IsDigit(post[0])
    ensures var v := DigitsValue(w) as real + Fraction(DigitsValue(f) as real, |f|);
      ReadSigned(sign + (w + "." + f) + post, 0) == Some((if sign == "-" then -v else v, |sign + (w + "." + f)|))
  {
    ReadPointedPieces(sign, w, f, post);
    ReadSignedAfter(sign, w + "." + f, post, DigitsValue(w) as real + Fraction(DigitsValue(f) as real, |f|));
  }

  /** A text `sign` `w` '.' `f` reads back as the signed value of its digits. */
  lemma {:induction false} PointedReadsAs(text: string, value: real, post: string, sign: string, w: string, f: string)
    requires sign == "-" || sign == ""
    requires text == sign + w + ("." + f)
    requires post != [] ==> !IsDigit(post[0])
    requires |w| >= 1 && AllDigits(w) && AllDigits(f)
    requires var mag := DigitsValue(w) as real + Fraction(DigitsValue(f) as real, |f|);
      value == if sign == "-" then -mag else mag
    ensures ReadSigned(text + post, 0) == Some((value, |text|))
  {
    assert text == sign + (w + "." + f);
    ReadSignedPointed(sign, w, f, post);
  }

  /** A text `sign` `w` reads back as the signed value of its digits. */
  lemma {:induction false} WholeReadsAs(text: string, value: real, post: string, sign: string, w: string)
    requires sign == "-" || sign == ""
    requires text == sign + w
    requires post != [] ==> !IsDigit(post[0]) && post[0] != '.'
    requires |w| >= 1 && AllDigits(w)
    requires value == if sign == "-" then -(DigitsValue(w) as real) else DigitsValue(w) as real
    ensures ReadSigned(text + post, 0) == Some((value, |text|))
  {
    ReadSignedDigits(sign, w, post);
  }

  /**
   * Reading back fixed-notation text: followed by anything that is not a
   * digit or '.', `Fixed(v, prec)` reads as `FixedValue(v, prec)` and is
   * consumed whole.
   */
  lemma {:induction false} FixedReadsBack(v: real, prec: nat, post: string)
    requires post != [] ==> !IsDigit(post[0]) && post[0] != '.'
    ensures ReadSigned(Fixed(v, prec) + post, 0) == Some((FixedValue(v, prec), |Fixed(v, prec)|))
  {
    FixedParts(v, prec);
    var m := Magnitude(v, prec);
    var whole := Quotient(m, Pow10(prec));
    FixedReadsAs(Fixed(v, prec), FixedValue(v, prec), post, v < 0.0, whole, m - whole * Pow10(prec), prec);
  }

  /** A text that is `FixedText` of some pieces reads back as their signed value. */
  lemma {:induction false} FixedReadsAs(text: string, value: real, post: string,
                                        negative: bool, whole: nat, fraction: nat, prec: nat)
    requires fraction < Pow10(prec)
    requires post != [] ==> !IsDigit(post[0]) && post[0] != '.'
    requires text == FixedText(negative, whole, fraction, prec)
    requires var mag := whole as real + Fraction(fraction as real, prec);
      value == if negative then -mag else mag
    ensures ReadSigned(text + post, 0) == Some((value, |text|))
  {
    var sign := if negative then "-" else "";
    var w := NatToString(whole);
    NatToStringValue(whole);
    if prec == 0 {
      assert text == sign + w;
      assert value == if sign == "-" then -(DigitsValue(w) as real) else DigitsValue(w) as real;
      WholeReadsAs(text, value, post, sign, w);
    } else {
      var pad := PadLeft(NatToString(fraction), prec);
      FractionDigits(fraction, prec);
      assert text == sign + w + ("." + pad);
      var mag := DigitsValue(w) as real + Fraction(DigitsValue(pad) as real, |pad|);
      assert value == if sign == "-" then -mag else mag;
      PointedReadsAs(text, value, post, sign, w, pad);
    }
  }

  /** `prec` fraction digits padded with leading zeros: exactly `prec` digits whose value is `fraction`. */
  lemma {:induction false} FractionDigits(fraction: nat, prec: nat)
    requires 1 <= prec && fraction < Pow10(prec)
    ensures var pad := PadLeft(NatToString(fraction), prec);
      |pad| == prec && AllDigits(pad) && DigitsValue(pad) == fraction
  {
    NatToStringLength(fraction, prec);
    PadLeftValue(NatToString(fraction), prec);
    NatToStringValue(fraction);
  }

  /** `Fixed` and `FixedValue` in terms of the whole part and the fraction digits of the rounded magnitude. */
  lemma {:induction false} FixedParts(v: real, prec: nat)
    ensures var m := Magnitude(v, prec);
      var unit := Pow10(prec);
      var whole := Quotient(m, unit);
      var fraction := m - whole * unit;
      var mag := whole as real + Fraction(fraction as real, prec);
      && 0 <= fraction < unit
      && Fixed(v, prec) == FixedText(v < 0.0, whole, fraction, prec)
      && FixedValue(v, prec) == (if v < 0.0 then -mag else mag)
  {
    WholeAndFraction(Magnitude(v, prec), prec);
  }

  /** Trailing zeros after the text do not change where the trimmed text ends. */
  lemma {:induction false} TrimZerosPadded(a: string, k: nat)
    ensures TrimZerosLength(a + Zeros(k)) == TrimZerosLength(a)
    decreases k
  {
    if k > 0 {
      var s := a + Zeros(k);
      assert s[|s| - 1] == '0';
      assert Zeros(k)[..k - 1] == Zeros(k - 1);
      assert s[..|s| - 1] == a + Zeros(k - 1);
      assert TrimZerosLength(s) == TrimZerosLength(s[..|s| - 1]);
      TrimZerosPadded(a, k - 1);
    } else {
      assert a + Zeros(k) == a;
    }
  }

  /** A '.' followed only by zeros is trimmed away together with them. */
  lemma TrimPointZeros(x: string, k: nat)
    requires x != [] && x[|x| - 1] != '.'
    ensures TrimNumber(x + "." + Zeros(k)) == x
  {
    TrimZerosPadded(x + ".", k);
    assert (x + ".")[..|x + "."| - 1] == x;
  }

  /** The fraction digits split into the digits that stay and the trailing zeros the trim drops. */
  lemma {:induction false} TrimmedDigits(pad: string, n: nat)
    requires AllDigits(pad) && |pad| == n
    ensures var q := TrimZerosLength(pad);
      && AllDigits(pad[..q])
      && pad == pad[..q] + Zeros(n - q)
      && DigitsValue(pad) == DigitsValue(pad[..q]) * Pow10(n - q)
  {
    var q := TrimZerosLength(pad);
    assert pad == pad[..q] + Zeros(n - q);
    assert AllDigits(pad[..q]);
    DigitsValueConcat(pad[..q], Zeros(n - q));
    ZerosValue(n - q);
  }

  /**
   * The clean-up of a fixed-notation text with a fraction: the fraction
   * keeps its digits up to the last non-zero one, and loses its '.' when
   * none is left.
   */
  lemma {:induction false} TrimmedFixed(sign: string, w: string, pad: string)
    requires sign == "-" || sign == ""
    requires |w| >= 1 && AllDigits(w) && AllDigits(pad)
    ensures var q := TrimZerosLength(pad);
      TrimNumber(sign + w + ("." + pad)) == if q == 0 then sign + w else sign + w + ("." + pad[..q])
  {
    var q := TrimZerosLength(pad);
    var x := sign + w + ("." + pad[..q]);
    var k := |pad| - q;
    assert sign + w + ("." + pad) == x + Zeros(k) by {
      TrimmedDigits(pad, |pad|);
    }
    if q == 0 {
      assert x[|x| - 1] == '.';
      TrimEnd(x, k);
      assert x[..|x| - 1] == sign + w;
    } else {
      assert x[|x| - 1] == pad[q - 1];
      TrimEnd(x, k);
    }
  }

  /** Zeros after a text that does not end in '0' are exactly what is trimmed. */
  lemma {:induction false} TrimEnd(x: string, k: nat)
    requires x != [] && x[|x| - 1] != '0'
    ensures (x + Zeros(k))[..TrimZerosLength(x + Zeros(k))] == x
  {
    TrimZerosPadded(x, k);
    assert (x + Zeros(k))[..|x|] == x;
  }

  /** `x` digits of `q` places, followed by zeros up to `n` places, is the same fraction. */
  lemma {:induction false} FractionShift(x: nat, q: nat, n: nat)
    requires q <= n
    ensures Fraction((x * Pow10(n - q)) as real, n) == Fraction(x as real, q)
  {
    FractionDiv((x * Pow10(n - q)) as real, n);
    FractionDiv(x as real, q);
    ShiftUnits(x, q, n - q);
    assert q + (n - q) == n;
  }

  /** `x` times `Pow10(z)` over `Pow10(q + z)` is `x` over `Pow10(q)`. */
  lemma {:induction false} ShiftUnits(x: nat, q: nat, z: nat)
    ensures ((x * Pow10(z)) as real) / (Pow10(q + z) as real) == (x as real) / (Pow10(q) as real)
  {
    var p := Pow10(z);
    var r := Pow10(q);
    Pow10Add(q, z);
    CastProduct(x, p);
    CastProduct(r, p);
    CancelUnits(x as real, p as real, r as real);
  }

  /** The product of naturals, as a real, is the product of the reals. */
  lemma CastProduct(a: nat, b: nat)
    ensures (a * b) as real == (a as real) * (b as real)
  {
  }

  /** A common positive factor cancels from a quotient. */
  lemma CancelUnits(a: real, p: real, r: real)
    requires p >= 1.0 && r >= 1.0
    ensures (a * p) / (r * p) == a / r
  {
    assert (a / r) * (r * p) == a * p;
  }

  /** A text that is the clean-up of some `FixedText`, with a fraction, reads back as its signed value. */
  lemma {:induction false} RenderReadsAs(text: string, value: real, post: string,
                                         negative: bool, whole: nat, fraction: nat, prec: nat)
    requires 1 <= prec && fraction < Pow10(prec)
    requires post != [] ==> !IsDigit(post[0]) && post[0] != '.'
    requires text == TrimNumber(FixedText(negative, whole, fraction, prec))
    requires var mag := whole as real + Fraction(fraction as real, prec);
      value == if negative then -mag else mag
    ensures ReadSigned(text + post, 0) == Some((value, |text|))
  {
    var sign := if negative then "-" else "";
    var w := NatToString(whole);
    var pad := PadLeft(NatToString(fraction), prec);
    var q := TrimZerosLength(pad);
    var f := pad[..q];
    RenderPieces(negative, whole, fraction, prec);
    var mag := DigitsValue(w) as real + Fraction(DigitsValue(f) as real, |f|);
    assert value == if sign == "-" then -mag else mag;
    if q == 0 {
      assert text == sign + w;
      assert value == if sign == "-" then -(DigitsValue(w) as real) else DigitsValue(w) as real;
      WholeReadsAs(text, value, post, sign, w);
    } else {
      assert text == sign + w + ("." + f);
      PointedReadsAs(text, value, post, sign, w, f);
    }
  }

  /**
   * The pieces of a cleaned-up fixed-notation text with a fraction: the
   * whole digits and the fraction digits up to the last non-zero one,
   * which stand for the same fraction as all `prec` of them.
   */
  lemma {:induction false} RenderPieces(negative: bool, whole: nat, fraction: nat, prec: nat)
    requires 1 <= prec && fraction < Pow10(prec)
    ensures var sign := if negative then "-" else "";
      var w := NatToString(whole);
      var pad := PadLeft(NatToString(fraction), prec);
      var q := TrimZerosLength(pad);
      var f := pad[..q];
      && |w| >= 1 && AllDigits(w) && DigitsValue(w) == whole && AllDigits(f)
      && TrimNumber(FixedText(negative, whole, fraction, prec)) == (if q == 0 then sign + w else sign + w + ("." + f))
      && Fraction(fraction as real, prec) == Fraction(DigitsValue(f) as real, |f|)
  {
    NatToStringValue(whole);
    FractionDigits(fraction, prec);
    RenderTrimmed(negative, whole, fraction, prec);
    RenderFraction(fraction, prec);
  }

  /** The clean-up of `FixedText` with a fraction, in pieces. */
  lemma {:induction false} RenderTrimmed(negative: bool, whole: nat, fraction: nat, prec: nat)
    requires 1 <= prec && fraction < Pow10(prec)
    ensures var sign := if negative then "-" else "";
      var w := NatToString(whole);
      var pad := PadLeft(NatToString(fraction), prec);
      var q := TrimZerosLength(pad);
      TrimNumber(FixedText(negative, whole, fraction, prec)) == (if q == 0 then sign + w else sign + w + ("." + pad[..q]))
  {
    var sign := if negative then "-" else "";
    var w := NatToString(whole);
    var pad := PadLeft(NatToString(fraction), prec);
    FractionDigits(fraction, prec);
    assert FixedText(negative, whole, fraction, prec) == sign + w + ("." + pad);
    TrimmedFixed(sign, w, pad);
  }

  /** The fraction digits that survive the clean-up stand for the same fraction. */
  lemma {:induction false} RenderFraction(fraction: nat, prec: nat)
    requires 1 <= prec && fraction < Pow10(prec)
    ensures var pad := PadLeft(NatToString(fraction), prec);
      var f := pad[..TrimZerosLength(pad)];
      AllDigits(f) && Fraction(fraction as real, prec) == Fraction(DigitsValue(f) as real, |f|)
  {
    var pad := PadLeft(NatToString(fraction), prec);
    var q := TrimZerosLength(pad);
    FractionDigits(fraction, prec);
    TrimmedDigits(pad, prec);
    FractionShift(DigitsValue(pad[..q]), q, prec);
  }

  /**
   * Reading back a rendered value: at any precision from 1 on, followed by
   * anything that is not a digit or '.', `Render(v, prec)` reads as
   * `FixedValue(v, prec)` and is consumed whole, so the trim loses nothing.
   */
  lemma {:induction false} RenderReadsBack(v: real, prec: nat, post: string)
    requires 1 <= prec
    requires post != [] ==> !IsDigit(post[0]) && post[0] != '.'
    ensures ReadSigned(Render(v, prec) + post, 0) == Some((FixedValue(v, prec), |Render(v, prec)|))
  {
    FixedParts(v, prec);
    var m := Magnitude(v, prec);
    var whole := Quotient(m, Pow10(prec));
    RenderReadsAs(Render(v, prec), FixedValue(v, prec), post, v < 0.0, whole, m - whole * Pow10(prec), prec);
  }

  /**
   * What a rendered value stands for: read back, `Render(v, prec)` is a
   * number within half a unit of the `prec`-th decimal of `v`.
   */
  lemma {:induction false} RenderNear(v: real, prec: nat, post: string)
    requires 1 <= prec
    requires post != [] ==> !IsDigit(post[0]) && post[0] != '.'
    ensures var r := ReadSigned(Render(v, prec) + post, 0);
      && r.Some? && r.value.1 == |Render(v, prec)|
      && Abs(r.value.0 - v) <= 0.5 / (Pow10(prec) as real)
  {
    RenderReadsBack(v, prec, post);
    FixedValueNear(v, prec);
  }

  /** A product smaller than another, by the same positive factor, has the smaller multiplicand. */
  lemma MulLess(a: int, b: int, d: int)
    requires d >= 1 && a * d < b * d
    ensures a < b
  {
  }

  /** An integer-valued magnitude splits into itself and no fraction. */
  lemma WholeUnits(n: nat, unit: nat)
    requires unit >= 1
    ensures Quotient(n * unit, unit) == n
  {
    var q := Quotient(n * unit, unit);
    MulLess(q, n + 1, unit);
    MulLess(n, q + 1, unit);
  }

  lemma RoundInteger(m: int)
    ensures Round(m as real) == m
  {
  }

  /** The magnitude of an integer value is the integer scaled by the unit. */
  lemma MagnitudeInteger(n: nat, v: real, prec: nat)
    requires v == n as real || v == -(n as real)
    ensures Magnitude(v, prec) == n * Pow10(prec)
  {
    assert Abs(v) == n as real;
    ScaledWhole(n, prec);
    RoundInteger(n * Pow10(prec));
  }

  /** The text of an integer value: `n`'s digits, with a '-' when negative. */
  lemma FixedInteger(n: nat, negative: bool, prec: nat)
    requires negative ==> n >= 1
    requires prec >= 1
    ensures Fixed(if negative then -(n as real) else n as real, prec)
         == (if negative then "-" else "") + NatToString(n) + "." + Zeros(prec)
  {
    var v := if negative then -(n as real) else n as real;
    var unit := Pow10(prec);
    MagnitudeInteger(n, v, prec);
    WholeUnits(n, unit);
    var m := Magnitude(v, prec);
    assert Quotient(m, unit) == n;
    assert m - n * unit == 0;
    assert Zeros(prec - 1) + "0" == Zeros(prec);
    assert PadLeft(NatToString(0), prec) == Zeros(prec);
    assert (v < 0.0) == negative;
  }

  /**
   * Integers render as their decimal text, with a '-' when negative; in
   * particular an exact zero renders as "0".
   */
  lemma RenderInteger(n: nat, negative: bool, prec: nat)
    requires negative ==> n >= 1
    requires prec >= 1
    ensures Render(if negative then -(n as real) else n as real, prec)
         == (if negative then "-" else "") + NatToString(n)
  {
    FixedInteger(n, negative, prec);
    var x := (if negative then "-" else "") + NatToString(n);
    assert x[|x| - 1] == NatToString(n)[|NatToString(n)| - 1];
    assert (if negative then "-" else "") + NatToString(n) + "." + Zeros(prec) == x + "." + Zeros(prec);
    TrimPointZeros(x, prec);
  }

  /** An exact zero renders as "0" at every precision. */
  lemma RenderZero(prec: nat)
    ensures Render(0.0, prec) == "0"
  {
    if prec == 0 {
      assert Fixed(0.0, 0) == "0";
      assert TrimZerosLength("0") == 0;
    } else {
      RenderInteger(0, false, prec);
    }
  }
}
