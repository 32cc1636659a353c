/**
 * JavaScript's conversions between strings and numbers as the resident ids
 * use them: `Number(s)` (the StringToNumber grammar of ECMAScript: optional
 * whitespace around an optionally signed decimal literal with fraction and
 * exponent, `Infinity`, or an unsigned `0x`/`0o`/`0b` literal) and
 * `String(x)` (Number::toString in radix 10). Finite numbers are exact
 * decimals `±digits × 10^scale`; rounding to the nearest double is not
 * modelled.
 */
module Numbers {
  import opened Wrappers
  import opened Seqs
  import opened Strings
  import Storage

  datatype Number = NaN | Infinity(negative: bool) | Finite(negative: bool, digits: nat, scale: int)

  const Zero: Number := Finite(false, 0, 0)

  function FromNat(n: nat): Number
  {
    Finite(false, n, 0)
  }

  function Pow10(n: nat): (r: nat)
    ensures r >= 1
  {
    if n == 0 then 1 else 10 * Pow10(n - 1)
  }

  /** `m × 10^e` */
  function Scaled(m: nat, e: int): real
  {
    if e >= 0 then (m * Pow10(e)) as real else m as real / Pow10(-e) as real
  }

  function Value(x: Number): real
    requires x.Finite?
  {
    if x.negative then -Scaled(x.digits, x.scale) else Scaled(x.digits, x.scale)
  }

  /** `a > b`; every comparison with `NaN` is false. */
  predicate Greater(a: Number, b: Number)
  {
    match a
    case NaN => false
    case Infinity(negative) => !negative && !b.NaN? && b != Infinity(false)
    case Finite(_, _, _) => (b.Infinity? && b.negative) || (b.Finite? && Value(a) > Value(b))
  }

  /** `a` and `b` denote the same number (two spellings of one decimal are the same). */
  predicate SameNumber(a: Number, b: Number)
  {
    if a.Finite? then b.Finite? && Value(a) == Value(b) else a == b
  }

  lemma GreaterTransitive(a: Number, b: Number, c: Number)
    ensures Greater(a, b) && Greater(b, c) ==> Greater(a, c)
  {
  }

  /** A number is not greater than one it equals. */
  lemma SameNotGreater(a: Number, b: Number)
    requires SameNumber(a, b)
    ensures !Greater(a, b) && !Greater(b, a)
  {
  }

  // ---------------------------------------------------------------------
  // Powers of ten
  // ---------------------------------------------------------------------

  lemma {:induction false} Pow10Add(a: nat, b: nat)
    ensures Pow10(a + b) == Pow10(a) * Pow10(b)
  {
    if a > 0 {
      Pow10Add(a - 1, b);
      assert Pow10(a + b) == 10 * Pow10(a - 1 + b);
    }
  }

  lemma DivideProduct(a: real, q: real)
    requires q > 0.0
    ensures (a * q) / q == a
  {
  }

  lemma CancelFactor(x: real, a: real, b: real)
    requires a > 0.0 && b > 0.0
    ensures (x * a) / (a * b) == x / b
  {
    var y := x / b;
    assert y * b == x;
    assert x * a == y * (a * b);
    DivideProduct(y, a * b);
  }

  lemma UpArith(m: nat, a: nat, b: nat, p: nat)
    requires p == a * b
    ensures (m * a) * b == m * p
  {
  }

  lemma ShiftUp(m: nat, j: nat, e: int)
    requires e - j >= 0
    ensures Scaled(m * Pow10(j), e - j) == Scaled(m, e)
  {
    Pow10Add(j, e - j);
    UpArith(m, Pow10(j), Pow10(e - j), Pow10(e));
  }

  lemma RealProduct(x: nat, y: nat)
    ensures (x * y) as real == x as real * y as real
  {
  }

  lemma MulAssoc(x: nat, y: nat, z: nat)
    ensures x * (y * z) == (x * y) * z
  {
  }

  lemma AcrossArith(m: nat, a: nat, q: nat, p: nat)
    requires p == a * q && q > 0
    ensures (m * p) as real / q as real == (m * a) as real
  {
    MulAssoc(m, a, q);
    RealProduct(m * a, q);
    DivideProduct((m * a) as real, q as real);
  }

  lemma DownArith(m: nat, a: nat, b: nat, p: nat)
    requires p == a * b && a > 0 && b > 0
    ensures (m * a) as real / p as real == m as real / b as real
  {
    RealProduct(m, a);
    RealProduct(a, b);
    CancelFactor(m as real, a as real, b as real);
  }

  lemma ShiftAcross(m: nat, j: nat, e: int)
    requires 0 <= e < j
    ensures Scaled(m * Pow10(j), e - j) == Scaled(m, e)
  {
    Pow10Add(e, j - e);
    AcrossArith(m, Pow10(e), Pow10(j - e), Pow10(j));
  }

  lemma ShiftDown(m: nat, j: nat, e: int)
    requires e < 0
    ensures Scaled(m * Pow10(j), e - j) == Scaled(m, e)
  {
    Pow10Add(j, -e);
    assert j - e == j + -e;
    DownArith(m, Pow10(j), Pow10(-e), Pow10(j - e));
  }

  /** Moving `j` factors of ten from the digits into the scale keeps the value. */
  lemma ScaleShift(m: nat, j: nat, e: int)
    ensures Scaled(m * Pow10(j), e - j) == Scaled(m, e)
  {
    if e - j >= 0 {
      ShiftUp(m, j, e);
    } else if e >= 0 {
      ShiftAcross(m, j, e);
    } else {
      ShiftDown(m, j, e);
    }
  }

  // ---------------------------------------------------------------------
  // Addition of one
  // ---------------------------------------------------------------------

  /** `x + 1` */
  function Add1(x: Number): Number
  {
    match x
    case NaN => NaN
    case Infinity(_) => x
    case Finite(negative, m, scale) =>
      if scale >= 0 then
        var i := (if negative then -(m * Pow10(scale)) else m * Pow10(scale)) + 1;
        Finite(i < 0, if i < 0 then -i else i, 0)
      else
        var i := (if negative then -(m as int) else m as int) + Pow10(-scale);
        Finite(i < 0, if i < 0 then -i else i, scale)
  }

  lemma AddOneOver(s: real, p: real)
    requires p > 0.0
    ensures (s + p) / p == s / p + 1.0
  {
    assert (s + p) / p == s / p + p / p;
  }

  lemma NegateOver(m: real, p: real)
    requires p > 0.0
    ensures -(m / p) == (-m) / p
  {
  }

  /** The signed value of a finite number with a negative scale. */
  lemma ValueBelowOne(x: Number)
    requires x.Finite? && x.scale < 0
    ensures Value(x) == (if x.negative then -(x.digits as int) else x.digits as int) as real / Pow10(-x.scale) as real
  {
    if x.negative {
      NegateOver(x.digits as real, Pow10(-x.scale) as real);
    }
  }

  /** Adding one to a finite number adds one to its value; infinities and `NaN` stay. */
  lemma Add1Value(x: Number)
    ensures x.Finite? ==> Add1(x).Finite? && Value(Add1(x)) == Value(x) + 1.0
    ensures !x.Finite? ==> Add1(x) == x
  {
    if x.Finite? && x.scale < 0 {
      var p := Pow10(-x.scale);
      var s := if x.negative then -(x.digits as int) else x.digits as int;
      ValueBelowOne(x);
      var y := Add1(x);
      assert y.scale == x.scale;
      ValueBelowOne(y);
      assert (if y.negative then -(y.digits as int) else y.digits as int) == s + p;
      AddOneOver(s as real, p as real);
    }
  }

  // ---------------------------------------------------------------------
  // Number(s)
  // ---------------------------------------------------------------------

  predicate IsExponentMark(c: char) { c == 'e' || c == 'E' }
  predicate IsDot(c: char) { c == '.' }

  lemma AllDigitsConcat(a: string, b: string)
    requires Storage.AllDigits(a) && Storage.AllDigits(b)
    ensures Storage.AllDigits(a + b)
  {
    assert forall i :: |a| <= i < |a + b| ==> (a + b)[i] == b[i - |a|];
  }

  /** The exponent after `e` or `E`: an optional sign and one or more digits. */
  function SignedInteger(x: string): Option<int>
  {
    if x != [] && (x[0] == '+' || x[0] == '-') then
      var d := x[1..];
      if d != [] && Storage.AllDigits(d) then
        Some(if x[0] == '-' then -(Storage.DecimalValue(d) as int) else Storage.DecimalValue(d) as int)
      else None
    else if x != [] && Storage.AllDigits(x) then Some(Storage.DecimalValue(x))
    else None
  }

  /** The digits and point of a literal: everything before its first `e` or `E`. */
  function MantissaOf(u: string): string
  {
    var e := FindIndex(u, IsExponentMark);
    if e < 0 then u else u[..e]
  }

  /** The exponent of a literal: 0 without an `e` or `E`, otherwise the signed integer after the first one. */
  function ExponentOf(u: string): Option<int>
  {
    var e := FindIndex(u, IsExponentMark);
    if e < 0 then Some(0) else SignedInteger(u[e + 1..])
  }

  /** Digits with an optional `.` (at least one digit in all), scaled by the exponent. */
  function MantissaLiteral(mantissa: string, exponent: Option<int>, negative: bool): Number
  {
    var dot := FindIndex(mantissa, IsDot);
    var whole := if dot < 0 then mantissa else mantissa[..dot];
    var fraction := if dot < 0 then [] else mantissa[dot + 1..];
    if exponent.Some? && |whole| + |fraction| > 0 && Storage.AllDigits(whole) && Storage.AllDigits(fraction) then
      AllDigitsConcat(whole, fraction);
      Finite(negative, Storage.DecimalValue(whole + fraction), exponent.value - |fraction|)
    else NaN
  }

  /**
   * StrUnsignedDecimalLiteral other than `Infinity`: digits with an optional
   * `.` and fraction (at least one digit in all) and an optional exponent,
   * read as the digits scaled by a power of ten; `NaN` outside that grammar.
   */
  function DecimalLiteral(u: string, negative: bool): Number
  {
    MantissaLiteral(MantissaOf(u), ExponentOf(u), negative)
  }

  /** The value of a HexDigit, OctalDigit or BinaryDigit; 36 for any other character. */
  function RadixDigit(c: char): nat
  {
    if '0' <= c <= '9' then c as int - '0' as int
    else if 'a' <= c <= 'z' then c as int - 'a' as int + 10
    else if 'A' <= c <= 'Z' then c as int - 'A' as int + 10
    else 36
  }

  function RadixValue(d: string, radix: nat): nat
  {
    if d == [] then 0 else radix * RadixValue(d[..|d| - 1], radix) + RadixDigit(d[|d| - 1])
  }

  /** NonDecimalIntegerLiteral after its prefix: one or more digits of the radix. */
  function RadixNumber(d: string, radix: nat): Number
  {
    if d != [] && forall i :: 0 <= i < |d| ==> RadixDigit(d[i]) < radix then FromNat(RadixValue(d, radix))
    else NaN
  }

  function UnsignedNumber(u: string, negative: bool): Number
  {
    if u == "Infinity" then Infinity(negative) else DecimalLiteral(u, negative)
  }

  /** `Number(s)`: ECMAScript StringToNumber; text outside the grammar is `NaN`. */
  function StringToNumber(s: string): Number
  {
    TrimmedToNumber(Trim(s))
  }

  /** StringToNumber after the surrounding whitespace is removed. */
  function TrimmedToNumber(t: string): Number
  {
    if t == [] then Zero
    else if |t| >= 2 && t[0] == '0' && (t[1] == 'x' || t[1] == 'X') then RadixNumber(t[2..], 16)
    else if |t| >= 2 && t[0] == '0' && (t[1] == 'o' || t[1] == 'O') then RadixNumber(t[2..], 8)
    else if |t| >= 2 && t[0] == '0' && (t[1] == 'b' || t[1] == 'B') then RadixNumber(t[2..], 2)
    else if t[0] == '+' then UnsignedNumber(t[1..], false)
    else if t[0] == '-' then UnsignedNumber(t[1..], true)
    else UnsignedNumber(t, false)
  }

  // ---------------------------------------------------------------------
  // String(x)
  // ---------------------------------------------------------------------

  function Zeros(n: nat): (r: string)
    ensures |r| == n && forall i :: 0 <= i < n ==> r[i] == '0'
  {
    seq(n, _ => '0')
  }

  /** The fewest digits for the same value: trailing zeros move into the scale. */
  function Shortest(m: nat, scale: int): (r: (nat, int))
    requires m > 0
    ensures r.0 > 0
    decreases m
  {
    if m % 10 == 0 then Shortest(m / 10, scale + 1) else (m, scale)
  }

  /** `d` as `d₀` or `d₀.d₁…`, the significand of the exponential form. */
  function Significand(d: string): string
    requires d != []
  {
    if |d| == 1 then d else d[..1] + "." + d[1..]
  }

  /**
   * Number::toString of the positive number `s × 10^scale`: with `k` digits
   * and `n = k + scale`, plain digits padded with zeros when `k <= n <= 21`,
   * a decimal point inside the digits when `0 < n <= 21`, `0.` and leading
   * zeros when `-6 < n <= 0`, and the exponential form otherwise.
   */
  function PositiveToString(s: nat, scale: int): string
    requires s > 0
  {
    var d := Storage.NatToString(s);
    var k := |d|;
    var n := k + scale;
    if k <= n <= 21 then d + Zeros(n - k)
    else if 0 < n <= 21 then d[..n] + "." + d[n..]
    else if -6 < n <= 0 then "0." + Zeros(-n) + d
    else Significand(d) + ExponentPart(n - 1)
  }

  /** `String(x)` */
  function NumberToString(x: Number): string
  {
    match x
    case NaN => "NaN"
    case Infinity(negative) => if negative then "-Infinity" else "Infinity"
    case Finite(negative, m, scale) =>
      if m == 0 then "0"
      else
        var p := Shortest(m, scale);
        (if negative then "-" else "") + PositiveToString(p.0, p.1)
  }

  // ---------------------------------------------------------------------
  // Number(String(x)) is x
  // ---------------------------------------------------------------------

  lemma {:induction false} ShortestValue(m: nat, scale: int)
    requires m > 0
    ensures Scaled(Shortest(m, scale).0, Shortest(m, scale).1) == Scaled(m, scale)
    decreases m
  {
    if m % 10 == 0 {
      ShortestValue(m / 10, scale + 1);
      ScaleShift(m / 10, 1, scale + 1);
      assert (m / 10) * Pow10(1) == m;
    }
  }

  lemma AppendArith(a: nat, p: nat, b: nat, c: nat)
    ensures 10 * (a * p + b) + c == a * (10 * p) + (10 * b + c)
  {
  }

  lemma {:induction false} DecimalValueAppend(a: string, b: string)
    requires Storage.AllDigits(a) && Storage.AllDigits(b)
    ensures Storage.AllDigits(a + b)
    ensures Storage.DecimalValue(a + b) == Storage.DecimalValue(a) * Pow10(|b|) + Storage.DecimalValue(b)
    decreases |b|
  {
    AllDigitsConcat(a, b);
    if b == [] {
      assert a + b == a;
    } else {
      var b' := b[..|b| - 1];
      assert (a + b)[..|a + b| - 1] == a + b';
      DecimalValueAppend(a, b');
      var da, db := Storage.DecimalValue(a), Storage.DecimalValue(b');
      AppendArith(da, Pow10(|b'|), db, Storage.DigitValue(b[|b| - 1]));
    }
  }

  lemma {:induction false} DecimalValueZeros(n: nat)
    ensures Storage.AllDigits(Zeros(n)) && Storage.DecimalValue(Zeros(n)) == 0
  {
    if n > 0 {
      assert Zeros(n)[..n - 1] == Zeros(n - 1);
      DecimalValueZeros(n - 1);
    }
  }

  /** `s` has no whitespace at either end, so `trim` leaves it. */
  lemma TrimUnpadded(s: string)
    requires s != [] && !IsSpace(s[0]) && !IsSpace(s[|s| - 1])
    ensures Trim(s) == s
  {
    assert TrimStart(s) == s;
  }

  lemma FindIndexAt<T>(s: seq<T>, p: T -> bool, i: nat)
    requires i < |s| && p(s[i]) && forall k :: 0 <= k < i ==> !p(s[k])
    ensures FindIndex(s, p) == i
  {
  }

  lemma FindIndexNone<T>(s: seq<T>, p: T -> bool)
    requires forall k :: 0 <= k < |s| ==> !p(s[k])
    ensures FindIndex(s, p) == -1
  {
  }


  /** A literal without `e` or `E` is all mantissa, with exponent 0. */
  lemma NoExponentMark(u: string)
    requires forall k :: 0 <= k < |u| ==> !IsExponentMark(u[k])
    ensures MantissaOf(u) == u && ExponentOf(u) == Some(0)
  {
    FindIndexNone(u, IsExponentMark);
  }

  /** Plain digits: the value of the digits, scale 0. */
  lemma LiteralOfDigits(u: string, negative: bool)
    requires u != [] && Storage.AllDigits(u)
    ensures DecimalLiteral(u, negative) == Finite(negative, Storage.DecimalValue(u), 0)
  {
    NoExponentMark(u);
    FindIndexNone(u, IsDot);
    assert u + [] == u;
  }

  /** `w.f`: the digits of both, scaled down by the length of the fraction. */
  lemma LiteralWithPoint(w: string, f: string, u: string, negative: bool)
    requires w != [] && Storage.AllDigits(w) && Storage.AllDigits(f) && u == w + "." + f
    ensures Storage.AllDigits(w + f)
    ensures DecimalLiteral(u, negative) == Finite(negative, Storage.DecimalValue(w + f), -|f|)
  {
    AllDigitsConcat(w, f);
    assert forall k :: 0 <= k < |u| ==> !IsExponentMark(u[k]) by {
      forall k | 0 <= k < |u| ensures !IsExponentMark(u[k]) {
        if k < |w| { assert u[k] == w[k]; } else if k > |w| { assert u[k] == f[k - |w| - 1]; }
      }
    }
    NoExponentMark(u);
    assert forall k :: 0 <= k < |w| ==> !IsDot(u[k]) by {
      forall k | 0 <= k < |w| ensures !IsDot(u[k]) { assert u[k] == w[k]; }
    }
    FindIndexAt(u, IsDot, |w|);
    assert u[..|w|] == w && u[|w| + 1..] == f;
  }

  /** `m`, `e`, then `x`: the mantissa is `m` and the exponent is read from `x`. */
  lemma ExponentMarkAt(m: string, x: string, u: string)
    requires forall k :: 0 <= k < |m| ==> !IsExponentMark(m[k])
    requires u == m + "e" + x
    ensures MantissaOf(u) == m && ExponentOf(u) == SignedInteger(x)
  {
    FindIndexAt(u, IsExponentMark, |m|);
    assert u[..|m|] == m && u[|m| + 1..] == x;
  }

  /** Scaling a mantissa by `j` adds `j` to the scale it reads with at exponent 0. */
  lemma MantissaShift(m: string, negative: bool, j: int)
    ensures MantissaLiteral(m, Some(j), negative) ==
              match MantissaLiteral(m, Some(0), negative)
              case Finite(n, v, scale) => Finite(n, v, scale + j)
              case other => other
  {
  }

  /** A literal followed by an exponent: the exponent adds to the scale. */
  lemma LiteralWithExponent(m: string, x: string, u: string, negative: bool, v: nat, scale: int, j: int)
    requires forall k :: 0 <= k < |m| ==> !IsExponentMark(m[k])
    requires DecimalLiteral(m, negative) == Finite(negative, v, scale) && SignedInteger(x) == Some(j)
    requires u == m + "e" + x
    ensures DecimalLiteral(u, negative) == Finite(negative, v, scale + j)
  {
    ExponentMarkAt(m, x, u);
    NoExponentMark(m);
    MantissaShift(m, negative, j);
  }

  lemma SignedNat(sign: char, n: nat)
    requires sign == '+' || sign == '-'
    ensures SignedInteger([sign] + Storage.NatToString(n)) == Some(if sign == '-' then -(n as int) else n as int)
  {
    var x := [sign] + Storage.NatToString(n);
    assert x[1..] == Storage.NatToString(n);
    Storage.DecimalRoundTrip(n);
  }

  /** What `StringToNumber` needs of a numeral: it starts and ends with a digit, and its second character is no radix letter. */
  predicate NumeralEnds(t: string)
  {
    t != [] && IsDigit(t[0]) && IsDigit(t[|t| - 1]) && (|t| >= 2 ==> t[1] == '.' || t[1] == 'e' || IsDigit(t[1]))
  }

  lemma DigitsEnds(d: string)
    requires d != [] && Storage.AllDigits(d)
    ensures NumeralEnds(d)
  {
  }

  /** `d` followed by `z` zeros reads back as `d × 10^z`. */
  lemma ParsePadded(d: string, s: nat, z: nat, t: string, negative: bool)
    requires d != [] && Storage.AllDigits(d) && Storage.DecimalValue(d) == s && t == d + Zeros(z)
    ensures NumeralEnds(t)
    ensures DecimalLiteral(t, negative) == Finite(negative, s * Pow10(z), 0)
  {
    DecimalValueZeros(z);
    DecimalValueAppend(d, Zeros(z));
    DigitsEnds(t);
    LiteralOfDigits(t, negative);
  }

  lemma PointedEnds(d: string, n: nat, t: string)
    requires Storage.AllDigits(d) && 0 < n < |d| && t == d[..n] + "." + d[n..]
    ensures NumeralEnds(t)
  {
    assert t[0] == d[0] && t[|t| - 1] == d[|d| - 1];
    assert n == 1 ==> t[1] == '.';
    assert n > 1 ==> t[1] == d[1];
  }

  /** `d` with a point after its first `n` digits: the whole part and the fraction are `d` cut at `n`. */
  lemma PointedSplit(d: string, n: nat, t: string) returns (w: string, f: string)
    requires Storage.AllDigits(d) && 0 < n < |d| && t == d[..n] + "." + d[n..]
    ensures t == w + "." + f && w + f == d && |f| == |d| - n && w != []
    ensures Storage.AllDigits(w) && Storage.AllDigits(f)
  {
    w, f := d[..n], d[n..];
    assert w + f == d;
  }

  /** `d` with a point after its first `n` digits reads back as `d × 10^(n - |d|)`. */
  lemma ParsePointed(d: string, s: nat, n: nat, t: string, negative: bool)
    requires Storage.AllDigits(d) && Storage.DecimalValue(d) == s && 0 < n < |d| && t == d[..n] + "." + d[n..]
    ensures NumeralEnds(t)
    ensures DecimalLiteral(t, negative) == Finite(negative, s, n - |d|)
  {
    PointedEnds(d, n, t);
    var w, f := PointedSplit(d, n, t);
    LiteralWithPoint(w, f, t, negative);
  }

  /** Leading zeros do not change the value of a run of digits. */
  lemma LeadingZerosValue(z: nat, d: string)
    requires Storage.AllDigits(d)
    ensures Storage.AllDigits(Zeros(z) + d) && Storage.DecimalValue(Zeros(z) + d) == Storage.DecimalValue(d)
  {
    DecimalValueZeros(z);
    DecimalValueAppend(Zeros(z), d);
  }

  lemma SmallEnds(d: string, z: nat, t: string)
    requires d != [] && Storage.AllDigits(d) && t == "0." + Zeros(z) + d
    ensures NumeralEnds(t)
  {
    assert t[0] == '0' && t[1] == '.' && t[|t| - 1] == d[|d| - 1];
  }

  /** `0.` with `z` zeros before `d` is the whole part `0` and a fraction of `z` zeros, then `d`. */
  lemma SmallSplit(d: string, s: nat, z: nat, t: string) returns (w: string, f: string)
    requires Storage.AllDigits(d) && Storage.DecimalValue(d) == s && t == "0." + Zeros(z) + d
    ensures t == w + "." + f && |f| == z + |d| && w != []
    ensures Storage.AllDigits(w) && Storage.AllDigits(f) && Storage.DecimalValue(w + f) == s
  {
    w, f := "0", Zeros(z) + d;
    LeadingZerosValue(z, d);
    assert w + f == Zeros(z + 1) + d;
    LeadingZerosValue(z + 1, d);
  }

  /** `0.` with `z` zeros before `d` reads back as `d × 10^-(z + |d|)`. */
  lemma ParseSmall(d: string, s: nat, z: nat, t: string, negative: bool)
    requires d != [] && Storage.AllDigits(d) && Storage.DecimalValue(d) == s && t == "0." + Zeros(z) + d
    ensures NumeralEnds(t)
    ensures DecimalLiteral(t, negative) == Finite(negative, s, -(z + |d|))
  {
    SmallEnds(d, z, t);
    var w, f := SmallSplit(d, s, z, t);
    LiteralWithPoint(w, f, t, negative);
  }

  lemma SignificandDigits(d: string, m: string)
    requires d != [] && Storage.AllDigits(d) && m == Significand(d)
    ensures forall i :: 0 <= i < |m| ==> !IsExponentMark(m[i])
    ensures m != [] && m[0] == d[0] && (|m| >= 2 ==> m[1] == '.')
  {
    if |d| > 1 {
      forall i | 0 <= i < |m| ensures !IsExponentMark(m[i]) {
        if i > 1 { assert m[i] == d[i - 1]; }
      }
    }
  }

  lemma SignificandLiteral(d: string, s: nat, m: string, negative: bool)
    requires d != [] && Storage.AllDigits(d) && Storage.DecimalValue(d) == s && m == Significand(d)
    ensures DecimalLiteral(m, negative) == Finite(negative, s, 1 - |d|)
  {
    if |d| == 1 {
      LiteralOfDigits(d, negative);
    } else {
      var w, f := PointedSplit(d, 1, m);
      LiteralWithPoint(w, f, m, negative);
    }
  }

  /** The exponent part `e+x` or `e-x`. */
  function ExponentPart(x: int): string
  {
    if x >= 0 then "e+" + Storage.NatToString(x) else "e-" + Storage.NatToString(-x)
  }

  /** `e`, then a signed integer that reads back as `x`. */
  lemma ExponentPartSplit(x: int, p: string) returns (y: string)
    requires p == ExponentPart(x)
    ensures p == "e" + y && SignedInteger(y) == Some(x)
    ensures IsDigit(p[|p| - 1])
  {
    var n := Storage.NatToString(if x >= 0 then x else -x);
    y := [if x >= 0 then '+' else '-'] + n;
    SignedNat(y[0], if x >= 0 then x else -x);
    assert Storage.AllDigits(n);
    assert p[|p| - 1] == n[|n| - 1];
  }

  lemma ExponentialEnds(m: string, p: string, t: string)
    requires m != [] && IsDigit(m[0]) && (|m| >= 2 ==> m[1] == '.')
    requires p != [] && p[0] == 'e' && IsDigit(p[|p| - 1]) && t == m + p
    ensures NumeralEnds(t)
  {
    assert t[|t| - 1] == p[|p| - 1];
    assert |m| == 1 ==> t[1] == 'e';
  }

  /** The exponential form is a significand, `e` and a signed integer. */
  lemma ExponentialSplit(d: string, x: int, t: string) returns (m: string, y: string)
    requires d != [] && Storage.AllDigits(d) && t == Significand(d) + ExponentPart(x)
    ensures m == Significand(d) && t == m + "e" + y && SignedInteger(y) == Some(x)
    ensures NumeralEnds(t)
  {
    m := Significand(d);
    var p := ExponentPart(x);
    SignificandDigits(d, m);
    y := ExponentPartSplit(x, p);
    ExponentialEnds(m, p, t);
  }

  /** The exponential form `d₀.d₁…e±x` reads back as `d × 10^(x + 1 - |d|)`. */
  lemma ParseExponential(d: string, s: nat, x: int, t: string, negative: bool)
    requires d != [] && Storage.AllDigits(d) && Storage.DecimalValue(d) == s && t == Significand(d) + ExponentPart(x)
    ensures NumeralEnds(t)
    ensures DecimalLiteral(t, negative) == Finite(negative, s, 1 - |d| + x)
  {
    var m, y := ExponentialSplit(d, x, t);
    SignificandDigits(d, m);
    SignificandLiteral(d, s, m, negative);
    LiteralWithExponent(m, y, t, negative, s, 1 - |d|, x);
  }

  /** What `ParsePositive` promises of `t`: it reads back as the value `s × 10^scale`. */
  predicate ReadsAs(t: string, negative: bool, s: nat, scale: int, v: nat, e: int)
  {
    NumeralEnds(t) && DecimalLiteral(t, negative) == Finite(negative, v, e) && Scaled(v, e) == Scaled(s, scale)
  }

  lemma PaddedReads(s: nat, scale: int, t: string, negative: bool) returns (v: nat, e: int)
    requires s > 0 && t == PositiveToString(s, scale)
    requires |Storage.NatToString(s)| <= |Storage.NatToString(s)| + scale <= 21
    ensures ReadsAs(t, negative, s, scale, v, e)
  {
    var d := Storage.NatToString(s);
    Storage.DecimalRoundTrip(s);
    ParsePadded(d, s, scale, t, negative);
    v, e := s * Pow10(scale), 0;
    ScaleShift(s, scale, scale);
  }

  lemma PointedReads(s: nat, scale: int, t: string, negative: bool) returns (v: nat, e: int)
    requires s > 0 && t == PositiveToString(s, scale)
    requires scale < 0 && 0 < |Storage.NatToString(s)| + scale <= 21
    ensures ReadsAs(t, negative, s, scale, v, e)
  {
    var d := Storage.NatToString(s);
    Storage.DecimalRoundTrip(s);
    ParsePointed(d, s, |d| + scale, t, negative);
    v, e := s, scale;
  }

  lemma SmallReads(s: nat, scale: int, t: string, negative: bool) returns (v: nat, e: int)
    requires s > 0 && t == PositiveToString(s, scale)
    requires -6 < |Storage.NatToString(s)| + scale <= 0
    ensures ReadsAs(t, negative, s, scale, v, e)
  {
    var d := Storage.NatToString(s);
    Storage.DecimalRoundTrip(s);
    ParseSmall(d, s, -(|d| + scale), t, negative);
    v, e := s, scale;
  }

  lemma ExponentialReads(s: nat, scale: int, t: string, negative: bool) returns (v: nat, e: int)
    requires s > 0 && t == PositiveToString(s, scale)
    requires var n := |Storage.NatToString(s)| + scale; n > 21 || n <= -6
    ensures ReadsAs(t, negative, s, scale, v, e)
  {
    var d := Storage.NatToString(s);
    Storage.DecimalRoundTrip(s);
    ParseExponential(d, s, |d| + scale - 1, t, negative);
    v, e := s, scale;
  }

  /** `PositiveToString` writes a numeral that reads back as the same value. */
  lemma ParsePositive(s: nat, scale: int, t: string, negative: bool) returns (v: nat, e: int)
    requires s > 0 && t == PositiveToString(s, scale)
    ensures NumeralEnds(t)
    ensures DecimalLiteral(t, negative) == Finite(negative, v, e) && Scaled(v, e) == Scaled(s, scale)
  {
    var k := |Storage.NatToString(s)|;
    if k <= k + scale <= 21 {
      v, e := PaddedReads(s, scale, t, negative);
    } else if 0 < k + scale <= 21 {
      v, e := PointedReads(s, scale, t, negative);
    } else if -6 < k + scale <= 0 {
      v, e := SmallReads(s, scale, t, negative);
    } else {
      v, e := ExponentialReads(s, scale, t, negative);
    }
  }

  lemma NotInfinity(t: string)
    requires t != [] && IsDigit(t[0])
    ensures t != "Infinity"
  {
    assert "Infinity"[0] == 'I';
  }

  lemma TrimmedNumeral(t: string)
    requires t != [] && !IsSpace(t[0]) && !IsSpace(t[|t| - 1])
    ensures StringToNumber(t) == TrimmedToNumber(t)
  {
    TrimUnpadded(t);
  }

  lemma UnsignedNumeral(t: string)
    requires NumeralEnds(t)
    ensures TrimmedToNumber(t) == UnsignedNumber(t, false)
  {
    assert !(|t| >= 2 && t[0] == '0' && (t[1] == 'x' || t[1] == 'X'));
    assert !(|t| >= 2 && t[0] == '0' && (t[1] == 'o' || t[1] == 'O'));
    assert !(|t| >= 2 && t[0] == '0' && (t[1] == 'b' || t[1] == 'B'));
    assert t[0] != '+' && t[0] != '-';
  }

  lemma NegatedNumeral(t: string)
    requires NumeralEnds(t)
    ensures TrimmedToNumber("-" + t) == UnsignedNumber(t, true)
  {
    var str := "-" + t;
    assert str[0] == '-' && str[1..] == t;
  }

  /** A numeral, or `-` and a numeral, is read by `DecimalLiteral`. */
  lemma ParseNumeral(t: string, negative: bool, str: string)
    requires NumeralEnds(t) && str == (if negative then "-" else "") + t
    ensures StringToNumber(str) == DecimalLiteral(t, negative)
  {
    NotInfinity(t);
    if negative {
      TrimmedNumeral(str);
      NegatedNumeral(t);
    } else {
      assert str == t;
      TrimmedNumeral(t);
      UnsignedNumeral(t);
    }
  }

  // ---------------------------------------------------------------------
  // Examples of Number(s)
  // ---------------------------------------------------------------------

  lemma InfinityText(s: string)
    requires s == "Infinity"
    ensures TrimmedToNumber(s) == Infinity(false)
  {
  }

  lemma InfinityReads(s: string)
    requires s == "Infinity"
    ensures StringToNumber(s) == Infinity(false)
  {
    TrimmedNumeral(s);
    InfinityText(s);
  }

  lemma NegativeInfinityReads(s: string)
    requires s == "-Infinity"
    ensures StringToNumber(s) == Infinity(true)
  {
    TrimmedNumeral(s);
    var u := s[1..];
    assert u == "Infinity";
  }

  lemma SignText(t: string, negative: bool)
    requires |t| >= 2 && t[0] == (if negative then '-' else '+') && IsDigit(t[1])
    ensures TrimmedToNumber(t) == UnsignedNumber(t[1..], negative)
  {
  }

  /** One digit reads as its value. */
  lemma OneDigit(u: string, negative: bool)
    requires |u| == 1 && IsDigit(u[0])
    ensures UnsignedNumber(u, negative) == Finite(negative, Storage.DigitValue(u[0]), 0)
  {
    NotInfinity(u);
    LiteralOfDigits(u, negative);
    assert u[..0] == [];
  }

  lemma DigitReads(t: string, negative: bool)
    requires |t| == 2 && t[0] == (if negative then '-' else '+') && IsDigit(t[1])
    ensures StringToNumber(t) == Finite(negative, Storage.DigitValue(t[1]), 0)
  {
    var u := t[1..];
    TrimmedNumeral(t);
    SignText(t, negative);
    OneDigit(u, negative);
  }

  /** A sign in front of digits is read, not rejected. */
  lemma SignedReads(p: string, m: string)
    requires p == "+5" && m == "-3"
    ensures StringToNumber(p) == FromNat(5) && StringToNumber(m) == Finite(true, 3, 0)
  {
    DigitReads(p, false);
    DigitReads(m, true);
  }

  lemma FifteenValue(s: string)
    requires s == "15"
    ensures Storage.AllDigits(s) && Storage.DecimalValue(s) == 15
  {
    var a := s[..1];
    assert a[..0] == [];
    assert Storage.DecimalValue(a) == 1;
  }

  lemma FractionEnds(f: string)
    requires f == "1.5"
    ensures NumeralEnds(f)
  {
  }

  lemma FractionLiteral(f: string)
    requires f == "1.5"
    ensures NumeralEnds(f) && DecimalLiteral(f, false) == Finite(false, 15, -1)
  {
    FractionEnds(f);
    var w, d := "1", "5";
    assert f == w + "." + d;
    LiteralWithPoint(w, d, f, false);
    FifteenValue(w + d);
  }

  lemma FractionValue()
    ensures Value(Finite(false, 15, -1)) == 1.5
  {
    assert Pow10(1) == 10;
  }

  lemma FractionReads(f: string)
    requires f == "1.5"
    ensures StringToNumber(f) == Finite(false, 15, -1) && Value(StringToNumber(f)) == 1.5
  {
    FractionLiteral(f);
    ParseNumeral(f, false, f);
    FractionValue();
  }

  lemma ThreeExponent(x: string)
    requires x == "3"
    ensures SignedInteger(x) == Some(3)
  {
    assert x[..0] == [];
    assert Storage.DecimalValue(x) == 3;
  }

  lemma ExponentEnds(x: string)
    requires x == "1e3"
    ensures NumeralEnds(x)
  {
  }

  lemma ExponentLiteral(x: string)
    requires x == "1e3"
    ensures NumeralEnds(x) && DecimalLiteral(x, false) == Finite(false, 1, 3)
  {
    ExponentEnds(x);
    var m, y := "1", "3";
    assert x == m + "e" + y;
    LiteralOfDigits(m, false);
    ThreeExponent(y);
    LiteralWithExponent(m, y, x, false, 1, 0, 3);
  }

  lemma ExponentReads(x: string)
    requires x == "1e3"
    ensures StringToNumber(x) == Finite(false, 1, 3) && Value(StringToNumber(x)) == 1000.0
  {
    ExponentLiteral(x);
    ParseNumeral(x, false, x);
  }

  /** A fraction and an exponent are read as the decimal they denote. */
  lemma DecimalReads(f: string, x: string)
    requires f == "1.5" && x == "1e3"
    ensures StringToNumber(f) == Finite(false, 15, -1) && Value(StringToNumber(f)) == 1.5
    ensures StringToNumber(x) == Finite(false, 1, 3) && Value(StringToNumber(x)) == 1000.0
  {
    FractionReads(f);
    ExponentReads(x);
  }

  lemma HexText(h: string)
    requires h == "0x1f"
    ensures TrimmedToNumber(h) == FromNat(31)
  {
    assert h[2..] == "1f";
    assert RadixValue("1f", 16) == 31;
  }

  lemma WordText(w: string)
    requires w == "12px"
    ensures TrimmedToNumber(w) == NaN
  {
    NotInfinity(w);
    FindIndexNone(w, IsExponentMark);
    FindIndexNone(w, IsDot);
  }

  /** `0x1f` is 31; text that is no numeral is `NaN`; the empty string is 0. */
  lemma OtherReads(h: string, w: string, e: string)
    requires h == "0x1f" && w == "12px" && e == ""
    ensures StringToNumber(h) == FromNat(31) && StringToNumber(w) == NaN && StringToNumber(e) == Zero
  {
    TrimmedNumeral(h);
    HexText(h);
    TrimmedNumeral(w);
    WordText(w);
  }

  /** `1e3 + 1` and `1.5 + 1` */
  lemma AddExamples()
    ensures Add1(Finite(false, 1, 3)) == Finite(false, 1001, 0)
    ensures Add1(Finite(false, 15, -1)) == Finite(false, 25, -1)
  {
    assert Pow10(3) == 1000;
    assert Pow10(1) == 10;
  }

  /** `String(1001)` and `String(2.5)` */
  lemma PrintExamples()
    ensures NumberToString(Finite(false, 1001, 0)) == "1001"
    ensures NumberToString(Finite(false, 25, -1)) == "2.5"
  {
    assert Storage.NatToString(1001) == "1001";
    assert Storage.NatToString(25) == "25";
  }

  lemma NaNRoundTrip()
    ensures StringToNumber(NumberToString(NaN)) == NaN
  {
    var str := NumberToString(NaN);
    TrimUnpadded(str);
    FindIndexNone(str, IsExponentMark);
    FindIndexNone(str, IsDot);
  }

  lemma InfinityRoundTrip(negative: bool)
    ensures StringToNumber(NumberToString(Infinity(negative))) == Infinity(negative)
  {
    var str := NumberToString(Infinity(negative));
    if negative {
      NegativeInfinityReads(str);
    } else {
      InfinityReads(str);
    }
  }

  lemma ZeroReads(str: string)
    requires str == "0"
    ensures StringToNumber(str) == Zero
  {
    DigitsEnds(str);
    ParseNumeral(str, false, str);
    LiteralOfDigits(str, false);
  }

  lemma ScaledZero(e: int)
    ensures Scaled(0, e) == 0.0
  {
  }

  lemma ZeroRoundTrip(x: Number)
    requires x.Finite? && x.digits == 0
    ensures SameNumber(StringToNumber(NumberToString(x)), x)
  {
    var str := NumberToString(x);
    assert str == "0";
    ZeroReads(str);
    ScaledZero(x.scale);
    ScaledZero(0);
  }

  lemma SameScaled(negative: bool, v: nat, e: int, m: nat, scale: int)
    requires Scaled(v, e) == Scaled(m, scale)
    ensures SameNumber(Finite(negative, v, e), Finite(negative, m, scale))
  {
  }

  lemma FiniteRoundTrip(x: Number)
    requires x.Finite? && x.digits > 0
    ensures SameNumber(StringToNumber(NumberToString(x)), x)
  {
    var p := Shortest(x.digits, x.scale);
    ShortestValue(x.digits, x.scale);
    var t := PositiveToString(p.0, p.1);
    var v, e := ParsePositive(p.0, p.1, t, x.negative);
    var str := NumberToString(x);
    assert str == (if x.negative then "-" else "") + t;
    ParseNumeral(t, x.negative, str);
    SameScaled(x.negative, v, e, x.digits, x.scale);
  }

  /** `Number(String(x))` is `x` again: the same number, or `NaN` for `NaN`. */
  lemma NumberStringRoundTrip(x: Number)
    ensures SameNumber(StringToNumber(NumberToString(x)), x)
  {
    match x
    case NaN => NaNRoundTrip();
    case Infinity(negative) => InfinityRoundTrip(negative);
    case Finite(_, m, _) =>
      if m == 0 {
        ZeroRoundTrip(x);
      } else {
        FiniteRoundTrip(x);
      }
  }
}
