/** The two ECMAScript number routines the core relies on, over exact reals:
    `parseFloat` (a leading decimal prefix) and `Number.prototype.toFixed`. */
module JsNumbers {
  import opened Wrappers
  import opened Strings

  function Pow10(n: nat): (p: nat)
    ensures p >= 1
  {
    if n == 0 then 1 else 10 * Pow10(n - 1)
  }

  /** The longest prefix of `s` made of decimal digits. */
  function LeadingDigits(s: string): (r: string)
    ensures |r| <= |s| && r == s[..|r|] && AllDigits(r)
    ensures |r| == |s| || !IsDigit(s[|r|])
  {
    if s != [] && IsDigit(s[0]) then [s[0]] + LeadingDigits(s[1..]) else []
  }

  /** `parseFloat(s)`: skip leading whitespace, read an optional sign, integer digits and
      an optional `.` with fraction digits, and ignore whatever follows. `None` stands
      for NaN: there was no digit before or right after the point. */
  function ParseFloat(s: string): Option<real> {
    ParseSigned(TrimStart(s))
  }

  function ParseSigned(t: string): Option<real> {
    if t != [] && t[0] == '-' then Negated(ParseUnsigned(t[1..]))
    else if t != [] && t[0] == '+' then ParseUnsigned(t[1..])
    else ParseUnsigned(t)
  }

  /** Integer digits, then the digits after a `.` if one follows. */
  function ParseUnsigned(body: string): Option<real> {
    var ip := LeadingDigits(body);
    var fp := FractionDigits(body[|ip|..]);
    if ip == [] && fp == [] then None else Some(DecimalValue(ip, fp))
  }

  /** The value of the decimal numeral `ip.fp`. */
  function DecimalValue(ip: string, fp: string): real
    requires AllDigits(ip) && AllDigits(fp)
  {
    DigitsValue(ip) as real + Scaled(DigitsValue(fp), |fp|)
  }

  /** n / 10^f */
  function Scaled(n: nat, f: nat): real {
    n as real / Pow10(f) as real
  }

  lemma DecimalValueWhole(ip: string)
    requires AllDigits(ip)
    ensures DecimalValue(ip, []) == DigitsValue(ip) as real
  {
  }

  lemma ParseUnsignedOfDigits(d: string, rest: string)
    requires d != [] && AllDigits(d)
    requires rest == [] || (!IsDigit(rest[0]) && rest[0] != '.')
    ensures ParseUnsigned(d + rest) == Some(DigitsValue(d) as real)
  {
    LeadingDigitsOf(d, rest);
    assert (d + rest)[|d|..] == rest;
    DecimalValueWhole(d);
  }

  function FractionDigits(rest: string): (r: string)
    ensures AllDigits(r)
  {
    if rest != [] && rest[0] == '.' then LeadingDigits(rest[1..]) else []
  }

  /** The integer `n` toFixed picks for a non-negative `x`: n / 10^f - x is as close to
      zero as possible, the larger `n` on a tie. */
  function FixedScaled(x: real, f: nat): nat
    requires x >= 0.0
  {
    (x * Pow10(f) as real + 0.5).Floor
  }

  lemma FixedScaledIsNearest(x: real, f: nat)
    requires x >= 0.0
    ensures x * Pow10(f) as real - 0.5 < FixedScaled(x, f) as real <= x * Pow10(f) as real + 0.5
  {
  }

  /** The value `x.toFixed(f)` denotes: the multiple of 10^-f nearest to `x`, ties going
      away from zero. */
  function RoundFixed(x: real, f: nat): real {
    if x < 0.0 then -Scaled(FixedScaled(-x, f), f) else Scaled(FixedScaled(x, f), f)
  }

  function Zeros(k: nat): (r: string)
    ensures |r| == k && AllDigits(r)
  {
    if k == 0 then [] else Zeros(k - 1) + ['0']
  }

  /** The digits of `x.toFixed(f)` for a non-negative `x`. */
  function FixedDigits(x: real, f: nat): string
    requires x >= 0.0
  {
    PointString(FixedScaled(x, f), f)
  }

  /** The ECMAScript layout of n / 10^f: the digits of `n` are padded with zeros to at
      least f + 1 of them and a point is put before the last f. */
  function PointString(n: nat, f: nat): string {
    var m := NatToString(n);
    if f == 0 then m
    else
      var padded := if |m| <= f then Zeros(f + 1 - |m|) + m else m;
      padded[..|padded| - f] + "." + padded[|padded| - f..]
  }

  /** `x.toFixed(f)`: a minus sign for negative `x`, then the digits of its magnitude.
      (For |x| >= 10^21 ECMAScript switches to exponent notation; that case is not
      modelled.) */
  function ToFixed(x: real, f: nat): string {
    if x < 0.0 then "-" + FixedDigits(-x, f) else FixedDigits(x, f)
  }

  lemma {:induction false} DigitsValueAppend(a: string, b: string)
    requires AllDigits(a) && AllDigits(b)
    ensures AllDigits(a + b)
    ensures DigitsValue(a + b) == DigitsValue(a) * Pow10(|b|) + DigitsValue(b)
  {
    assert AllDigits(a + b) by {
      forall i | 0 <= i < |a + b| ensures IsDigit((a + b)[i]) {
        if i >= |a| { assert (a + b)[i] == b[i - |a|]; }
      }
    }
    if b == [] {
      assert a + b == a;
    } else {
      var b' := b[..|b| - 1];
      assert (a + b)[..|a + b| - 1] == a + b';
      assert (a + b)[|a + b| - 1] == b[|b| - 1];
      DigitsValueAppend(a, b');
      ShiftStep(DigitsValue(a), DigitsValue(b'), Pow10(|b'|), DigitValue(b[|b| - 1]));
    }
  }

  lemma ShiftStep(x: int, y: int, p: int, d: int)
    ensures 10 * (x * p + y) + d == x * (10 * p) + (10 * y + d)
  {
  }

  lemma ZerosValue(k: nat, m: string)
    requires AllDigits(m)
    ensures AllDigits(Zeros(k) + m) && DigitsValue(Zeros(k) + m) == DigitsValue(m)
  {
    DigitsValueAppend(Zeros(k), m);
    ZerosValueZero(k);
  }

  lemma {:induction false} ZerosValueZero(k: nat)
    ensures DigitsValue(Zeros(k)) == 0
  {
    if k > 0 {
      assert Zeros(k)[..k - 1] == Zeros(k - 1);
      ZerosValueZero(k - 1);
    }
  }

  lemma {:induction false} LeadingDigitsOf(d: string, rest: string)
    requires AllDigits(d)
    requires rest == [] || !IsDigit(rest[0])
    ensures LeadingDigits(d + rest) == d
  {
    if d == [] {
      assert d + rest == rest;
    } else {
      assert (d + rest)[0] == d[0] && (d + rest)[1..] == d[1..] + rest;
      LeadingDigitsOf(d[1..], rest);
    }
  }

  /** Whitespace in front of the number is skipped. */
  lemma ParseFloatSkipsWhiteSpace(w: string, s: string)
    requires AllWhiteSpace(w)
    ensures ParseFloat(w + s) == ParseFloat(s)
  {
    TrimStartOfWhiteSpace(w, s);
  }

  /** A run of digits is read as its decimal value, whatever non-numeric text follows. */
  lemma ParseFloatOfDigits(d: string, rest: string)
    requires d != [] && AllDigits(d)
    requires rest == [] || (!IsDigit(rest[0]) && rest[0] != '.')
    ensures ParseFloat(d + rest) == Some(DigitsValue(d) as real)
  {
    assert (d + rest)[0] == d[0];
    FloatOfDigitStart(d + rest);
    ParseUnsignedOfDigits(d, rest);
  }

  /** An integer printed in decimal reads back as itself. */
  lemma ParseFloatOfIntToString(i: int, rest: string)
    requires rest == [] || (!IsDigit(rest[0]) && rest[0] != '.')
    ensures ParseFloat(IntToString(i) + rest) == Some(i as real)
  {
    if i >= 0 {
      ParseFloatOfDigits(NatToString(i), rest);
    } else {
      var d := NatToString(-i);
      calc {
        ParseFloat(IntToString(i) + rest);
      == { NegativeIntText(i, rest); }
        ParseFloat("-" + (d + rest));
      == { FloatOfMinusStart(d + rest); }
        Negated(ParseUnsigned(d + rest));
      == { ParseUnsignedOfDigits(d, rest); }
        Negated(Some(DigitsValue(d) as real));
      ==
        Some(i as real);
      }
    }
  }

  lemma NegativeIntText(i: int, rest: string)
    requires i < 0
    ensures IntToString(i) + rest == "-" + (NatToString(-i) + rest)
  {
  }

  lemma DecimalValueAsFraction(a: string, b: string)
    requires AllDigits(a) && AllDigits(b)
    ensures AllDigits(a + b)
    ensures DecimalValue(a, b) == Scaled(DigitsValue(a + b), |b|)
  {
    DigitsValueAppend(a, b);
    ScaledSum(DigitsValue(a), DigitsValue(b), |b|, DigitsValue(a + b));
  }

  /** x + y / 10^f is (x * 10^f + y) / 10^f. */
  lemma ScaledSum(x: nat, y: nat, f: nat, whole: nat)
    requires whole == x * Pow10(f) + y
    ensures x as real + Scaled(y, f) == Scaled(whole, f)
  {
    var p := Pow10(f);
    CastStep(x, y, p);
    AddFraction(x as real, y as real, p as real);
  }

  lemma CastStep(a: nat, b: nat, p: nat)
    ensures (a * p + b) as real == a as real * p as real + b as real
  {
  }

  lemma AddFraction(a: real, b: real, p: real)
    requires p > 0.0
    ensures a + b / p == (a * p + b) / p
  {
    assert a == (a * p) / p;
  }

  lemma ParseUnsignedOfPoint(a: string, b: string)
    requires a != [] && AllDigits(a) && AllDigits(b)
    ensures ParseUnsigned(a + "." + b) == Some(DecimalValue(a, b))
  {
    var s := a + "." + b;
    assert s == a + ("." + b);
    LeadingDigitsOf(a, "." + b);
    assert s[|a|..] == "." + b;
    assert ("." + b)[1..] == b + [];
    LeadingDigitsOf(b, []);
    assert b + [] == b;
  }

  /** A numeral `a.b` reads back as its decimal value. */
  lemma ParseFloatOfDecimal(a: string, b: string)
    requires a != [] && AllDigits(a) && AllDigits(b)
    ensures ParseFloat(a + "." + b) == Some(DecimalValue(a, b))
  {
    assert (a + "." + b)[0] == a[0];
    FloatOfDigitStart(a + "." + b);
    ParseUnsignedOfPoint(a, b);
  }

  /** The point layout of n / 10^f reads back as n / 10^f. */
  lemma ParseFloatOfPointString(n: nat, f: nat)
    ensures ParseFloat(PointString(n, f)) == Some(Scaled(n, f))
  {
    if f == 0 {
      ParseFloatOfWhole(n);
    } else {
      ParseFloatOfFraction(n, f);
    }
  }

  lemma ParseFloatOfWhole(n: nat)
    ensures ParseFloat(PointString(n, 0)) == Some(Scaled(n, 0))
  {
    var m := NatToString(n);
    calc {
      ParseFloat(PointString(n, 0));
    == { assert PointString(n, 0) == m + []; }
      ParseFloat(m + []);
    == { ParseFloatOfDigits(m, []); }
      Some(DigitsValue(m) as real);
    ==
      Some(Scaled(n, 0));
    }
  }

  lemma ParseFloatOfFraction(n: nat, f: nat)
    requires f > 0
    ensures ParseFloat(PointString(n, f)) == Some(Scaled(n, f))
  {
    var a, b := PointStringParts(n, f);
    calc {
      ParseFloat(PointString(n, f));
    ==
      ParseFloat(a + "." + b);
    == { ParseFloatOfDecimal(a, b); }
      Some(DecimalValue(a, b));
    == { DecimalValueAsFraction(a, b); }
      Some(Scaled(DigitsValue(a + b), |b|));
    ==
      Some(Scaled(n, f));
    }
  }

  /** For f > 0 the layout is `a.b` with exactly f digits after the point, and the digits
      `a` and `b` together spell n. */
  lemma PointStringParts(n: nat, f: nat) returns (a: string, b: string)
    requires f > 0
    ensures a != [] && AllDigits(a) && AllDigits(b) && |b| == f
    ensures PointString(n, f) == a + "." + b
    ensures AllDigits(a + b) && DigitsValue(a + b) == n
  {
    var padded := PaddedDigits(n, f);
    a, b := SplitDigits(padded, f);
  }

  /** The digits of `n` padded with zeros to more than f of them; PointString puts the
      point before the last f. */
  lemma PaddedDigits(n: nat, f: nat) returns (padded: string)
    requires f > 0
    ensures AllDigits(padded) && DigitsValue(padded) == n && |padded| > f
    ensures PointString(n, f) == padded[..|padded| - f] + "." + padded[|padded| - f..]
  {
    if |NatToString(n)| <= f {
      padded := PaddedShort(n, f);
    } else {
      padded := NatToString(n);
    }
  }

  /** Fewer digits than f + 1: zeros go in front, which leaves the value alone. */
  lemma PaddedShort(n: nat, f: nat) returns (padded: string)
    requires f > 0 && |NatToString(n)| <= f
    ensures AllDigits(padded) && DigitsValue(padded) == n && |padded| > f
    ensures PointString(n, f) == padded[..|padded| - f] + "." + padded[|padded| - f..]
  {
    var m := NatToString(n);
    padded := Zeros(f + 1 - |m|) + m;
    PaddedValue(f + 1 - |m|, m, n);
  }

  lemma PaddedValue(k: nat, m: string, n: nat)
    requires AllDigits(m) && DigitsValue(m) == n
    ensures AllDigits(Zeros(k) + m) && DigitsValue(Zeros(k) + m) == n && |Zeros(k) + m| == k + |m|
  {
    ZerosValue(k, m);
  }

  lemma SplitDigits(s: string, k: nat) returns (a: string, b: string)
    requires AllDigits(s) && k < |s|
    ensures a == s[..|s| - k] && b == s[|s| - k..] && a + b == s
    ensures a != [] && AllDigits(a) && AllDigits(b) && |b| == k
  {
    a, b := s[..|s| - k], s[|s| - k..];
    assert a + b == s;
  }

  lemma PointStringStart(n: nat, f: nat)
    ensures PointString(n, f) != [] && IsDigit(PointString(n, f)[0])
  {
    var m := NatToString(n);
    if f != 0 && |m| <= f {
      assert (Zeros(f + 1 - |m|) + m)[0] == Zeros(f + 1 - |m|)[0];
    }
  }

  /** `parseFloat(x.toFixed(f))` is `x` rounded to `f` decimals. */
  lemma ParseFloatOfToFixed(x: real, f: nat)
    ensures ParseFloat(ToFixed(x, f)) == Some(RoundFixed(x, f))
  {
    if x < 0.0 {
      NegativeToFixed(x, f);
    } else {
      ParseFloatOfPointString(FixedScaled(x, f), f);
    }
  }

  lemma NegativeToFixed(x: real, f: nat)
    requires x < 0.0
    ensures ParseFloat(ToFixed(x, f)) == Some(RoundFixed(x, f))
  {
    NegativeParts(x, f);
  }

  /** For negative `x`, the text toFixed writes and the value it denotes, both in terms
      of the integer chosen for the magnitude. */
  lemma NegativeParts(x: real, f: nat)
    requires x < 0.0
    ensures var n := FixedScaled(-x, f);
      && ToFixed(x, f) == "-" + PointString(n, f)
      && RoundFixed(x, f) == -Scaled(n, f)
      && ParseFloat("-" + PointString(n, f)) == Some(-Scaled(n, f))
  {
    NegativePointString(FixedScaled(-x, f), f);
  }

  /** A minus sign in front of the layout of n / 10^f parses to -(n / 10^f). */
  lemma NegativePointString(n: nat, f: nat)
    ensures ParseFloat("-" + PointString(n, f)) == Some(-Scaled(n, f))
  {
    ParseFloatOfPointString(n, f);
    PointStringStart(n, f);
    ParseFloatOfNegated(PointString(n, f), Scaled(n, f));
  }

  lemma ParseFloatOfNegated(d: string, v: real)
    requires d != [] && IsDigit(d[0]) && ParseFloat(d) == Some(v)
    ensures ParseFloat("-" + d) == Some(-v)
  {
    calc {
      ParseFloat("-" + d);
    == { FloatOfMinusStart(d); }
      Negated(ParseUnsigned(d));
    == { FloatOfDigitStart(d); }
      Negated(ParseFloat(d));
    ==
      Negated(Some(v));
    ==
      Some(-v);
    }
  }

  /** Text that starts with a digit is read with no sign. */
  lemma FloatOfDigitStart(s: string)
    requires s != [] && IsDigit(s[0])
    ensures ParseFloat(s) == ParseUnsigned(s)
  {
    TrimStartOfNonWhiteSpace(s);
  }

  /** Text that starts with a minus sign is read as the negated number after it. */
  lemma FloatOfMinusStart(d: string)
    ensures ParseFloat("-" + d) == Negated(ParseUnsigned(d))
  {
    var t := "-" + d;
    assert t[0] == '-' && t[1..] == d;
    TrimStartOfNonWhiteSpace(t);
  }

  function Negated(o: Option<real>): Option<real> {
    match o
    case Some(v) => Some(-v)
    case None => None
  }

  /** toFixed rounds to the nearest multiple of 10^-f: scaled by 10^f, the rounded value
      is within one half of the scaled input. */
  lemma RoundFixedIsNearest(x: real, f: nat)
    ensures WithinHalf(RoundFixed(x, f) * Pow10(f) as real, x * Pow10(f) as real)
  {
    if x < 0.0 {
      NearestNegative(x, f);
    } else {
      NearestNonNegative(x, f);
    }
  }

  lemma NearestNegative(x: real, f: nat)
    requires x < 0.0
    ensures WithinHalf(RoundFixed(x, f) * Pow10(f) as real, x * Pow10(f) as real)
  {
    ScaledBack(FixedScaled(-x, f), f);
    FixedScaledIsNearest(-x, f);
    NegMul(x, Pow10(f) as real);
  }

  lemma NearestNonNegative(x: real, f: nat)
    requires x >= 0.0
    ensures WithinHalf(RoundFixed(x, f) * Pow10(f) as real, x * Pow10(f) as real)
  {
    ScaledBack(FixedScaled(x, f), f);
    FixedScaledIsNearest(x, f);
  }

  /** Scaling back by 10^f undoes `Scaled`. */
  lemma ScaledBack(n: nat, f: nat)
    ensures Scaled(n, f) * Pow10(f) as real == n as real
    ensures (-Scaled(n, f)) * Pow10(f) as real == -(n as real)
  {
    DivMul(n as real, Pow10(f) as real);
  }

  lemma NegMul(x: real, p: real)
    ensures (-x) * p == -(x * p)
  {
  }

  /** `a` lies within one half of `b`. */
  predicate WithinHalf(a: real, b: real) {
    b - 0.5 <= a <= b + 0.5
  }

  lemma DivMul(n: real, p: real)
    requires p > 0.0
    ensures (n / p) * p == n && (-(n / p)) * p == -n
  {
  }

  /** Rounding to `f` decimals never leaves an integer bound: a value within [-m, m]
      rounds to a value within [-m, m]. */
  lemma RoundFixedWithin(x: real, f: nat, m: nat)
    requires -(m as real) <= x <= m as real
    ensures -(m as real) <= RoundFixed(x, f) <= m as real
  {
    var y := if x < 0.0 then -x else x;
    FixedScaledWithin(y, f, m);
    ScaledWithin(FixedScaled(y, f), f, m);
  }

  lemma FixedScaledWithin(y: real, f: nat, m: nat)
    requires 0.0 <= y <= m as real
    ensures FixedScaled(y, f) <= m * Pow10(f)
  {
    var p := Pow10(f);
    FixedScaledIsNearest(y, f);
    CastStep(m, 0, p);
    MulBelow(y, m as real, p as real);
  }

  lemma MulBelow(a: real, b: real, c: real)
    requires a <= b && c >= 0.0
    ensures a * c <= b * c
  {
  }

  lemma ScaledWithin(n: nat, f: nat, m: nat)
    requires n <= m * Pow10(f)
    ensures Scaled(n, f) <= m as real
  {
    var p := Pow10(f);
    CastStep(m, 0, p);
    assert n as real / p as real <= (m * p) as real / p as real;
  }

  /** Text without any digit is NaN. */
  lemma ParseFloatWithoutDigit(s: string)
    requires forall i :: 0 <= i < |s| ==> !IsDigit(s[i])
    ensures ParseFloat(s) == None
  {
    var t := TrimStart(s);
    var k := TrimStartSplit(s);
    assert forall i :: 0 <= i < |t| ==> t[i] == s[k + i];
    var body := if t != [] && (t[0] == '-' || t[0] == '+') then t[1..] else t;
    assert body == [] || body[0] == t[|t| - |body|];
    var ip := LeadingDigits(body);
    assert ip == [];
    var rest := body[|ip|..];
    if rest != [] && rest[0] == '.' {
      assert rest[1..] == [] || rest[1..][0] == t[|t| - |body| + 1];
    }
  }
}
