/** String helpers with ECMAScript meaning: the whitespace class shared by `trim()`,
    the regular-expression escape `\s` and `parseFloat`, decimal digits, and the decimal
    rendering of integers used in template strings. */
module Strings {

  /** ECMAScript WhiteSpace and LineTerminator code points (what `\s` and `trim()` match). */
  predicate IsWhiteSpace(c: char) {
    c == '\t' || c == '\n' || c == '\U{000B}' || c == '\U{000C}' || c == '\r' || c == ' ' ||
    c == '\U{00A0}' || c == '\U{1680}' || ('\U{2000}' <= c <= '\U{200A}') ||
    c == '\U{2028}' || c == '\U{2029}' || c == '\U{202F}' || c == '\U{205F}' ||
    c == '\U{3000}' || c == '\U{FEFF}'
  }

  predicate AllWhiteSpace(s: string) {
    forall i :: 0 <= i < |s| ==> IsWhiteSpace(s[i])
  }

  predicate NoWhiteSpace(s: string) {
    forall i :: 0 <= i < |s| ==> !IsWhiteSpace(s[i])
  }

  /** `String.prototype.trimStart`: a suffix of `s` that starts with a non-whitespace
      character, everything cut off being whitespace. */
  function TrimStart(s: string): (r: string)
    ensures |r| <= |s|
    ensures r == [] || !IsWhiteSpace(r[0])
  {
    if s != [] && IsWhiteSpace(s[0]) then TrimStart(s[1..]) else s
  }

  /** `String.prototype.trimEnd`. */
  function TrimEnd(s: string): (r: string)
    ensures |r| <= |s| && r == s[..|r|]
    ensures AllWhiteSpace(s[|r|..])
    ensures r == [] || !IsWhiteSpace(r[|r| - 1])
  {
    if s != [] && IsWhiteSpace(s[|s| - 1]) then TrimEnd(s[..|s| - 1]) else s
  }

  /** `String.prototype.trim`. */
  function Trim(s: string): (r: string)
    ensures r == [] || (!IsWhiteSpace(r[0]) && !IsWhiteSpace(r[|r| - 1]))
    ensures |r| <= |s|
  {
    TrimEnd(TrimStart(s))
  }

  lemma {:induction false} TrimStartOfWhiteSpace(w: string, s: string)
    requires AllWhiteSpace(w)
    ensures TrimStart(w + s) == TrimStart(s)
  {
    if w != [] {
      assert (w + s)[0] == w[0] && IsWhiteSpace(w[0]);
      assert (w + s)[1..] == w[1..] + s;
      assert AllWhiteSpace(w[1..]) by {
        forall i | 0 <= i < |w| - 1 ensures IsWhiteSpace(w[1..][i]) { assert w[1..][i] == w[i + 1]; }
      }
      TrimStartOfWhiteSpace(w[1..], s);
    } else {
      assert w + s == s;
    }
  }

  lemma {:induction false} TrimEndOfWhiteSpace(s: string, w: string)
    requires AllWhiteSpace(w)
    ensures TrimEnd(s + w) == TrimEnd(s)
  {
    if w != [] {
      assert (s + w)[..|s + w| - 1] == s + w[..|w| - 1];
      TrimEndOfWhiteSpace(s, w[..|w| - 1]);
    } else {
      assert s + w == s;
    }
  }

  /** Trimming removes exactly the surrounding whitespace and nothing else. */
  lemma TrimSurrounded(w1: string, s: string, w2: string)
    requires AllWhiteSpace(w1) && AllWhiteSpace(w2)
    requires s == [] || (!IsWhiteSpace(s[0]) && !IsWhiteSpace(s[|s| - 1]))
    ensures Trim(w1 + s + w2) == s
  {
    if s == [] {
      assert w1 + s + w2 == (w1 + w2) + [];
      assert AllWhiteSpace(w1 + w2) by {
        forall i | 0 <= i < |w1 + w2| ensures IsWhiteSpace((w1 + w2)[i]) {
          if i >= |w1| { assert (w1 + w2)[i] == w2[i - |w1|]; }
        }
      }
      TrimStartOfWhiteSpace(w1 + w2, []);
    } else {
      assert w1 + s + w2 == w1 + (s + w2);
      TrimStartOfWhiteSpace(w1, s + w2);
      assert (s + w2)[0] == s[0];
      TrimEndOfWhiteSpace(s, w2);
    }
  }

  lemma {:induction false} TrimOfWhiteSpace(w: string)
    requires AllWhiteSpace(w)
    ensures Trim(w) == []
  {
    TrimStartOfWhiteSpace(w, []);
    assert w + [] == w;
  }

  predicate IsDigit(c: char) {
    '0' <= c <= '9'
  }

  function DigitValue(c: char): (d: nat)
    requires IsDigit(c)
    ensures d < 10
  {
    (c as int) - ('0' as int)
  }

  function DigitChar(d: nat): (c: char)
    requires d < 10
    ensures IsDigit(c) && DigitValue(c) == d
  {
    (('0' as int) + d) as char
  }

  predicate AllDigits(s: string) {
    forall i :: 0 <= i < |s| ==> IsDigit(s[i])
  }

  /** The value of a string of decimal digits, most significant first. */
  function DigitsValue(s: string): nat
    requires AllDigits(s)
  {
    if s == [] then 0 else 10 * DigitsValue(s[..|s| - 1]) + DigitValue(s[|s| - 1])
  }

  /** Appending a digit multiplies the value by ten and adds the digit. */
  lemma DigitsValueSnoc(s: string, c: char)
    requires AllDigits(s) && IsDigit(c)
    ensures AllDigits(s + [c]) && DigitsValue(s + [c]) == 10 * DigitsValue(s) + DigitValue(c)
  {
    assert (s + [c])[..|s|] == s;
  }

  /** The shortest decimal rendering of a natural number, as `String(n)` gives it. */
  function NatToString(n: nat): (r: string)
    ensures r != [] && AllDigits(r) && DigitsValue(r) == n
    ensures |r| > 1 ==> r[0] != '0'
  {
    if n < 10 then [DigitChar(n)]
    else
      var r := NatToString(n / 10) + [DigitChar(n % 10)];
      assert r[..|r| - 1] == NatToString(n / 10);
      r
  }

  /** `String(i)` for an integer-valued number. */
  function IntToString(i: int): (r: string)
    ensures r != []
  {
    if i < 0 then "-" + NatToString(-i) else NatToString(i)
  }

  /** What `TrimStart` cuts off is whitespace and what it keeps is the rest of `s`. */
  lemma {:induction false} TrimStartSplit(s: string) returns (k: nat)
    ensures k <= |s| && TrimStart(s) == s[k..] && AllWhiteSpace(s[..k])
  {
    if s != [] && IsWhiteSpace(s[0]) {
      var k' := TrimStartSplit(s[1..]);
      k := k' + 1;
      assert s[1..][k'..] == s[k..];
      assert forall i :: 1 <= i < k ==> s[i] == s[1..][..k'][i - 1];
    } else {
      k := 0;
    }
  }

  /** What `TrimEnd` cuts off is whitespace and what it keeps is the start of `s`. */
  lemma {:induction false} TrimEndSplit(s: string)
    ensures TrimEnd(s) == s[..|TrimEnd(s)|] && AllWhiteSpace(s[|TrimEnd(s)|..])
  {
    if s != [] && IsWhiteSpace(s[|s| - 1]) {
      var s' := s[..|s| - 1];
      TrimEndSplit(s');
      var k := |TrimEnd(s')|;
      assert s'[..k] == s[..k];
      assert forall i :: k <= i < |s| - 1 ==> s[i] == s'[k..][i - k];
    }
  }

  /** Trimming the start of a string that is not blank leaves its tail alone. */
  lemma {:induction false} TrimStartOfNonBlank(a: string, z: string)
    requires !AllWhiteSpace(a)
    ensures TrimStart(a + z) == TrimStart(a) + z
  {
    assert a != [];
    assert (a + z)[0] == a[0] && (a + z)[1..] == a[1..] + z;
    if IsWhiteSpace(a[0]) {
      AllWhiteSpaceCons(a);
      TrimStartOfNonBlank(a[1..], z);
    }
  }

  /** Trimming the end of a string that ends in something that is not blank leaves its
      head alone. */
  lemma {:induction false} TrimEndOfNonBlank(z: string, b: string)
    requires !AllWhiteSpace(b)
    ensures TrimEnd(z + b) == z + TrimEnd(b)
  {
    assert b != [];
    var b' := b[..|b| - 1];
    assert (z + b)[|z + b| - 1] == b[|b| - 1] && (z + b)[..|z + b| - 1] == z + b';
    if IsWhiteSpace(b[|b| - 1]) {
      assert forall i :: 0 <= i < |b| - 1 ==> b[i] == b'[i];
      TrimEndOfNonBlank(z, b');
    }
  }

  lemma TrimStartOfNonWhiteSpace(s: string)
    requires s != [] && !IsWhiteSpace(s[0])
    ensures TrimStart(s) == s
  {
  }

  lemma TrimEndOfNonWhiteSpace(s: string)
    requires s != [] && !IsWhiteSpace(s[|s| - 1])
    ensures TrimEnd(s) == s
  {
  }

  /** The number of characters of `s` that satisfy `p`. */
  function CountOf(s: string, p: char -> bool): nat {
    if s == [] then 0 else (if p(s[0]) then 1 else 0) + CountOf(s[1..], p)
  }

  lemma {:induction false} CountOfAppend(a: string, b: string, p: char -> bool)
    ensures CountOf(a + b, p) == CountOf(a, p) + CountOf(b, p)
  {
    if a == [] {
      assert a + b == b;
    } else {
      assert (a + b)[0] == a[0] && (a + b)[1..] == a[1..] + b;
      CountOfAppend(a[1..], b, p);
    }
  }

  lemma {:induction false} CountOfZero(s: string, p: char -> bool)
    ensures CountOf(s, p) == 0 <==> forall i :: 0 <= i < |s| ==> !p(s[i])
  {
    if s != [] {
      CountOfZero(s[1..], p);
      assert forall i :: 1 <= i < |s| ==> s[i] == s[1..][i - 1];
    }
  }

  /** Whitespace does not count when `p` never holds of whitespace. */
  lemma CountOfWhiteSpace(w: string, p: char -> bool)
    requires AllWhiteSpace(w)
    requires forall c :: p(c) ==> !IsWhiteSpace(c)
    ensures CountOf(w, p) == 0
  {
    CountOfZero(w, p);
  }

  /** Trimming removes no character that `p` counts, when `p` never holds of whitespace. */
  lemma CountOfTrim(s: string, p: char -> bool)
    requires forall c :: p(c) ==> !IsWhiteSpace(c)
    ensures CountOf(TrimStart(s), p) == CountOf(s, p)
    ensures CountOf(TrimEnd(s), p) == CountOf(s, p)
    ensures CountOf(Trim(s), p) == CountOf(s, p)
  {
    CountOfTrimStart(s, p);
    CountOfTrimEnd(s, p);
    CountOfTrimEnd(TrimStart(s), p);
  }

  lemma CountOfTrimStart(z: string, p: char -> bool)
    requires forall c :: p(c) ==> !IsWhiteSpace(c)
    ensures CountOf(TrimStart(z), p) == CountOf(z, p)
  {
    var k := TrimStartSplit(z);
    CountOfWhiteSpace(z[..k], p);
    CountOfAppend(z[..k], z[k..], p);
    assert z == z[..k] + z[k..];
  }

  lemma CountOfTrimEnd(z: string, p: char -> bool)
    requires forall c :: p(c) ==> !IsWhiteSpace(c)
    ensures CountOf(TrimEnd(z), p) == CountOf(z, p)
  {
    TrimEndSplit(z);
    var k := |TrimEnd(z)|;
    CountOfWhiteSpace(z[k..], p);
    CountOfAppend(z[..k], z[k..], p);
    assert z == z[..k] + z[k..];
  }

  /** Trimming the start stops at the first character that is not whitespace. */
  lemma TrimStartBefore(a: string, z: string)
    requires z != [] && !IsWhiteSpace(z[0])
    ensures TrimStart(a + z) == TrimStart(a) + z
  {
    if AllWhiteSpace(a) {
      TrimStartOfWhiteSpace(a, z);
      TrimStartOfWhiteSpace(a, []);
      assert a + [] == a;
    } else {
      TrimStartOfNonBlank(a, z);
    }
  }

  /** Trimming the end stops at the last character that is not whitespace. */
  lemma TrimEndAfter(z: string, b: string)
    requires z != [] && !IsWhiteSpace(z[|z| - 1])
    ensures TrimEnd(z + b) == z + TrimEnd(b)
  {
    if AllWhiteSpace(b) {
      TrimEndOfWhiteSpace(z, b);
      TrimEndOfWhiteSpace([], b);
      assert [] + b == b;
    } else {
      TrimEndOfNonBlank(z, b);
    }
  }

  /** Trimming the end of a string that is not blank keeps its first character. */
  lemma TrimEndFirst(x: string)
    requires !AllWhiteSpace(x)
    ensures x != [] && TrimEnd(x) == [x[0]] + TrimEnd(x[1..])
  {
    assert x != [];
    assert [x[0]] + x[1..] == x;
    AllWhiteSpaceCons(x);
    if AllWhiteSpace(x[1..]) {
      TrimEndAfter([x[0]], x[1..]);
    } else {
      TrimEndOfNonBlank([x[0]], x[1..]);
    }
  }

  lemma AllWhiteSpaceCons(x: string)
    requires x != []
    ensures AllWhiteSpace(x) <==> IsWhiteSpace(x[0]) && AllWhiteSpace(x[1..])
  {
    assert forall i :: 1 <= i < |x| ==> x[i] == x[1..][i - 1];
  }

  /** Trimming leaves nothing exactly when everything is whitespace. */
  lemma {:induction false} TrimStartEmpty(x: string)
    ensures TrimStart(x) == [] <==> AllWhiteSpace(x)
  {
    if x != [] {
      TrimStartEmpty(x[1..]);
      AllWhiteSpaceCons(x);
    }
  }

  /** The characters of `s` that are not whitespace, in order. */
  function NonWhiteSpaceOf(s: string): (r: string)
    ensures |r| <= |s|
  {
    if s == [] then [] else (if IsWhiteSpace(s[0]) then [] else [s[0]]) + NonWhiteSpaceOf(s[1..])
  }

  lemma {:induction false} NonWhiteSpaceOfAppend(a: string, b: string)
    ensures NonWhiteSpaceOf(a + b) == NonWhiteSpaceOf(a) + NonWhiteSpaceOf(b)
  {
    if a == [] {
      assert a + b == b;
    } else {
      assert (a + b)[0] == a[0] && (a + b)[1..] == a[1..] + b;
      NonWhiteSpaceOfAppend(a[1..], b);
    }
  }

  lemma {:induction false} NonWhiteSpaceOfBlank(w: string)
    requires AllWhiteSpace(w)
    ensures NonWhiteSpaceOf(w) == []
  {
    if w != [] {
      AllWhiteSpaceCons(w);
      NonWhiteSpaceOfBlank(w[1..]);
    }
  }

  /** Trimming removes whitespace only. */
  lemma NonWhiteSpaceOfTrim(s: string)
    ensures NonWhiteSpaceOf(TrimStart(s)) == NonWhiteSpaceOf(s)
    ensures NonWhiteSpaceOf(Trim(s)) == NonWhiteSpaceOf(s)
  {
    NonWhiteSpaceOfTrimStart(s);
    NonWhiteSpaceOfTrimEnd(TrimStart(s));
  }

  lemma NonWhiteSpaceOfTrimStart(s: string)
    ensures NonWhiteSpaceOf(TrimStart(s)) == NonWhiteSpaceOf(s)
  {
    var k := TrimStartSplit(s);
    NonWhiteSpaceAfterBlank(s[..k], s[k..]);
    assert s == s[..k] + s[k..];
  }

  lemma NonWhiteSpaceOfTrimEnd(t: string)
    ensures NonWhiteSpaceOf(TrimEnd(t)) == NonWhiteSpaceOf(t)
  {
    TrimEndSplit(t);
    var e := |TrimEnd(t)|;
    NonWhiteSpaceBeforeBlank(t[..e], t[e..]);
    assert t == t[..e] + t[e..];
  }

  lemma NonWhiteSpaceAfterBlank(w: string, a: string)
    requires AllWhiteSpace(w)
    ensures NonWhiteSpaceOf(w + a) == NonWhiteSpaceOf(a)
  {
    NonWhiteSpaceOfAppend(w, a);
    NonWhiteSpaceOfBlank(w);
  }

  lemma NonWhiteSpaceBeforeBlank(a: string, w: string)
    requires AllWhiteSpace(w)
    ensures NonWhiteSpaceOf(a + w) == NonWhiteSpaceOf(a)
  {
    NonWhiteSpaceOfAppend(a, w);
    NonWhiteSpaceOfBlank(w);
    assert NonWhiteSpaceOf(a) + [] == NonWhiteSpaceOf(a);
  }
}
