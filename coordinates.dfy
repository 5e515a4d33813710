/** `Coordinates.parseCoordinates`: free text such as "51.5, -0.1", "51.5,-0.1" or
    "[51.5, -0.1]" becomes a latitude/longitude pair, or is rejected with one of five
    fixed messages. */
module Coordinates {
  import opened Wrappers
  import opened JsValues
  import opened Strings
  import opened JsNumbers

  datatype Coordinate = Coordinate(latitude: real, longitude: real)

  /** The five ways the parser rejects its input, in the order they are checked. */
  datatype CoordError =
    | EmptyInput
    | WrongSegmentCount
    | NotANumber
    | LatitudeOutOfRange
    | LongitudeOutOfRange

  /** The message of the `Error` the parser throws for each kind. */
  function Message(e: CoordError): string {
    match e
    case EmptyInput => "Введите координаты"
    case WrongSegmentCount => "Координаты должны содержать широту и долготу, разделенные запятой"
    case NotANumber => "Широта и долгота должны быть числами"
    case LatitudeOutOfRange => "Широта должна быть в диапазоне от -90 до 90"
    case LongitudeOutOfRange => "Долгота должна быть в диапазоне от -180 до 180"
  }

  /** Each kind has its own message, so the message alone tells which check failed. */
  lemma MessagesDistinct(e1: CoordError, e2: CoordError)
    requires e1 != e2
    ensures Message(e1) != Message(e2)
  {
  }

  /** Replacing every match of the global pattern `\s*,\s*` by a comma: scanning from the left, a whitespace run that ends in a
      comma, the comma and the whitespace run after it become a single comma; where no
      match starts, the character is kept and the scan moves on by one. */
  function CollapseCommaSpace(s: string): string
    decreases |s|
  {
    if s == [] then []
    else
      var t := TrimStart(s);
      if t != [] && t[0] == ',' then [','] + CollapseCommaSpace(TrimStart(t[1..]))
      else [s[0]] + CollapseCommaSpace(s[1..])
  }

  /** `.replace(/[\[\]]/g, '')` */
  function StripBrackets(s: string): string {
    if s == [] then []
    else (if s[0] == '[' || s[0] == ']' then [] else [s[0]]) + StripBrackets(s[1..])
  }

  /** The three normalisation steps, in the order the source applies them. */
  function Clean(s: string): string {
    Trim(StripBrackets(CollapseCommaSpace(s)))
  }

  /** `s.split(',')`: the pieces between commas; a string without a comma is one piece. */
  function Split(s: string): (parts: seq<string>)
    ensures |parts| >= 1
  {
    if s == [] then [[]]
    else
      var rest := Split(s[1..]);
      if s[0] == ',' then [[]] + rest else [[s[0]] + rest[0]] + rest[1..]
  }

  /** The checks made once the input has been split into two parts. */
  function ParsePair(latText: string, lonText: string): Result<Coordinate, CoordError> {
    var latitude := ParseFloat(latText);
    var longitude := ParseFloat(lonText);
    if latitude.None? || longitude.None? then Err(NotANumber)
    else if latitude.value < -90.0 || latitude.value > 90.0 then Err(LatitudeOutOfRange)
    else if longitude.value < -180.0 || longitude.value > 180.0 then Err(LongitudeOutOfRange)
    else Ok(Coordinate(latitude.value, longitude.value))
  }

  /** `Coordinates.parseCoordinates(input)`; a thrown error is `Err` of its kind. */
  function ParseCoordinates(input: Value): (r: Result<Coordinate, CoordError>)
    ensures r.Ok? ==> -90.0 <= r.value.latitude <= 90.0 && -180.0 <= r.value.longitude <= 180.0
    ensures r != Err(EmptyInput) <==> input.Str? && input.s != ""
  {
    if !Truthy(input) || !input.Str? then Err(EmptyInput)
    else
      var parts := Split(Clean(input.s));
      if |parts| != 2 then Err(WrongSegmentCount)
      else ParsePair(parts[0], parts[1])
  }

  predicate IsComma(c: char) {
    c == ','
  }

  predicate IsBracket(c: char) {
    c == '[' || c == ']'
  }

  function CommaCount(s: string): nat {
    CountOf(s, IsComma)
  }

  /** What is left of the text before the comma once the source's normalisation has run:
      whitespace before the comma goes with it, then brackets, then the leading blanks. */
  function LeftPart(x: string): string {
    TrimStart(StripBrackets(TrimEnd(x)))
  }

  /** What is left of the text after the comma. */
  function RightPart(y: string): string {
    TrimEnd(StripBrackets(TrimStart(y)))
  }

  lemma {:induction false} StripBracketsAppend(a: string, b: string)
    ensures StripBrackets(a + b) == StripBrackets(a) + StripBrackets(b)
  {
    if a == [] {
      assert a + b == b;
    } else {
      assert (a + b)[0] == a[0] && (a + b)[1..] == a[1..] + b;
      StripBracketsAppend(a[1..], b);
    }
  }

  /** Removing brackets keeps every other character, in order. */
  lemma {:induction false} StripBracketsCount(s: string, p: char -> bool)
    requires forall c :: p(c) ==> !IsBracket(c)
    ensures CountOf(StripBrackets(s), p) == CountOf(s, p)
  {
    if s != [] {
      StripBracketsCount(s[1..], p);
      var head := if s[0] == '[' || s[0] == ']' then [] else [s[0]];
      CountOfAppend(head, StripBrackets(s[1..]), p);
    }
  }

  lemma {:induction false} StripBracketsOfPlain(s: string)
    requires forall i :: 0 <= i < |s| ==> !IsBracket(s[i])
    ensures StripBrackets(s) == s
  {
    if s != [] {
      StripBracketsOfPlain(s[1..]);
    }
  }

  lemma {:induction false} StripBracketsOfBrackets(s: string)
    requires forall i :: 0 <= i < |s| ==> IsBracket(s[i])
    ensures StripBrackets(s) == []
  {
    if s != [] {
      StripBracketsOfBrackets(s[1..]);
    }
  }

  lemma CommaCountTrim(s: string)
    ensures CommaCount(TrimStart(s)) == CommaCount(s)
    ensures CommaCount(TrimEnd(s)) == CommaCount(s)
    ensures CommaCount(Trim(s)) == CommaCount(s)
  {
    CountOfTrim(s, IsComma);
  }

  /** Text without a comma is left as it is. */
  lemma {:induction false} CollapseWithoutComma(x: string)
    requires CommaCount(x) == 0
    ensures CollapseCommaSpace(x) == x
  {
    if x != [] {
      var t := TrimStart(x);
      var k := TrimStartSplit(x);
      CountOfZero(x, IsComma);
      assert t == [] || t[0] == x[k];
      CountOfAppend([x[0]], x[1..], IsComma);
      assert [x[0]] + x[1..] == x;
      CollapseWithoutComma(x[1..]);
    }
  }

  /** Around a single comma, the whitespace on both sides disappears and the rest of the
      text is untouched. */
  lemma {:induction false} CollapseAroundComma(x: string, y: string)
    requires CommaCount(x) == 0 && CommaCount(y) == 0
    ensures CollapseCommaSpace(x + "," + y) == TrimEnd(x) + "," + TrimStart(y)
  {
    if AllWhiteSpace(x) {
      CollapseAfterBlank(x, y);
    } else {
      CommaFreeTail(x);
      CollapseAroundComma(x[1..], y);
      CollapseAroundStep(x, y);
    }
  }

  lemma CommaFreeTail(x: string)
    requires x != [] && CommaCount(x) == 0
    ensures CommaCount(x[1..]) == 0
  {
    CountOfAppend([x[0]], x[1..], IsComma);
    assert [x[0]] + x[1..] == x;
  }

  /** The inductive step of `CollapseAroundComma`: a kept first character stays in front. */
  lemma CollapseAroundStep(x: string, y: string)
    requires !AllWhiteSpace(x) && CommaCount(x) == 0
    requires x != [] && CollapseCommaSpace(x[1..] + "," + y) == TrimEnd(x[1..]) + "," + TrimStart(y)
    ensures CollapseCommaSpace(x + "," + y) == TrimEnd(x) + "," + TrimStart(y)
  {
    CollapseStep(x, y);
    TrimEndFirst(x);
    JoinAfterHead(CollapseCommaSpace(x + "," + y), x[0], CollapseCommaSpace(x[1..] + "," + y),
      TrimEnd(x[1..]), TrimStart(y), TrimEnd(x));
  }

  lemma JoinAfterHead(l: string, c: char, m: string, z: string, u: string, t: string)
    requires l == [c] + m && m == z + "," + u && t == [c] + z
    ensures l == t + "," + u
  {
    assert [c] + (z + "," + u) == ([c] + z) + "," + u;
  }

  /** A blank run right before the comma is swallowed with it. */
  lemma CollapseAfterBlank(x: string, y: string)
    requires AllWhiteSpace(x) && CommaCount(y) == 0
    ensures CollapseCommaSpace(x + "," + y) == TrimEnd(x) + "," + TrimStart(y)
  {
    calc {
      CollapseCommaSpace(x + "," + y);
    == { BlankThenComma(x, y); CollapseAtComma(x + "," + y, y); }
      [','] + CollapseCommaSpace(TrimStart(y));
    == { CommaCountTrim(y); CollapseWithoutComma(TrimStart(y)); }
      [','] + TrimStart(y);
    == { BlankTrimEnd(x); }
      TrimEnd(x) + "," + TrimStart(y);
    }
  }

  lemma BlankThenComma(x: string, y: string)
    requires AllWhiteSpace(x)
    ensures TrimStart(x + "," + y) == "," + y
  {
    assert x + "," + y == x + ("," + y);
    TrimStartOfWhiteSpace(x, "," + y);
    TrimStartOfNonWhiteSpace("," + y);
  }

  /** Where the scan meets a comma after optional whitespace, all of it becomes one comma
      and the whitespace after it is skipped. */
  lemma CollapseAtComma(s: string, u: string)
    requires TrimStart(s) == "," + u
    ensures CollapseCommaSpace(s) == [','] + CollapseCommaSpace(TrimStart(u))
  {
    assert ("," + u)[0] == ',' && ("," + u)[1..] == u;
  }

  lemma BlankTrimEnd(x: string)
    requires AllWhiteSpace(x)
    ensures TrimEnd(x) == []
  {
    TrimEndOfWhiteSpace([], x);
    assert [] + x == x;
  }

  /** Where the text before the comma is not blank, its first character is kept and the
      scan moves on by one. */
  lemma CollapseStep(x: string, y: string)
    requires !AllWhiteSpace(x) && CommaCount(x) == 0
    ensures x != [] && CollapseCommaSpace(x + "," + y) == [x[0]] + CollapseCommaSpace(x[1..] + "," + y)
  {
    var s := x + "," + y;
    assert s == x + ("," + y);
    TrimStartOfNonBlank(x, "," + y);
    var k := TrimStartSplit(x);
    TrimStartEmpty(x);
    CountOfZero(x, IsComma);
    assert TrimStart(s)[0] == x[k];
    assert s[0] == x[0] && s[1..] == x[1..] + "," + y;
  }

  lemma {:induction false} SplitWithoutComma(x: string)
    requires CommaCount(x) == 0
    ensures Split(x) == [x]
  {
    if x != [] {
      CountOfAppend([x[0]], x[1..], IsComma);
      assert [x[0]] + x[1..] == x;
      SplitWithoutComma(x[1..]);
    }
  }

  lemma {:induction false} SplitAtOnlyComma(x: string, y: string)
    requires CommaCount(x) == 0 && CommaCount(y) == 0
    ensures Split(x + "," + y) == [x, y]
  {
    if x == [] {
      assert x + "," + y == "," + y;
      assert ("," + y)[1..] == y;
      SplitWithoutComma(y);
    } else {
      var s := x + "," + y;
      assert s[0] == x[0] && s[1..] == x[1..] + "," + y;
      CountOfAppend([x[0]], x[1..], IsComma);
      assert [x[0]] + x[1..] == x;
      SplitAtOnlyComma(x[1..], y);
    }
  }

  /** `split(',')` gives one more part than there are commas. */
  lemma {:induction false} SplitLength(s: string)
    ensures |Split(s)| == CommaCount(s) + 1
  {
    if s != [] {
      SplitLength(s[1..]);
    }
  }

  /** Input with exactly one comma is two comma-free pieces joined by it. */
  lemma {:induction false} DivideAtComma(s: string) returns (x: string, y: string)
    requires CommaCount(s) == 1
    ensures CommaCount(x) == 0 && CommaCount(y) == 0 && s == x + "," + y
  {
    if s[0] == ',' {
      x, y := [], s[1..];
    } else {
      var x', y' := DivideAtComma(s[1..]);
      x, y := [s[0]] + x', y';
      CountOfAppend([s[0]], x', IsComma);
    }
  }

  /** Cleaning never adds or removes a comma. */
  lemma {:induction false} CollapseCommaCount(s: string)
    ensures CommaCount(CollapseCommaSpace(s)) == CommaCount(s)
    decreases |s|
  {
    if s != [] {
      var t := TrimStart(s);
      CommaCountTrim(s);
      if t != [] && t[0] == ',' {
        CommaCountTrim(t[1..]);
        CollapseCommaCount(TrimStart(t[1..]));
        CountOfAppend([','], CollapseCommaSpace(TrimStart(t[1..])), IsComma);
      } else {
        CollapseCommaCount(s[1..]);
        CountOfAppend([s[0]], CollapseCommaSpace(s[1..]), IsComma);
      }
    }
  }

  lemma CleanCommaCount(s: string)
    ensures CommaCount(Clean(s)) == CommaCount(s)
  {
    CollapseCommaCount(s);
    StripBracketsCount(CollapseCommaSpace(s), IsComma);
    CommaCountTrim(StripBrackets(CollapseCommaSpace(s)));
  }

  /** Input is split into the wrong number of parts exactly when it does not contain
      exactly one comma: zero commas, two or more, or only whitespace. */
  lemma ParseSegmentCount(s: string)
    requires s != ""
    ensures ParseCoordinates(Str(s)) == Err(WrongSegmentCount) <==> CommaCount(s) != 1
  {
    CleanCommaCount(s);
    SplitLength(Clean(s));
  }

  /** Whitespace-only input passes the emptiness guard and fails the segment count. */
  lemma ParseBlank(s: string)
    requires s != "" && AllWhiteSpace(s)
    ensures ParseCoordinates(Str(s)) == Err(WrongSegmentCount)
  {
    CountOfWhiteSpace(s, IsComma);
    ParseSegmentCount(s);
  }

  /** Cleaning acts on the two sides of the comma separately. */
  lemma ParseOneComma(x: string, y: string)
    requires CommaCount(x) == 0 && CommaCount(y) == 0
    ensures Clean(x + "," + y) == LeftPart(x) + "," + RightPart(y)
    ensures ParseCoordinates(Str(x + "," + y)) == ParsePair(LeftPart(x), RightPart(y))
  {
    CleanAroundComma(x, y);
    PartsCommaFree(x, y);
    SplitAtOnlyComma(LeftPart(x), RightPart(y));
  }

  lemma CleanAroundComma(x: string, y: string)
    requires CommaCount(x) == 0 && CommaCount(y) == 0
    ensures Clean(x + "," + y) == LeftPart(x) + "," + RightPart(y)
  {
    var a, b := StripBrackets(TrimEnd(x)), StripBrackets(TrimStart(y));
    calc {
      Clean(x + "," + y);
    ==
      Trim(StripBrackets(CollapseCommaSpace(x + "," + y)));
    == { CollapseAroundComma(x, y); }
      Trim(StripBrackets(TrimEnd(x) + "," + TrimStart(y)));
    == { StripAroundComma(TrimEnd(x), TrimStart(y)); }
      Trim(a + "," + b);
    == { TrimAroundComma(a, b); }
      TrimStart(a) + "," + TrimEnd(b);
    }
  }

  lemma StripAroundComma(u: string, v: string)
    ensures StripBrackets(u + "," + v) == StripBrackets(u) + "," + StripBrackets(v)
  {
    StripBracketsAppend(u + ",", v);
    StripBracketsAppend(u, ",");
    assert StripBrackets(",") == ",";
  }

  /** Trimming text with a comma inside trims its two ends only. */
  lemma TrimAroundComma(a: string, b: string)
    ensures Trim(a + "," + b) == TrimStart(a) + "," + TrimEnd(b)
  {
    assert a + "," + b == a + ("," + b);
    TrimStartBefore(a, "," + b);
    assert TrimStart(a) + ("," + b) == (TrimStart(a) + ",") + b;
    TrimEndAfter(TrimStart(a) + ",", b);
  }

  lemma PartsCommaFree(x: string, y: string)
    requires CommaCount(x) == 0 && CommaCount(y) == 0
    ensures CommaCount(LeftPart(x)) == 0 && CommaCount(RightPart(y)) == 0
  {
    CommaCountTrim(x);
    CommaCountTrim(y);
    StripBracketsCount(TrimEnd(x), IsComma);
    StripBracketsCount(TrimStart(y), IsComma);
    CommaCountTrim(StripBrackets(TrimEnd(x)));
    CommaCountTrim(StripBrackets(TrimStart(y)));
  }

  /** A side without any digit has no numeric prefix, so the pair is rejected as not
      numbers, whatever the other side holds. */
  lemma ParseWithoutDigits(x: string, y: string)
    requires CommaCount(x) == 0 && CommaCount(y) == 0
    requires CountOf(x, IsDigit) == 0 || CountOf(y, IsDigit) == 0
    ensures ParseCoordinates(Str(x + "," + y)) == Err(NotANumber)
  {
    ParseOneComma(x, y);
    SideDigits(x, y);
    if CountOf(x, IsDigit) == 0 {
      CountOfZero(LeftPart(x), IsDigit);
      ParseFloatWithoutDigit(LeftPart(x));
    } else {
      CountOfZero(RightPart(y), IsDigit);
      ParseFloatWithoutDigit(RightPart(y));
    }
  }

  /** Cleaning keeps every digit of each side. */
  lemma SideDigits(x: string, y: string)
    ensures CountOf(LeftPart(x), IsDigit) == CountOf(x, IsDigit)
    ensures CountOf(RightPart(y), IsDigit) == CountOf(y, IsDigit)
  {
    CountOfTrim(x, IsDigit);
    CountOfTrim(y, IsDigit);
    StripBracketsCount(TrimEnd(x), IsDigit);
    StripBracketsCount(TrimStart(y), IsDigit);
    CountOfTrim(StripBrackets(TrimEnd(x)), IsDigit);
    CountOfTrim(StripBrackets(TrimStart(y)), IsDigit);
  }

  /** Once both sides read as numbers, latitude is checked first: it is reported out of
      range whatever the longitude, longitude only when latitude is in range, and a pair
      that passes both checks is returned exactly as read. */
  lemma ParseRangeChecks(x: string, y: string, latitude: real, longitude: real)
    requires CommaCount(x) == 0 && CommaCount(y) == 0
    requires ParseFloat(LeftPart(x)) == Some(latitude) && ParseFloat(RightPart(y)) == Some(longitude)
    ensures var r := ParseCoordinates(Str(x + "," + y));
      && (r == Err(LatitudeOutOfRange) <==> latitude < -90.0 || latitude > 90.0)
      && (r == Err(LongitudeOutOfRange) <==>
            -90.0 <= latitude <= 90.0 && (longitude < -180.0 || longitude > 180.0))
      && (r.Ok? <==> -90.0 <= latitude <= 90.0 && -180.0 <= longitude <= 180.0)
      && (r.Ok? ==> r.value == Coordinate(latitude, longitude))
  {
    ParseOneComma(x, y);
  }

  /** One comma and a missing number on either side: rejected as not numbers. */
  lemma ParseNotNumbers(x: string, y: string)
    requires CommaCount(x) == 0 && CommaCount(y) == 0
    ensures ParseCoordinates(Str(x + "," + y)) == Err(NotANumber) <==>
      ParseFloat(LeftPart(x)).None? || ParseFloat(RightPart(y)).None?
  {
    ParseOneComma(x, y);
  }

  /** A bare numeral: no whitespace, comma or bracket inside. */
  predicate IsPlain(a: string) {
    a != [] && forall i :: 0 <= i < |a| ==> !IsWhiteSpace(a[i]) && !IsComma(a[i]) && !IsBracket(a[i])
  }

  predicate AllBrackets(s: string) {
    forall i :: 0 <= i < |s| ==> IsBracket(s[i])
  }

  lemma PlainCommaCount(a: string)
    requires IsPlain(a)
    ensures CommaCount(a) == 0
  {
    CountOfZero(a, IsComma);
  }

  lemma BlankCommaCount(w: string)
    requires AllWhiteSpace(w)
    ensures CommaCount(w) == 0
  {
    CountOfWhiteSpace(w, IsComma);
  }

  lemma BracketsCommaCount(o: string)
    requires AllBrackets(o)
    ensures CommaCount(o) == 0
  {
    CountOfZero(o, IsComma);
  }

  lemma BlankNoBrackets(w: string)
    requires AllWhiteSpace(w)
    ensures StripBrackets(w) == w
  {
    StripBracketsOfPlain(w);
  }

  /** The left side `w1 [ w2 a w3` is cleaned down to `a`. */
  lemma LeftPartOfNotation(w1: string, o: string, w2: string, a: string, w3: string)
    requires AllWhiteSpace(w1) && AllWhiteSpace(w2) && AllWhiteSpace(w3) && AllBrackets(o) && IsPlain(a)
    ensures LeftPart(w1 + o + w2 + a + w3) == a
  {
    TrimEndPast(w1 + o + w2, a, w3);
    StripLeft(w1, o, w2, a);
    BlankJoin(w1, w2);
    TrimStartOfWhiteSpace(w1 + w2, a);
    TrimStartOfNonWhiteSpace(a);
  }

  /** The right side `w4 b w5 ] w6` is cleaned down to `b`. */
  lemma RightPartOfNotation(w4: string, b: string, w5: string, c: string, w6: string)
    requires AllWhiteSpace(w4) && AllWhiteSpace(w5) && AllWhiteSpace(w6) && AllBrackets(c) && IsPlain(b)
    ensures RightPart(w4 + b + w5 + c + w6) == b
  {
    TrimStartPast(w4, b, w5, c, w6);
    StripRight(b, w5, c, w6);
    BlankJoin(w5, w6);
    TrimEndOfWhiteSpace(b, w5 + w6);
    TrimEndOfNonWhiteSpace(b);
  }

  /** Trailing whitespace after a numeral is trimmed away, and nothing else. */
  lemma TrimEndPast(z: string, a: string, w: string)
    requires AllWhiteSpace(w) && IsPlain(a)
    ensures TrimEnd(z + a + w) == z + a
  {
    assert (z + a)[|z + a| - 1] == a[|a| - 1];
    TrimEndOfWhiteSpace(z + a, w);
    TrimEndOfNonWhiteSpace(z + a);
  }

  /** Leading whitespace before a numeral is trimmed away, and nothing else. */
  lemma TrimStartPast(w: string, b: string, w5: string, c: string, w6: string)
    requires AllWhiteSpace(w) && IsPlain(b)
    ensures TrimStart(w + b + w5 + c + w6) == b + (w5 + c + w6)
  {
    var z := w5 + c + w6;
    assert w + b + w5 + c + w6 == w + (b + z);
    assert (b + z)[0] == b[0];
    TrimStartOfWhiteSpace(w, b + z);
    TrimStartOfNonWhiteSpace(b + z);
  }

  /** An opening bracket between whitespace before a numeral is dropped. */
  lemma StripLeft(w1: string, o: string, w2: string, a: string)
    requires AllWhiteSpace(w1) && AllWhiteSpace(w2) && AllBrackets(o) && IsPlain(a)
    ensures StripBrackets(w1 + o + w2 + a) == (w1 + w2) + a
  {
    assert StripBrackets(w1 + o + w2) == w1 + w2 by {
      StripBracketsAround(w1, o, w2);
    }
    assert StripBrackets(w1 + o + w2 + a) == (w1 + w2) + a by {
      StripBracketsAppend(w1 + o + w2, a);
      StripBracketsOfPlain(a);
    }
  }

  /** Brackets between two stretches of whitespace are dropped. */
  lemma StripBracketsAround(w1: string, o: string, w2: string)
    requires AllWhiteSpace(w1) && AllWhiteSpace(w2) && AllBrackets(o)
    ensures StripBrackets(w1 + o + w2) == w1 + w2
  {
    assert StripBrackets(w1 + o) == w1 by {
      StripBracketsAfterBlank(w1, o);
    }
    StripBracketsAppend(w1 + o, w2);
    BlankNoBrackets(w2);
  }

  lemma StripBracketsAfterBlank(w: string, o: string)
    requires AllWhiteSpace(w) && AllBrackets(o)
    ensures StripBrackets(w + o) == w
  {
    StripBracketsAppend(w, o);
    StripBracketsOfBrackets(o);
    BlankNoBrackets(w);
    assert w + [] == w;
  }

  /** A closing bracket between whitespace after a numeral is dropped. */
  lemma StripRight(b: string, w5: string, c: string, w6: string)
    requires AllWhiteSpace(w5) && AllWhiteSpace(w6) && AllBrackets(c) && IsPlain(b)
    ensures StripBrackets(b + (w5 + c + w6)) == b + (w5 + w6)
  {
    assert StripBrackets(w5 + c + w6) == w5 + w6 by {
      StripBracketsAround(w5, c, w6);
    }
    StripBracketsAppend(b, w5 + c + w6);
    StripBracketsOfPlain(b);
  }

  lemma BlankJoin(w1: string, w2: string)
    requires AllWhiteSpace(w1) && AllWhiteSpace(w2)
    ensures AllWhiteSpace(w1 + w2)
  {
    assert forall i :: |w1| <= i < |w1 + w2| ==> (w1 + w2)[i] == w2[i - |w1|];
  }

  lemma CommaFreeJoin(p1: string, p2: string, p3: string, p4: string, p5: string)
    requires CommaCount(p1) == 0 && CommaCount(p2) == 0 && CommaCount(p3) == 0
    requires CommaCount(p4) == 0 && CommaCount(p5) == 0
    ensures CommaCount(p1 + p2 + p3 + p4 + p5) == 0
  {
    CountOfAppend(p1, p2, IsComma);
    CountOfAppend(p1 + p2, p3, IsComma);
    CountOfAppend(p1 + p2 + p3, p4, IsComma);
    CountOfAppend(p1 + p2 + p3 + p4, p5, IsComma);
  }

  /** Parsing does not depend on notation: whitespace before or after either numeral and
      on either side of the comma, and brackets around the pair (or on one side only),
      give the same result as the bare pair `a,b`. */
  lemma ParseIgnoresNotation(w1: string, o: string, w2: string, a: string, w3: string,
                             w4: string, b: string, w5: string, c: string, w6: string)
    requires AllWhiteSpace(w1) && AllWhiteSpace(w2) && AllWhiteSpace(w3)
    requires AllWhiteSpace(w4) && AllWhiteSpace(w5) && AllWhiteSpace(w6)
    requires AllBrackets(o) && AllBrackets(c) && IsPlain(a) && IsPlain(b)
    ensures ParseCoordinates(Str((w1 + o + w2 + a + w3) + "," + (w4 + b + w5 + c + w6))) == ParsePair(a, b)
  {
    var x, y := w1 + o + w2 + a + w3, w4 + b + w5 + c + w6;
    BlankCommaCount(w1); BlankCommaCount(w2); BlankCommaCount(w3);
    BlankCommaCount(w4); BlankCommaCount(w5); BlankCommaCount(w6);
    BracketsCommaCount(o); BracketsCommaCount(c);
    PlainCommaCount(a); PlainCommaCount(b);
    CommaFreeJoin(w1, o, w2, a, w3);
    CommaFreeJoin(w4, b, w5, c, w6);
    ParseOneComma(x, y);
    LeftPartOfNotation(w1, o, w2, a, w3);
    RightPartOfNotation(w4, b, w5, c, w6);
  }

  /** How the four notations below split into the pieces of `ParseIgnoresNotation`: each
      text is written as `w1 + o + w2 + a + w3` and `w4 + b + w5 + c + w6`, with `[]` for
      the pieces a notation does not have. Stated apart so that `ParseNotations` only has to
      instantiate `ParseIgnoresNotation`. */
  lemma NotationLayouts(a: string, b: string)
    ensures a + ", " + b == ([] + [] + [] + a + []) + "," + (" " + b + [] + [] + [])
    ensures a + "," + b == ([] + [] + [] + a + []) + "," + ([] + b + [] + [] + [])
    ensures "[" + a + ", " + b + "]" == ([] + "[" + [] + a + []) + "," + (" " + b + [] + "]" + [])
    ensures "  " + a + " , " + b + "  " == ("  " + [] + [] + a + " ") + "," + (" " + b + "  " + [] + [])
  {
  }

  /** The four notations the source's tests exercise give one and the same result. */
  lemma ParseNotations(a: string, b: string)
    requires IsPlain(a) && IsPlain(b)
    ensures ParseCoordinates(Str(a + ", " + b)) == ParsePair(a, b)
    ensures ParseCoordinates(Str(a + "," + b)) == ParsePair(a, b)
    ensures ParseCoordinates(Str("[" + a + ", " + b + "]")) == ParsePair(a, b)
    ensures ParseCoordinates(Str("  " + a + " , " + b + "  ")) == ParsePair(a, b)
  {
    var e: string := [];
    NotationLayouts(a, b);
    assert AllWhiteSpace(" ") && AllWhiteSpace("  ") && AllWhiteSpace(e);
    assert AllBrackets("[") && AllBrackets("]") && AllBrackets(e);
    ParseIgnoresNotation(e, e, e, a, e, " ", b, e, e, e);
    ParseIgnoresNotation(e, e, e, a, e, e, b, e, e, e);
    ParseIgnoresNotation(e, "[", e, a, e, " ", b, e, "]", e);
    ParseIgnoresNotation("  ", e, e, a, " ", " ", b, "  ", e, e);
  }

  /** The `toString` of a parsed pair: both numbers with five decimals, joined by ", ". */
  function Format(c: Coordinate): string {
    ToFixed(c.latitude, 5) + ", " + ToFixed(c.longitude, 5)
  }

  predicate IsNumeralChar(c: char) {
    IsDigit(c) || c == '.' || c == '-'
  }

  lemma NumeralCharIsPlain(c: char)
    requires IsNumeralChar(c)
    ensures !IsWhiteSpace(c) && !IsComma(c) && !IsBracket(c)
  {
  }

  lemma PointStringChars(n: nat, f: nat)
    ensures forall i :: 0 <= i < |PointString(n, f)| ==> IsNumeralChar(PointString(n, f)[i])
  {
    if f > 0 {
      var d := PointString(n, f);
      var a, b := PointStringParts(n, f);
      assert forall i :: 0 <= i < |d| ==> d[i] == (if i < |a| then a[i] else if i == |a| then '.' else b[i - |a| - 1]);
    }
  }

  /** A toFixed numeral is made of digits, a point and a sign only. */
  lemma FixedIsPlain(x: real, f: nat)
    ensures IsPlain(ToFixed(x, f))
  {
    var y := if x < 0.0 then -x else x;
    var d := PointString(FixedScaled(y, f), f);
    PointStringStart(FixedScaled(y, f), f);
    PointStringChars(FixedScaled(y, f), f);
    var t := ToFixed(x, f);
    assert t == if x < 0.0 then "-" + d else d;
    assert forall i :: 0 <= i < |t| ==> IsNumeralChar(t[i]) by {
      if x < 0.0 {
        assert forall i :: 1 <= i < |t| ==> t[i] == d[i - 1];
      }
    }
    forall i | 0 <= i < |t|
      ensures !IsWhiteSpace(t[i]) && !IsComma(t[i]) && !IsBracket(t[i])
    {
      NumeralCharIsPlain(t[i]);
    }
  }

  /** Printing a coordinate and parsing the text again gives the coordinate rounded to
      five decimals: the printed form is always accepted. */
  lemma FormatRoundTrip(c: Coordinate)
    requires -90.0 <= c.latitude <= 90.0 && -180.0 <= c.longitude <= 180.0
    ensures ParseCoordinates(Str(Format(c))) == Ok(Coordinate(RoundFixed(c.latitude, 5), RoundFixed(c.longitude, 5)))
  {
    var a, b := ToFixed(c.latitude, 5), ToFixed(c.longitude, 5);
    var u, v := RoundFixed(c.latitude, 5), RoundFixed(c.longitude, 5);
    assert ParseCoordinates(Str(Format(c))) == ParsePair(a, b) by {
      FixedIsPlain(c.latitude, 5);
      FixedIsPlain(c.longitude, 5);
      ParseNotations(a, b);
    }
    assert ParseFloat(a) == Some(u) && ParseFloat(b) == Some(v) by {
      ParseFloatOfToFixed(c.latitude, 5);
      ParseFloatOfToFixed(c.longitude, 5);
    }
    assert -90.0 <= u <= 90.0 && -180.0 <= v <= 180.0 by {
      RoundFixedWithin(c.latitude, 5, 90);
      RoundFixedWithin(c.longitude, 5, 180);
    }
    ParsePairAccepts(a, b, u, v);
  }

  lemma ParsePairAccepts(a: string, b: string, u: real, v: real)
    requires ParseFloat(a) == Some(u) && ParseFloat(b) == Some(v)
    requires -90.0 <= u <= 90.0 && -180.0 <= v <= 180.0
    ensures ParsePair(a, b) == Ok(Coordinate(u, v))
  {
  }
}
