/** The inputs and outcomes of the parser's own test suite, as lemmas about the model. */
module CoordinateExamples {
  import opened Wrappers
  import opened JsValues
  import opened Strings
  import opened JsNumbers
  import opened Coordinates

  lemma Value50851()
    ensures AllDigits("50851") && DigitsValue("50851") == 50851
  {
    DigitsValueSnoc("5", '0'); assert "5" + ['0'] == "50";
    DigitsValueSnoc("50", '8'); assert "50" + ['8'] == "508";
    DigitsValueSnoc("508", '5'); assert "508" + ['5'] == "5085";
    DigitsValueSnoc("5085", '1'); assert "5085" + ['1'] == "50851";
  }

  lemma Value12572()
    ensures AllDigits("12572") && DigitsValue("12572") == 12572
  {
    DigitsValueSnoc("1", '2'); assert "1" + ['2'] == "12";
    DigitsValueSnoc("12", '5'); assert "12" + ['5'] == "125";
    DigitsValueSnoc("125", '7'); assert "125" + ['7'] == "1257";
    DigitsValueSnoc("1257", '2'); assert "1257" + ['2'] == "12572";
  }

  lemma FiveDecimals(a: string, b: string, x: nat, y: nat)
    requires AllDigits(a) && AllDigits(b) && |b| == 5
    requires DigitsValue(a) == x && DigitsValue(b) == y
    ensures DecimalValue(a, b) == x as real + y as real / 100000.0
  {
    assert Pow10(5) == 100000 by {
      assert Pow10(1) == 10 && Pow10(2) == 100 && Pow10(3) == 1000 && Pow10(4) == 10000;
    }
  }

  /** The latitude numeral of the tests reads back as 51.50851. */
  lemma LatitudeNumeral()
    ensures ParseFloat("51.50851") == Some(51.50851)
  {
    calc {
      ParseFloat("51.50851");
    == { assert "51.50851" == "51" + "." + "50851"; }
      ParseFloat("51" + "." + "50851");
    == { Value50851(); ParseFloatOfDecimal("51", "50851"); }
      Some(DecimalValue("51", "50851"));
    == { Value50851(); assert DigitsValue("51") == 51; FiveDecimals("51", "50851", 51, 50851); }
      Some(51.50851);
    }
  }

  lemma FractionNumeral()
    ensures ParseFloat("0.12572") == Some(0.12572)
  {
    calc {
      ParseFloat("0.12572");
    == { assert "0.12572" == "0" + "." + "12572"; }
      ParseFloat("0" + "." + "12572");
    == { Value12572(); ParseFloatOfDecimal("0", "12572"); }
      Some(DecimalValue("0", "12572"));
    == { Value12572(); assert DigitsValue("0") == 0; FiveDecimals("0", "12572", 0, 12572); }
      Some(0.12572);
    }
  }

  /** The longitude numeral of the tests reads back as -0.12572. */
  lemma LongitudeNumeral()
    ensures ParseFloat("-0.12572") == Some(-0.12572)
  {
    calc {
      ParseFloat("-0.12572");
    == { assert "-0.12572" == "-" + "0.12572"; }
      ParseFloat("-" + "0.12572");
    == { FractionNumeral(); ParseFloatOfNegated("0.12572", 0.12572); }
      Some(-0.12572);
    }
  }

  /** The two numerals the tests use read back as the numbers they denote. */
  lemma LondonNumerals()
    ensures ParseFloat("51.50851") == Some(51.50851)
    ensures ParseFloat("-0.12572") == Some(-0.12572)
  {
    LatitudeNumeral();
    LongitudeNumeral();
  }

  lemma LondonIsPlain()
    ensures IsPlain("51.50851") && IsPlain("-0.12572")
  {
    assert forall i :: 0 <= i < |"51.50851"| ==> IsNumeralChar("51.50851"[i]);
    assert forall i :: 0 <= i < |"-0.12572"| ==> IsNumeralChar("-0.12572"[i]);
    forall c | IsNumeralChar(c)
      ensures !IsWhiteSpace(c) && !IsComma(c) && !IsBracket(c)
    {
      NumeralCharIsPlain(c);
    }
  }

  /** The four accepted notations of the tests all give latitude 51.50851 and longitude
      -0.12572. */
  lemma TestedNotations()
    ensures ParseCoordinates(Str("51.50851, -0.12572")) == Ok(Coordinate(51.50851, -0.12572))
    ensures ParseCoordinates(Str("51.50851,-0.12572")) == Ok(Coordinate(51.50851, -0.12572))
    ensures ParseCoordinates(Str("[51.50851, -0.12572]")) == Ok(Coordinate(51.50851, -0.12572))
    ensures ParseCoordinates(Str("  51.50851 , -0.12572  ")) == Ok(Coordinate(51.50851, -0.12572))
  {
    var a, b := "51.50851", "-0.12572";
    LondonIsPlain();
    LondonNumerals();
    ParsePairAccepts(a, b, 51.50851, -0.12572);
    ParseNotations(a, b);
    TestedTexts(a, b);
  }

  /** How the tested inputs are put together from the two numerals. */
  lemma TestedTexts(a: string, b: string)
    requires a == "51.50851" && b == "-0.12572"
    ensures a + ", " + b == "51.50851, -0.12572"
    ensures a + "," + b == "51.50851,-0.12572"
    ensures "[" + a + ", " + b + "]" == "[51.50851, -0.12572]"
    ensures "  " + a + " , " + b + "  " == "  51.50851 , -0.12572  "
    ensures a == "51" + "." + "50851"
    ensures b == "-" + "0.12572"
    ensures "0.12572" == "0" + "." + "12572"
  {
  }

  /** A single number has no comma and is rejected for its segment count. */
  lemma TestedSingleNumber()
    ensures ParseCoordinates(Str("51.50851")) == Err(WrongSegmentCount)
  {
    LondonIsPlain();
    PlainCommaCount("51.50851");
    ParseSegmentCount("51.50851");
  }

  /** Letters on both sides are not numbers. */
  lemma TestedLetters()
    ensures ParseCoordinates(Str("abc, def")) == Err(NotANumber)
  {
    calc {
      ParseCoordinates(Str("abc, def"));
    == { LetterTexts(); }
      ParseCoordinates(Str("abc" + ", " + "def"));
    == { LetterTexts(); ParseNotations("abc", "def"); }
      ParsePair("abc", "def");
    == { LetterTexts(); ParseFloatWithoutDigit("abc"); }
      Err(NotANumber);
    }
  }

  lemma LetterTexts()
    ensures IsPlain("abc") && IsPlain("def")
    ensures forall i :: 0 <= i < |"abc"| ==> !IsDigit("abc"[i])
    ensures "abc" + ", " + "def" == "abc, def"
  {
  }

  lemma Numeral91()
    ensures ParseFloat("91") == Some(91.0)
  {
    assert "91" + [] == "91";
    ParseFloatOfDigits("91", []);
    assert DigitsValue("91") == 91;
  }

  lemma Numeral181()
    ensures ParseFloat("-181") == Some(-181.0)
  {
    calc {
      ParseFloat("-181");
    == { assert "-181" == "-" + "181"; }
      ParseFloat("-" + "181");
    == { Numeral181Digits(); ParseFloatOfNegated("181", 181.0); }
      Some(-181.0);
    }
  }

  lemma Numeral181Digits()
    ensures ParseFloat("181") == Some(181.0)
  {
    assert "181" + [] == "181";
    ParseFloatOfDigits("181", []);
    assert DigitsValue("181") == 181;
  }

  lemma RangeTexts()
    ensures IsPlain("91") && IsPlain("-181")
    ensures "91" + ", " + "-0.12572" == "91, -0.12572"
    ensures "51.50851" + ", " + "-181" == "51.50851, -181"
  {
  }

  lemma ParsePairRejects(a: string, b: string, u: real, v: real)
    requires ParseFloat(a) == Some(u) && ParseFloat(b) == Some(v)
    ensures u < -90.0 || u > 90.0 ==> ParsePair(a, b) == Err(LatitudeOutOfRange)
    ensures -90.0 <= u <= 90.0 && (v < -180.0 || v > 180.0) ==> ParsePair(a, b) == Err(LongitudeOutOfRange)
  {
  }

  /** A latitude of 91 is out of range. */
  lemma TestedLatitude()
    ensures ParseCoordinates(Str("91, -0.12572")) == Err(LatitudeOutOfRange)
  {
    LondonIsPlain();
    RangeTexts();
    Numeral91();
    LondonNumerals();
    ParsePairRejects("91", "-0.12572", 91.0, -0.12572);
    ParseNotations("91", "-0.12572");
  }

  /** A longitude of -181 is out of range. */
  lemma TestedLongitude()
    ensures ParseCoordinates(Str("51.50851, -181")) == Err(LongitudeOutOfRange)
  {
    LondonIsPlain();
    RangeTexts();
    Numeral181();
    LondonNumerals();
    ParsePairRejects("51.50851", "-181", 51.50851, -181.0);
    ParseNotations("51.50851", "-181");
  }

  /** The empty string and `null` are refused before anything else. */
  lemma TestedMissing()
    ensures ParseCoordinates(Str("")) == Err(EmptyInput)
    ensures ParseCoordinates(Null) == Err(EmptyInput)
  {
  }
}
