/** `Validation`: validators that collect error messages for the text of a post, a
    coordinate pair and a file size, the rule interpreter behind form validation, and
    the text sanitiser. */
module Validation {
  import opened Wrappers
  import opened JsValues
  import opened Strings
  import opened JsNumbers
  import opened Sequences

  /** `{isValid, errors}` */
  datatype ValidationResult = ValidationResult(isValid: bool, errors: seq<string>)

  const DefaultMaxLength: int := 1000

  /** 50 MB, in bytes. */
  const DefaultMaxSize: real := 52428800.0

  const EmptyText := "Текст не может быть пустым"
  const BlankText := "Текст не может состоять только из пробелов"
  const TooShortText := "Текст должен содержать хотя бы 2 символа"
  const NoMeaningfulText := "Текст должен содержать буквы или цифры"

  const TooLongHead := "Текст не может превышать "

  function TooLongText(maxLength: int): string {
    TooLongHead + IntToString(maxLength) + " символов"
  }

  const LatitudeNotNumber := "Широта должна быть числом"
  const LatitudeOutOfRange := "Широта должна быть в диапазоне от -90 до 90"
  const LongitudeNotNumber := "Долгота должна быть числом"
  const LongitudeOutOfRange := "Долгота должна быть в диапазоне от -180 до 180"

  const SizeNotNumber := "Размер файла должен быть числом"
  const SizeNotPositive := "Размер файла должен быть положительным числом"

  const SizeTooLargeHead := "Размер файла не должен превышать "

  /** The size limit is shown in megabytes with two decimals. */
  function SizeTooLarge(maxSize: real): string {
    SizeTooLargeHead + ToFixed(maxSize / 1048576.0, 2) + " MB"
  }

  /** With the default limit the message reads "... 50.00 MB". */
  lemma DefaultSizeMessage()
    ensures SizeTooLarge(DefaultMaxSize) == "Размер файла не должен превышать 50.00 MB"
  {
    calc {
      SizeTooLarge(DefaultMaxSize);
    == { FiftyMegabytes(); }
      SizeTooLargeHead + ToFixed(50.0, 2) + " MB";
    == { FiftyFixed(); }
      SizeTooLargeHead + "50.00" + " MB";
    == { DefaultSizeText(); }
      "Размер файла не должен превышать 50.00 MB";
    }
  }

  lemma FiftyMegabytes()
    ensures DefaultMaxSize / 1048576.0 == 50.0
  {
  }

  lemma FiftyFixed()
    ensures ToFixed(50.0, 2) == "50.00"
  {
    FiftyScaled();
    FiftyDigits();
  }

  lemma FiftyScaled()
    ensures FixedScaled(50.0, 2) == 5000
  {
    assert Pow10(2) == 100;
  }

  lemma FiftyDigits()
    ensures PointString(5000, 2) == "50.00"
  {
    assert NatToString(5) == "5";
    assert NatToString(50) == "50";
    assert NatToString(500) == "500";
    assert NatToString(5000) == "5000";
  }

  lemma DefaultSizeText()
    ensures SizeTooLargeHead + "50.00" + " MB" == "Размер файла не должен превышать 50.00 MB"
  {
  }

  /** A value that gets past the `!text || typeof text !== 'string'` guard. */
  predicate IsText(v: Value) {
    v.Str? && v.s != ""
  }

  /** The characters of the class `[a-zA-Zа-яА-Я0-9]`: the Latin letters, the 64 Cyrillic
      letters U+0410 to U+044F (so neither `ё` nor `Ё`) and the decimal digits. */
  predicate IsMeaningful(c: char) {
    ('a' <= c <= 'z') || ('A' <= c <= 'Z') || ('\U{0430}' <= c <= '\U{044F}') ||
    ('\U{0410}' <= c <= '\U{042F}') || IsDigit(c)
  }

  predicate HasMeaningful(t: string) {
    exists i :: 0 <= i < |t| && IsMeaningful(t[i])
  }

  /** Every message `validateTextContent` can give for a non-empty string, in the order
      the checks are made. */
  function TextChecks(maxLength: int): seq<string> {
    [BlankText, TooLongText(maxLength), TooShortText, NoMeaningfulText]
  }

  const CoordinateChecks: seq<string> :=
    [LatitudeNotNumber, LatitudeOutOfRange, LongitudeNotNumber, LongitudeOutOfRange]

  /** The five text messages are pairwise different, whatever the length limit. */
  lemma TextMessagesDistinct(maxLength: int)
    ensures TooLongText(maxLength) != EmptyText && TooLongText(maxLength) != BlankText
    ensures TooLongText(maxLength) != TooShortText && TooLongText(maxLength) != NoMeaningfulText
    ensures EmptyText != BlankText && EmptyText != TooShortText && EmptyText != NoMeaningfulText
    ensures BlankText != TooShortText && BlankText != NoMeaningfulText
    ensures TooShortText != NoMeaningfulText
  {
    TooLongMarks(maxLength);
    TextMarks();
  }

  /** Two characters that tell the too-long message apart from the other four. The marks
      lemmas below name such characters one message at a time, so that no proof has to
      unfold several long string literals at once. */
  lemma TooLongMarks(maxLength: int)
    ensures |TooLongText(maxLength)| > 15
    ensures TooLongText(maxLength)[6] == 'н' && TooLongText(maxLength)[15] == 'п'
  {
    TooLongHeadMarks();
    PrefixIndex(TooLongHead, IntToString(maxLength) + " символов", 6);
    PrefixIndex(TooLongHead, IntToString(maxLength) + " символов", 15);
  }

  /** The same two characters in the fixed opening of the too-long message. */
  lemma TooLongHeadMarks()
    ensures |TooLongHead| > 15 && TooLongHead[6] == 'н' && TooLongHead[15] == 'п'
  {
  }

  /** The first characters of a concatenation are those of its first part. */
  lemma PrefixIndex(a: string, b: string, i: int)
    requires 0 <= i < |a|
    ensures (a + b)[i] == a[i]
  {
  }

  /** Two distinguishing characters of each constant text message. */
  lemma TextMarks()
    ensures |EmptyText| > 15 && EmptyText[6] == 'н' && EmptyText[15] == 'б'
    ensures |BlankText| > 15 && BlankText[6] == 'н' && BlankText[15] == 'с'
    ensures |TooShortText| > 23 && TooShortText[6] == 'д' && TooShortText[23] == 'х'
    ensures |NoMeaningfulText| > 23 && NoMeaningfulText[6] == 'д' && NoMeaningfulText[23] == 'б'
  {
    EmptyTextMarks();
    BlankTextMarks();
    TooShortMarks();
    NoMeaningfulMarks();
  }

  lemma EmptyTextMarks()
    ensures |EmptyText| > 15 && EmptyText[6] == 'н' && EmptyText[15] == 'б'
  {
  }

  lemma BlankTextMarks()
    ensures |BlankText| > 15 && BlankText[6] == 'н' && BlankText[15] == 'с'
  {
  }

  lemma TooShortMarks()
    ensures |TooShortText| > 23 && TooShortText[6] == 'д' && TooShortText[23] == 'х'
  {
  }

  lemma NoMeaningfulMarks()
    ensures |NoMeaningfulText| > 23 && NoMeaningfulText[6] == 'д' && NoMeaningfulText[23] == 'б'
  {
  }

  lemma SizeMessagesDistinct(maxSize: real)
    ensures SizeTooLarge(maxSize) != SizeNotNumber && SizeTooLarge(maxSize) != SizeNotPositive
    ensures SizeNotNumber != SizeNotPositive
  {
    SizeTooLargeMarks(maxSize);
    SizeNotNumberMarks();
    SizeNotPositiveMarks();
  }

  /** A character that tells the too-large message apart from the other two. Like the text
      marks, one lemma per message keeps each literal in a proof of its own. */
  lemma SizeTooLargeMarks(maxSize: real)
    ensures |SizeTooLarge(maxSize)| > 13 && SizeTooLarge(maxSize)[13] == 'н'
  {
    SizeHeadMarks();
    PrefixIndex(SizeTooLargeHead, ToFixed(maxSize / 1048576.0, 2) + " MB", 13);
  }

  /** The same character in the fixed opening of the too-large message. */
  lemma SizeHeadMarks()
    ensures |SizeTooLargeHead| > 13 && SizeTooLargeHead[13] == 'н'
  {
  }

  /** Distinguishing characters of the two constant size messages. */
  lemma SizeNotNumberMarks()
    ensures |SizeNotNumber| > 25 && SizeNotNumber[13] == 'д' && SizeNotNumber[25] == 'ч'
  {
  }

  lemma SizeNotPositiveMarks()
    ensures |SizeNotPositive| > 25 && SizeNotPositive[13] == 'д' && SizeNotPositive[25] == 'п'
  {
  }

  /** The message of one check: present exactly when the check failed. */
  function Check(failed: bool, message: string): seq<string> {
    if failed then [message] else []
  }

  /** One more check keeps the messages a subsequence of the checks made. */
  lemma CheckStep(errors: seq<string>, checks: seq<string>, failed: bool, message: string)
    requires IsSubsequence(errors, checks)
    ensures IsSubsequence(errors + Check(failed, message), checks + [message])
  {
    if failed {
      SubsequenceTake(errors, checks, message);
    } else {
      assert errors + Check(failed, message) == errors;
      SubsequenceSkip(errors, checks, message);
    }
  }

  /** The messages `validateTextContent` gives for a string whose trimmed form is `t`. */
  function TextErrors(t: string, maxLength: int): seq<string> {
    Check(|t| == 0, BlankText) + Check(|t| > maxLength, TooLongText(maxLength)) +
    Check(|t| < 2, TooShortText) + Check(!HasMeaningful(t), NoMeaningfulText)
  }

  /** Each of the four checks reports its own message exactly when it fails, and the
      messages come in the order the checks are made. */
  lemma TextErrorsMeaning(t: string, maxLength: int)
    ensures var errors := TextErrors(t, maxLength);
      && (BlankText in errors <==> |t| == 0)
      && (TooLongText(maxLength) in errors <==> |t| > maxLength)
      && (TooShortText in errors <==> |t| < 2)
      && (NoMeaningfulText in errors <==> !HasMeaningful(t))
      && IsSubsequence(errors, TextChecks(maxLength))
      && EmptyText !in errors
  {
    TextMessagesDistinct(maxLength);
    FourChecksMembers(|t| == 0, |t| > maxLength, |t| < 2, !HasMeaningful(t),
      BlankText, TooLongText(maxLength), TooShortText, NoMeaningfulText);
    FourChecksOrder(|t| == 0, |t| > maxLength, |t| < 2, !HasMeaningful(t),
      BlankText, TooLongText(maxLength), TooShortText, NoMeaningfulText);
  }

  /** Four checks with different messages: each message is reported exactly when its check
      fails, and nothing else is reported. */
  lemma FourChecksMembers(c1: bool, c2: bool, c3: bool, c4: bool, m1: string, m2: string, m3: string, m4: string)
    requires m1 != m2 && m1 != m3 && m1 != m4 && m2 != m3 && m2 != m4 && m3 != m4
    ensures var e := Check(c1, m1) + Check(c2, m2) + Check(c3, m3) + Check(c4, m4);
      && (m1 in e <==> c1) && (m2 in e <==> c2) && (m3 in e <==> c3) && (m4 in e <==> c4)
      && forall m :: m in e ==> m == m1 || m == m2 || m == m3 || m == m4
  {
    var e := Check(c1, m1) + Check(c2, m2) + Check(c3, m3) + Check(c4, m4);
    assert forall m :: m in e <==> (c1 && m == m1) || (c2 && m == m2) || (c3 && m == m3) || (c4 && m == m4);
  }

  /** The messages of four checks come in the order the checks are made. */
  lemma FourChecksOrder(c1: bool, c2: bool, c3: bool, c4: bool, m1: string, m2: string, m3: string, m4: string)
    ensures IsSubsequence(Check(c1, m1) + Check(c2, m2) + Check(c3, m3) + Check(c4, m4), [m1, m2, m3, m4])
  {
    var e1 := Check(c1, m1);
    var e2 := e1 + Check(c2, m2);
    var e3 := e2 + Check(c3, m3);
    assert IsSubsequence<string>([], []);
    CheckStep([], [], c1, m1);
    assert [] + e1 == e1;
    CheckStep(e1, [m1], c2, m2);
    CheckStep(e2, [m1, m2], c3, m3);
    CheckStep(e3, [m1, m2, m3], c4, m4);
    assert [m1] + [m2] == [m1, m2];
    assert [m1, m2] + [m3] == [m1, m2, m3];
    assert [m1, m2, m3] + [m4] == [m1, m2, m3, m4];
  }

  /** Text made of whitespace only fails three checks: it is blank, shorter than two
      characters and has no letter or digit. */
  lemma BlankTextErrors(s: string, maxLength: int)
    requires AllWhiteSpace(s) && maxLength >= 0
    ensures TextErrors(Trim(s), maxLength) == [BlankText, TooShortText, NoMeaningfulText]
  {
    TrimOfWhiteSpace(s);
  }

  /** `validateTextContent(text, maxLength = 1000)`. For a string the four checks run on
      its trimmed form, each independently, and their messages come in check order. */
  method ValidateTextContent(text: Value, maxLength: int := DefaultMaxLength) returns (r: ValidationResult)
    ensures r.isValid <==> r.errors == []
    ensures !IsText(text) ==> r.errors == [EmptyText]
    ensures IsText(text) ==> r.errors == TextErrors(Trim(text.s), maxLength)
    ensures IsText(text) ==>
      var t := Trim(text.s);
      && (BlankText in r.errors <==> |t| == 0)
      && (TooLongText(maxLength) in r.errors <==> |t| > maxLength)
      && (TooShortText in r.errors <==> |t| < 2)
      && (NoMeaningfulText in r.errors <==> !HasMeaningful(t))
      && IsSubsequence(r.errors, TextChecks(maxLength))
      && EmptyText !in r.errors
    ensures IsText(text) && AllWhiteSpace(text.s) && maxLength >= 0 ==>
      r.errors == [BlankText, TooShortText, NoMeaningfulText]
  {
    var errors: seq<string> := [];
    if !Truthy(text) || !text.Str? {
      errors := errors + [EmptyText];
    } else {
      var trimmed := Trim(text.s);
      if |trimmed| == 0 {
        errors := errors + [BlankText];
      }
      if |trimmed| > maxLength {
        errors := errors + [TooLongText(maxLength)];
      }
      if |trimmed| < 2 {
        errors := errors + [TooShortText];
      }
      if !HasMeaningful(trimmed) {
        errors := errors + [NoMeaningfulText];
      }
      assert errors == TextErrors(trimmed, maxLength);
      TextErrorsMeaning(trimmed, maxLength);
      if AllWhiteSpace(text.s) && maxLength >= 0 {
        BlankTextErrors(text.s, maxLength);
      }
    }
    r := ValidationResult(|errors| == 0, errors);
  }

  /** The message one axis gets: not a number, or a number outside `[-bound, bound]`. */
  function AxisErrors(v: Value, bound: real, notNumber: string, outOfRange: string): seq<string> {
    if !IsNumber(v) then [notNumber]
    else if v.x < -bound || v.x > bound then [outOfRange]
    else []
  }

  /** The messages `validateCoordinates` gives: the latitude's, then the longitude's. */
  function CoordinateErrors(latitude: Value, longitude: Value): seq<string> {
    AxisErrors(latitude, 90.0, LatitudeNotNumber, LatitudeOutOfRange) +
    AxisErrors(longitude, 180.0, LongitudeNotNumber, LongitudeOutOfRange)
  }

  /** The four coordinate messages are pairwise different. */
  lemma CoordinateMessagesDistinct()
    ensures LatitudeNotNumber != LatitudeOutOfRange && LongitudeNotNumber != LongitudeOutOfRange
    ensures LatitudeNotNumber != LongitudeNotNumber && LatitudeNotNumber != LongitudeOutOfRange
    ensures LatitudeOutOfRange != LongitudeNotNumber && LatitudeOutOfRange != LongitudeOutOfRange
  {
  }

  /** One axis reports at most one of its two messages, each exactly when its check fails. */
  lemma AxisErrorsMeaning(v: Value, bound: real, notNumber: string, outOfRange: string)
    requires notNumber != outOfRange
    ensures var e := AxisErrors(v, bound, notNumber, outOfRange);
      && (notNumber in e <==> !IsNumber(v))
      && (outOfRange in e <==> IsNumber(v) && (v.x < -bound || v.x > bound))
      && (forall m :: m in e ==> m == notNumber || m == outOfRange)
      && |e| <= 1
      && (e == [] <==> IsNumber(v) && -bound <= v.x <= bound)
  {
  }

  /** An axis's message comes in the order of that axis's two checks. */
  lemma AxisErrorsOrder(errors: seq<string>, checks: seq<string>, v: Value, bound: real, notNumber: string, outOfRange: string)
    requires IsSubsequence(errors, checks)
    ensures IsSubsequence(errors + AxisErrors(v, bound, notNumber, outOfRange), checks + [notNumber, outOfRange])
  {
    var e := AxisErrors(v, bound, notNumber, outOfRange);
    assert checks + [notNumber, outOfRange] == checks + [notNumber] + [outOfRange];
    if e == [notNumber] {
      SubsequenceTake(errors, checks, notNumber);
      SubsequenceSkip(errors + e, checks + [notNumber], outOfRange);
    } else if e == [outOfRange] {
      SubsequenceSkip(errors, checks, notNumber);
      SubsequenceTake(errors, checks + [notNumber], outOfRange);
    } else {
      assert errors + e == errors;
      SubsequenceSkip(errors, checks, notNumber);
      SubsequenceSkip(errors, checks + [notNumber], outOfRange);
    }
  }

  /** Each message is present exactly when its check fails, in check order, at most one
      per axis; the pair is valid exactly when both axes are numbers in range. */
  lemma CoordinateErrorsMeaning(latitude: Value, longitude: Value)
    ensures var e := CoordinateErrors(latitude, longitude);
      && (LatitudeNotNumber in e <==> !IsNumber(latitude))
      && (LatitudeOutOfRange in e <==> IsNumber(latitude) && (latitude.x < -90.0 || latitude.x > 90.0))
      && (LongitudeNotNumber in e <==> !IsNumber(longitude))
      && (LongitudeOutOfRange in e <==> IsNumber(longitude) && (longitude.x < -180.0 || longitude.x > 180.0))
      && IsSubsequence(e, CoordinateChecks)
      && |e| <= 2
      && (e == [] <==>
        IsNumber(latitude) && -90.0 <= latitude.x <= 90.0 && IsNumber(longitude) && -180.0 <= longitude.x <= 180.0)
  {
    var a := AxisErrors(latitude, 90.0, LatitudeNotNumber, LatitudeOutOfRange);
    var b := AxisErrors(longitude, 180.0, LongitudeNotNumber, LongitudeOutOfRange);
    CoordinateMessagesDistinct();
    AxisErrorsMeaning(latitude, 90.0, LatitudeNotNumber, LatitudeOutOfRange);
    AxisErrorsMeaning(longitude, 180.0, LongitudeNotNumber, LongitudeOutOfRange);
    assert forall m :: m in a + b <==> m in a || m in b;
    assert IsSubsequence<string>([], []);
    AxisErrorsOrder([], [], latitude, 90.0, LatitudeNotNumber, LatitudeOutOfRange);
    assert [] + a == a;
    AxisErrorsOrder(a, [LatitudeNotNumber, LatitudeOutOfRange], longitude, 180.0, LongitudeNotNumber, LongitudeOutOfRange);
    assert [] + [LatitudeNotNumber, LatitudeOutOfRange] == [LatitudeNotNumber, LatitudeOutOfRange];
    assert [LatitudeNotNumber, LatitudeOutOfRange] + [LongitudeNotNumber, LongitudeOutOfRange] == CoordinateChecks;
  }

  /** `validateCoordinates(latitude, longitude)`: at most one message per axis, the
      latitude's first. */
  method ValidateCoordinates(latitude: Value, longitude: Value) returns (r: ValidationResult)
    ensures r.errors == CoordinateErrors(latitude, longitude)
    ensures r.isValid <==> r.errors == []
    ensures LatitudeNotNumber in r.errors <==> !IsNumber(latitude)
    ensures LatitudeOutOfRange in r.errors <==> IsNumber(latitude) && (latitude.x < -90.0 || latitude.x > 90.0)
    ensures LongitudeNotNumber in r.errors <==> !IsNumber(longitude)
    ensures LongitudeOutOfRange in r.errors <==> IsNumber(longitude) && (longitude.x < -180.0 || longitude.x > 180.0)
    ensures IsSubsequence(r.errors, CoordinateChecks)
    ensures |r.errors| <= 2
    ensures r.isValid <==>
      IsNumber(latitude) && -90.0 <= latitude.x <= 90.0 && IsNumber(longitude) && -180.0 <= longitude.x <= 180.0
  {
    var errors: seq<string> := [];
    if !IsNumber(latitude) {
      errors := errors + [LatitudeNotNumber];
    } else if latitude.x < -90.0 || latitude.x > 90.0 {
      errors := errors + [LatitudeOutOfRange];
    }
    assert errors == AxisErrors(latitude, 90.0, LatitudeNotNumber, LatitudeOutOfRange);
    ghost var latitudeErrors := errors;
    if !IsNumber(longitude) {
      errors := errors + [LongitudeNotNumber];
    } else if longitude.x < -180.0 || longitude.x > 180.0 {
      errors := errors + [LongitudeOutOfRange];
    }
    assert errors == latitudeErrors + AxisErrors(longitude, 180.0, LongitudeNotNumber, LongitudeOutOfRange);
    CoordinateErrorsMeaning(latitude, longitude);
    r := ValidationResult(|errors| == 0, errors);
  }

  /** `validateFileSize(size, maxSize = 50 * 1024 * 1024)`: a single message at most. */
  method ValidateFileSize(size: Value, maxSize: real := DefaultMaxSize) returns (r: ValidationResult)
    ensures r.isValid <==> r.errors == []
    ensures |r.errors| <= 1
    ensures r.errors == [SizeNotNumber] <==> !IsNumber(size)
    ensures r.errors == [SizeNotPositive] <==> IsNumber(size) && size.x <= 0.0
    ensures r.errors == [SizeTooLarge(maxSize)] <==> IsNumber(size) && 0.0 < size.x && size.x > maxSize
    ensures r.isValid <==> IsNumber(size) && 0.0 < size.x <= maxSize
  {
    var errors: seq<string> := [];
    SizeMessagesDistinct(maxSize);
    if !IsNumber(size) {
      errors := errors + [SizeNotNumber];
    } else if size.x <= 0.0 {
      errors := errors + [SizeNotPositive];
    } else if size.x > maxSize {
      errors := errors + [SizeTooLarge(maxSize)];
    }
    assert errors != [] ==> errors == [errors[0]];
    r := ValidationResult(|errors| == 0, errors);
  }

  /** A rule's `params`: the limit of the length rules, an optional message, and the
      `pattern` and `custom` tests, which the model takes as given predicates. All four are
      absent when the rule has no `params`. */
  datatype Params = Params(
    value: Option<int>,
    message: Option<string>,
    regex: Option<Value -> bool>,
    validator: Option<Value -> bool>)

  /** `{type, params}` */
  datatype Rule = Rule(kind: string, params: Params)

  const NoParams := Params(None, None, None, None)

  const RequiredMessage := "Поле обязательно для заполнения"
  const PatternMessage := "Некорректный формат"
  const CustomMessage := "Некорректное значение"

  function MinLengthMessage(length: int): string {
    "Минимальная длина: " + IntToString(length) + " символов"
  }

  function MaxLengthMessage(length: int): string {
    "Максимальная длина: " + IntToString(length) + " символов"
  }

  /** `message || fallback` */
  function OrDefault(message: Option<string>, fallback: string): string {
    if message.Some? && message.value != "" then message.value else fallback
  }

  /** `value.length < limit` and `value.length > limit`: false when either side is missing. */
  predicate ShorterThan(value: Value, limit: Option<int>) {
    Length(value).Some? && limit.Some? && Length(value).value < limit.value
  }

  predicate LongerThan(value: Value, limit: Option<int>) {
    Length(value).Some? && limit.Some? && Length(value).value > limit.value
  }

  /** A `pattern` rule applied to a truthy value calls `params.regex.test`, which throws
      when the rule has no regex. */
  predicate RuleApplies(value: Value, rule: Rule) {
    rule.kind == "pattern" && Truthy(value) ==> rule.params.regex.Some?
  }

  /** `validateRule(value, rule)`: the message of the failed rule, or `None` (`null`) when
      the rule passes or its type is not one of the five known ones. */
  function ValidateRule(value: Value, rule: Rule): (r: Option<string>)
    requires RuleApplies(value, rule)
    ensures r.Some? ==> r.value != ""
  {
    var params := rule.params;
    match rule.kind
    case "required" =>
      if !Truthy(value) && value != Num(0.0) then Some(OrDefault(params.message, RequiredMessage)) else None
    case "minLength" =>
      if Truthy(value) && ShorterThan(value, params.value)
      then Some(OrDefault(params.message, MinLengthMessage(params.value.value))) else None
    case "maxLength" =>
      if Truthy(value) && LongerThan(value, params.value)
      then Some(OrDefault(params.message, MaxLengthMessage(params.value.value))) else None
    case "pattern" =>
      if Truthy(value) && !params.regex.value(value) then Some(OrDefault(params.message, PatternMessage)) else None
    case "custom" =>
      if params.validator.Some? && !params.validator.value(value)
      then Some(OrDefault(params.message, CustomMessage)) else None
    case _ => None
  }

  predicate Known(kind: string) {
    kind in {"required", "minLength", "maxLength", "pattern", "custom"}
  }

  /** `required` fails exactly on the falsy values other than 0: `undefined`, `null`,
      `false`, `NaN` and the empty string. */
  lemma RequiredRule(value: Value, params: Params)
    ensures ValidateRule(value, Rule("required", params)).Some? <==>
      value in {Undefined, Null, Bool(false), NaN, Str("")}
  {
  }

  /** The length rules never fail on a falsy value, and otherwise fail exactly when the
      value has a length beyond the limit. */
  lemma LengthRules(value: Value, params: Params)
    ensures ValidateRule(value, Rule("minLength", params)).Some? <==>
      Truthy(value) && Length(value).Some? && params.value.Some? && Length(value).value < params.value.value
    ensures ValidateRule(value, Rule("maxLength", params)).Some? <==>
      Truthy(value) && Length(value).Some? && params.value.Some? && Length(value).value > params.value.value
    ensures !Truthy(value) ==>
      ValidateRule(value, Rule("minLength", params)) == None && ValidateRule(value, Rule("maxLength", params)) == None
  {
  }

  /** A `pattern` rule never fails on a falsy value, whatever its regex; on a truthy value
      it fails exactly when the regex rejects it, with the rule's message or the default. */
  lemma PatternRule(value: Value, params: Params)
    requires params.regex.Some?
    ensures !Truthy(value) ==> ValidateRule(value, Rule("pattern", params)) == None
    ensures Truthy(value) ==> (ValidateRule(value, Rule("pattern", params)).Some? <==> !params.regex.value(value))
    ensures ValidateRule(value, Rule("pattern", params)).Some? ==>
      ValidateRule(value, Rule("pattern", params)).value == OrDefault(params.message, PatternMessage)
  {
  }

  /** `custom` ignores a rule without a validator. Otherwise it fails exactly when the
      validator rejects the value; unlike the other rules, falsy values are not exempt. */
  lemma CustomRule(value: Value, params: Params)
    ensures params.validator.None? ==> ValidateRule(value, Rule("custom", params)) == None
    ensures params.validator.Some? ==>
      (ValidateRule(value, Rule("custom", params)).Some? <==> !params.validator.value(value))
    ensures ValidateRule(value, Rule("custom", params)).Some? ==>
      ValidateRule(value, Rule("custom", params)).value == OrDefault(params.message, CustomMessage)
  {
  }

  /** On `null` a `pattern` rule passes whatever its regex, while a `custom` rule whose
      validator rejects everything fails. */
  lemma FalsyContrast(regex: Value -> bool, message: Option<string>)
    ensures ValidateRule(Null, Rule("pattern", Params(None, message, Some(regex), None))) == None
    ensures ValidateRule(Null, Rule("custom", Params(None, message, None, Some((v: Value) => false)))) ==
      Some(OrDefault(message, CustomMessage))
  {
  }

  /** A rule type outside the five known ones never fails. */
  lemma UnknownRule(value: Value, rule: Rule)
    requires !Known(rule.kind)
    ensures ValidateRule(value, rule) == None
  {
  }

  /** A non-empty message in the rule replaces the default one. */
  lemma SuppliedMessage(value: Value, rule: Rule, message: string)
    requires RuleApplies(value, rule)
    requires rule.params.message == Some(message) && message != ""
    ensures ValidateRule(value, rule).Some? ==> ValidateRule(value, rule) == Some(message)
  {
  }

  /** The messages of the failing rules in `rules`, in rule order. */
  function FieldErrors(value: Value, rules: seq<Rule>): seq<string>
    requires forall k :: 0 <= k < |rules| ==> RuleApplies(value, rules[k])
  {
    if rules == [] then []
    else
      var last := rules[|rules| - 1];
      var previous := FieldErrors(value, rules[..|rules| - 1]);
      match ValidateRule(value, last)
      case Some(message) => previous + [message]
      case None => previous
  }

  /** Rules checked one after the other report the messages of both groups, in order. */
  lemma {:induction false} FieldErrorsAppend(value: Value, a: seq<Rule>, b: seq<Rule>)
    requires forall k :: 0 <= k < |a| ==> RuleApplies(value, a[k])
    requires forall k :: 0 <= k < |b| ==> RuleApplies(value, b[k])
    ensures forall k :: 0 <= k < |a + b| ==> RuleApplies(value, (a + b)[k])
    ensures FieldErrors(value, a + b) == FieldErrors(value, a) + FieldErrors(value, b)
  {
    assert forall k :: 0 <= k < |a + b| ==> (a + b)[k] == if k < |a| then a[k] else b[k - |a|];
    if b != [] {
      var c := b[..|b| - 1];
      assert (a + b)[..|a + b| - 1] == a + c;
      assert (a + b)[|a + b| - 1] == b[|b| - 1];
      FieldErrorsAppend(value, a, c);
    } else {
      assert a + b == a;
    }
  }

  /** A field has no errors exactly when every one of its rules passes. */
  lemma {:induction false} FieldErrorsEmpty(value: Value, rules: seq<Rule>)
    requires forall k :: 0 <= k < |rules| ==> RuleApplies(value, rules[k])
    ensures FieldErrors(value, rules) == [] <==> forall k :: 0 <= k < |rules| ==> ValidateRule(value, rules[k]).None?
  {
    if rules != [] {
      var init := rules[..|rules| - 1];
      FieldErrorsEmpty(value, init);
      assert forall k :: 0 <= k < |init| ==> init[k] == rules[k];
    }
  }

  /** Every reported message is the message of some failing rule, none more than once per
      rule. */
  lemma {:induction false} FieldErrorsFromRules(value: Value, rules: seq<Rule>)
    requires forall k :: 0 <= k < |rules| ==> RuleApplies(value, rules[k])
    ensures |FieldErrors(value, rules)| <= |rules|
    ensures forall m :: m in FieldErrors(value, rules) ==>
      m != "" && exists k :: 0 <= k < |rules| && ValidateRule(value, rules[k]) == Some(m)
  {
    if rules != [] {
      var init := rules[..|rules| - 1];
      FieldErrorsFromRules(value, init);
      assert forall k :: 0 <= k < |init| ==> init[k] == rules[k];
    }
  }

  /** One entry of the `rules` object: a field name and the rules for that field. */
  datatype FieldRules = FieldRules(name: string, rules: seq<Rule>)

  /** `{isValid, errors}` of a form: the messages of each field that failed a rule. */
  datatype FormResult = FormResult(isValid: bool, errors: map<string, seq<string>>)

  /** `fields[fieldName]`: `undefined` for a field the form does not have. */
  function FieldValue(fields: map<string, Value>, name: string): Value {
    if name in fields then fields[name] else Undefined
  }

  predicate FieldApplies(fields: map<string, Value>, field: FieldRules) {
    forall k :: 0 <= k < |field.rules| ==> RuleApplies(FieldValue(fields, field.name), field.rules[k])
  }

  /** The messages of the failing rules of one field. */
  function FieldErrorsOf(fields: map<string, Value>, field: FieldRules): seq<string>
    requires FieldApplies(fields, field)
  {
    FieldErrors(FieldValue(fields, field.name), field.rules)
  }

  /** The keys of an object are distinct. */
  predicate DistinctNames(rules: seq<FieldRules>) {
    forall i, j :: 0 <= i < j < |rules| ==> rules[i].name != rules[j].name
  }

  /** The inner loop of `validateForm`: each rule of one field is applied in turn and
      the message of every failing rule is pushed. */
  method CollectFieldErrors(value: Value, rules: seq<Rule>) returns (fieldErrors: seq<string>)
    requires forall k :: 0 <= k < |rules| ==> RuleApplies(value, rules[k])
    ensures fieldErrors == FieldErrors(value, rules)
  {
    fieldErrors := [];
    var j := 0;
    while j < |rules|
      invariant 0 <= j <= |rules|
      invariant fieldErrors == FieldErrors(value, rules[..j])
    {
      assert rules[..j + 1][..j] == rules[..j];
      var error := ValidateRule(value, rules[j]);
      if error.Some? {
        fieldErrors := fieldErrors + [error.value];
      }
      j := j + 1;
    }
    assert rules[..j] == rules;
  }

  /** The `errors` object `validateForm` builds, as a map from field name to messages. */
  function FormErrors(fields: map<string, Value>, rules: seq<FieldRules>): map<string, seq<string>>
    requires forall i :: 0 <= i < |rules| ==> FieldApplies(fields, rules[i])
  {
    if rules == [] then map[]
    else
      var last := rules[|rules| - 1];
      var previous := FormErrors(fields, rules[..|rules| - 1]);
      var fieldErrors := FieldErrorsOf(fields, last);
      if fieldErrors != [] then previous[last.name := fieldErrors] else previous
  }

  /** Only fields named in the rules get an entry. */
  lemma {:induction false} FormErrorsKeys(fields: map<string, Value>, rules: seq<FieldRules>)
    requires forall i :: 0 <= i < |rules| ==> FieldApplies(fields, rules[i])
    ensures forall name :: name in FormErrors(fields, rules) ==> exists i :: 0 <= i < |rules| && rules[i].name == name
  {
    if rules != [] {
      var n := |rules| - 1;
      var init := rules[..n];
      assert forall i :: 0 <= i < n ==> init[i] == rules[i];
      FormErrorsKeys(fields, init);
    }
  }

  /** A field has an entry exactly when one of its rules fails, and the entry lists the
      messages of its failing rules. */
  lemma FormErrorsEntries(fields: map<string, Value>, rules: seq<FieldRules>)
    requires DistinctNames(rules)
    requires forall i :: 0 <= i < |rules| ==> FieldApplies(fields, rules[i])
    ensures forall i :: 0 <= i < |rules| ==>
      (rules[i].name in FormErrors(fields, rules) <==> FieldErrorsOf(fields, rules[i]) != [])
    ensures forall i :: 0 <= i < |rules| && rules[i].name in FormErrors(fields, rules) ==>
      FormErrors(fields, rules)[rules[i].name] == FieldErrorsOf(fields, rules[i])
  {
    forall i | 0 <= i < |rules|
      ensures rules[i].name in FormErrors(fields, rules) <==> FieldErrorsOf(fields, rules[i]) != []
      ensures rules[i].name in FormErrors(fields, rules) ==>
        FormErrors(fields, rules)[rules[i].name] == FieldErrorsOf(fields, rules[i])
    {
      FormEntry(fields, rules, i);
    }
  }

  /** The entry of one field whose name no other field has. */
  lemma {:induction false} FormEntry(fields: map<string, Value>, rules: seq<FieldRules>, i: nat)
    requires i < |rules|
    requires forall j :: 0 <= j < |rules| && j != i ==> rules[j].name != rules[i].name
    requires forall j :: 0 <= j < |rules| ==> FieldApplies(fields, rules[j])
    ensures rules[i].name in FormErrors(fields, rules) <==> FieldErrorsOf(fields, rules[i]) != []
    ensures rules[i].name in FormErrors(fields, rules) ==>
      FormErrors(fields, rules)[rules[i].name] == FieldErrorsOf(fields, rules[i])
  {
    var n := |rules| - 1;
    var init := rules[..n];
    var last := rules[n];
    assert forall j :: 0 <= j < n ==> init[j] == rules[j];
    var previous := FormErrors(fields, init);
    if i == n {
      FormErrorsKeys(fields, init);
      assert last.name !in previous;
      UpdateEntries(previous, FormErrors(fields, rules), last.name, FieldErrorsOf(fields, last));
    } else {
      FormEntry(fields, init, i);
      assert rules[i].name != last.name;
      KeepEntries(previous, FormErrors(fields, rules), last.name, FieldErrorsOf(fields, last), rules[i].name);
    }
  }

  /** Adding or skipping the entry of one field leaves the entries of other fields. */
  lemma KeepEntries(previous: map<string, seq<string>>, current: map<string, seq<string>>, name: string, errors: seq<string>, other: string)
    requires current == if errors != [] then previous[name := errors] else previous
    requires other != name
    ensures other in current <==> other in previous
    ensures other in current ==> current[other] == previous[other]
  {
  }

  /** Adding the entry of a field not yet in the map, when it has messages. */
  lemma UpdateEntries(previous: map<string, seq<string>>, current: map<string, seq<string>>, name: string, errors: seq<string>)
    requires name !in previous
    requires current == if errors != [] then previous[name := errors] else previous
    ensures name in current <==> errors != []
    ensures name in current ==> current[name] == errors
  {
  }

  /** The form has no errors exactly when every field passes every rule. */
  lemma FormErrorsEmpty(fields: map<string, Value>, rules: seq<FieldRules>)
    requires DistinctNames(rules)
    requires forall i :: 0 <= i < |rules| ==> FieldApplies(fields, rules[i])
    ensures FormErrors(fields, rules) == map[] <==> forall i :: 0 <= i < |rules| ==> FieldErrorsOf(fields, rules[i]) == []
  {
    FormErrorsKeys(fields, rules);
    FormErrorsEntries(fields, rules);
    var errors := FormErrors(fields, rules);
    if errors != map[] {
      var name :| name in errors;
    }
  }

  /** `validateForm(fields, rules)`: every field named in `rules` is checked against each
      of its rules in turn and the errors object is `FormErrors`, whose entries
      `FormErrorsKeys` and `FormErrorsEntries` describe; the form is valid exactly when no
      field fails a rule. */
  method ValidateForm(fields: map<string, Value>, rules: seq<FieldRules>) returns (r: FormResult)
    requires DistinctNames(rules)
    requires forall i :: 0 <= i < |rules| ==> FieldApplies(fields, rules[i])
    ensures r.errors == FormErrors(fields, rules)
    ensures r.isValid <==> r.errors == map[]
    ensures r.isValid <==> forall i :: 0 <= i < |rules| ==> FieldErrorsOf(fields, rules[i]) == []
  {
    var errors: map<string, seq<string>> := map[];
    var isValid := true;
    var i := 0;
    while i < |rules|
      invariant 0 <= i <= |rules|
      invariant errors == FormErrors(fields, rules[..i])
      invariant isValid <==> errors == map[]
    {
      assert rules[..i + 1][..i] == rules[..i];
      var fieldName := rules[i].name;
      var value := FieldValue(fields, fieldName);
      var fieldErrors := CollectFieldErrors(value, rules[i].rules);
      if |fieldErrors| > 0 {
        errors := errors[fieldName := fieldErrors];
        assert fieldName in errors;
        isValid := false;
      }
      i := i + 1;
    }
    assert rules[..i] == rules;
    FormErrorsEmpty(fields, rules);
    r := FormResult(isValid, errors);
  }

  /** The most characters `sanitizeText` returns. */
  const SanitizedLength: nat := 1000

  /** `.replace(/\s+/g, ' ')`: every maximal run of whitespace becomes one space. */
  function CollapseWhiteSpace(s: string): (r: string)
    ensures |r| <= |s|
    decreases |s|
  {
    if s == [] then []
    else if IsWhiteSpace(s[0]) then [' '] + CollapseWhiteSpace(TrimStart(s[1..]))
    else [s[0]] + CollapseWhiteSpace(s[1..])
  }

  /** The first two steps of `sanitizeText`: trim, then collapse whitespace runs. */
  function Normalize(s: string): string {
    CollapseWhiteSpace(Trim(s))
  }

  /** Whitespace occurs only as single spaces. */
  predicate SingleSpaced(s: string) {
    forall i :: 0 <= i < |s| && IsWhiteSpace(s[i]) ==> s[i] == ' ' && (i + 1 == |s| || !IsWhiteSpace(s[i + 1]))
  }

  /** `sanitizeText(text)`, with the script-tag removal given as `stripScripts`: anything
      but a non-empty string gives "", otherwise the normalised text with its scripts
      removed, cut to its first 1000 characters. */
  function SanitizeText(text: Value, stripScripts: string -> string): (r: string)
    ensures |r| <= SanitizedLength
    ensures !IsText(text) ==> r == ""
    ensures IsText(text) ==>
      var stripped := stripScripts(Normalize(text.s));
      && |r| <= |stripped| && r == stripped[..|r|]
      && (|stripped| <= SanitizedLength ==> r == stripped)
      && (|stripped| > SanitizedLength ==> |r| == SanitizedLength)
  {
    if !Truthy(text) || !text.Str? then ""
    else
      var stripped := stripScripts(Normalize(text.s));
      stripped[..if |stripped| < SanitizedLength then |stripped| else SanitizedLength]
  }

  /** Collapsing keeps a string empty or not, and keeps whether it starts with whitespace. */
  lemma CollapseFirst(s: string)
    ensures CollapseWhiteSpace(s) == [] <==> s == []
    ensures s != [] ==> (IsWhiteSpace(CollapseWhiteSpace(s)[0]) <==> IsWhiteSpace(s[0]))
  {
  }

  /** Collapsing keeps whether a string ends with whitespace. */
  lemma {:induction false} CollapseLast(s: string)
    requires s != []
    ensures var r := CollapseWhiteSpace(s);
      r != [] && (IsWhiteSpace(r[|r| - 1]) <==> IsWhiteSpace(s[|s| - 1]))
    decreases |s|
  {
    var r := CollapseWhiteSpace(s);
    CollapseFirst(s);
    if IsWhiteSpace(s[0]) {
      var t := TrimStart(s[1..]);
      var k := TrimStartSplit(s[1..]);
      if t == [] {
        TrimStartEmpty(s[1..]);
        assert r == [' '];
        if |s| > 1 {
          assert s[|s| - 1] == s[1..][|s| - 2];
        }
      } else {
        CollapseLast(t);
        assert t[|t| - 1] == s[|s| - 1];
      }
    } else if |s| > 1 {
      CollapseLast(s[1..]);
    }
  }

  /** After collapsing, whitespace is only ever a single space. */
  lemma {:induction false} CollapseIsSingleSpaced(s: string)
    ensures SingleSpaced(CollapseWhiteSpace(s))
    decreases |s|
  {
    if s != [] {
      var r := CollapseWhiteSpace(s);
      if IsWhiteSpace(s[0]) {
        var t := TrimStart(s[1..]);
        CollapseIsSingleSpaced(t);
        CollapseFirst(t);
        assert forall i :: 1 <= i < |r| ==> r[i] == CollapseWhiteSpace(t)[i - 1];
      } else {
        CollapseIsSingleSpaced(s[1..]);
        assert forall i :: 1 <= i < |r| ==> r[i] == CollapseWhiteSpace(s[1..])[i - 1];
      }
    }
  }

  /** A single-spaced string is left alone by collapsing. */
  lemma {:induction false} CollapseOfSingleSpaced(s: string)
    requires SingleSpaced(s)
    ensures CollapseWhiteSpace(s) == s
  {
    if s != [] {
      assert SingleSpaced(s[1..]) by {
        assert forall i :: 0 <= i < |s[1..]| ==> s[1..][i] == s[i + 1];
      }
      if IsWhiteSpace(s[0]) {
        if |s| > 1 {
          TrimStartOfNonWhiteSpace(s[1..]);
        }
        CollapseOfSingleSpaced(s[1..]);
      } else {
        CollapseOfSingleSpaced(s[1..]);
      }
    }
  }

  /** Collapsing removes whitespace only. */
  lemma {:induction false} CollapseKeepsContent(s: string)
    ensures NonWhiteSpaceOf(CollapseWhiteSpace(s)) == NonWhiteSpaceOf(s)
    decreases |s|
  {
    if s != [] {
      if IsWhiteSpace(s[0]) {
        var t := TrimStart(s[1..]);
        CollapseKeepsContent(t);
        NonWhiteSpaceOfTrim(s[1..]);
        NonWhiteSpaceOfAppend([' '], CollapseWhiteSpace(t));
      } else {
        CollapseKeepsContent(s[1..]);
        NonWhiteSpaceOfAppend([s[0]], CollapseWhiteSpace(s[1..]));
      }
    }
  }

  /** The normalised text has no whitespace at either end, only single spaces inside,
      and the same non-whitespace characters as the input, in the same order. */
  lemma NormalizeMeaning(s: string)
    ensures var r := Normalize(s);
      && (r == [] || (!IsWhiteSpace(r[0]) && !IsWhiteSpace(r[|r| - 1])))
      && SingleSpaced(r)
      && NonWhiteSpaceOf(r) == NonWhiteSpaceOf(s)
      && |r| <= |s|
  {
    var t := Trim(s);
    CollapseFirst(t);
    if t != [] {
      CollapseLast(t);
    }
    CollapseIsSingleSpaced(t);
    CollapseKeepsContent(t);
    NonWhiteSpaceOfTrim(s);
  }

  /** Normalising twice is normalising once. */
  lemma NormalizeIdempotent(s: string)
    ensures Normalize(Normalize(s)) == Normalize(s)
  {
    var r := Normalize(s);
    NormalizeMeaning(s);
    if r != [] {
      TrimStartOfNonWhiteSpace(r);
      TrimEndOfNonWhiteSpace(r);
    }
    CollapseOfSingleSpaced(r);
  }
}
