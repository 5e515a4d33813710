# Geolocated timeline: coordinate parser, post list and validators

This project is a Dafny model of the logic behind a small timeline page. On that page a
user writes a text post and attaches a location typed in by hand. It has three parts:

- **`Coordinates.parseCoordinates`** reads free text such as `51.5, -0.1`, `51.5,-0.1`,
  `[51.5, -0.1]` or `  51.5 , -0.1  `. It yields a latitude and longitude pair, or rejects
  the text with one of five fixed errors, checked in this order:
  - missing input;
  - not exactly two comma-separated parts;
  - a part that is not a number;
  - latitude out of range;
  - longitude out of range.
- **`Timeline`** holds the posts, newest first. `addPost` builds a post record and puts it in
  front of the others.
- **`Validation`** has accumulating validators: post text, a coordinate pair, a file size.
  It also has the rule interpreter with its form-level loop, the rule constructors in
  `Validators`, and the text sanitiser.

The model has these modules:

- `Wrappers` holds `Option` and `Result`.
- `JsValues` models the JavaScript values the functions receive and their truthiness.
- `Strings` models the ECMAScript whitespace class behind `trim` and `\s`, plus decimal
  digits and `String(n)`.
- `JsNumbers` has a decimal-prefix `parseFloat` and `toFixed` on exact reals.
- `Sequences` defines "is a subsequence", which states message order.
- `Coordinates`, `Timelines`, `Validation` and `Validators` model the three parts.
- `CoordinateExamples` restates the parser's test suite as lemmas.

The shape of each part follows the code:

- The parser, `validateRule`, `sanitizeText` and the rule constructors are functions.
- `Timeline` is a class whose `posts` sequence `AddPost` replaces.
- The validators that push onto a local `errors` array are methods.
  - `ValidateTextContent` and `ValidateCoordinates` are proved against functions that list
    their messages (`TextErrors`, `CoordinateErrors`).
  - `ValidateFileSize` pushes at most one message, and its contract states each case
    directly.
  - `validateForm` is a method with the loops of the source.

Modelling choices that affect what is proved:

- **Numbers are exact reals.** `parseFloat` skips leading whitespace and reads an
  optional sign, integer digits and an optional fraction after a point. It ignores
  whatever follows, and gives `None` (NaN) when no digit is found.
- **`toFixed(f)`** is the decimal numeral of the multiple of 10^-f nearest to the value,
  with halves rounded up in magnitude.
- **Lengths and indices count Unicode code points**, not UTF-16 units.

The model follows the code in two cases you might expect to be guarded:

- Whitespace-only coordinate text is not reported as missing input. The guard at
  `src/js/coordinates.js:3` rejects only falsy or non-string input. So `"   "` passes the
  guard, cleans to `""` and fails the two-part check at line 14 (`Coordinates.ParseBlank`).
- `addPost` has no empty-content guard, and neither does the model.

A third oddity is left as it is. `src/js/app.js:3` imports a named `parseCoordinates` that
`coordinates.js` does not export. The tests call the static method, which is what the model
has.

## Model

| member | source | states |
|---|---|---|
| Coordinates.ParseCoordinates | src/js/coordinates.js:2-40 | Every input gets an answer. A pair that is accepted has latitude in [-90, 90] and longitude in [-180, 180], bounds included. The missing-input error comes exactly for input that is not a non-empty string. |
| Coordinates.MessagesDistinct | src/js/coordinates.js:4-30 | The five error kinds throw five different messages, so each message names exactly one failed check. |
| Coordinates.Split | src/js/coordinates.js:12 | `split(',')` always gives at least one part. |
| Coordinates.SplitLength | src/js/coordinates.js:12 | The split gives one more part than the text has commas. |
| Coordinates.SplitAtOnlyComma | src/js/coordinates.js:12 | Two comma-free pieces joined by one comma split back into exactly those two pieces. |
| Coordinates.CleanCommaCount | src/js/coordinates.js:7-10 | Collapsing comma space, stripping brackets and trimming never add or remove a comma. |
| Coordinates.CollapseAroundComma | src/js/coordinates.js:8 | Around a single comma, the whitespace on both sides disappears and the rest is untouched. |
| Coordinates.CollapseWithoutComma | src/js/coordinates.js:8 | Text without a comma is left unchanged by the comma-space replacement. |
| Coordinates.StripBracketsAppend | src/js/coordinates.js:9 | Bracket removal works piecewise on a concatenation. |
| Coordinates.StripBracketsCount | src/js/coordinates.js:9 | Bracket removal keeps the number of every other kind of character. |
| Coordinates.ParseSegmentCount | src/js/coordinates.js:12-16 | A non-empty string is rejected for its segment count exactly when it does not hold exactly one comma. This covers no comma at all and two or more commas. |
| Coordinates.ParseBlank | src/js/coordinates.js:3-16 | Whitespace-only text passes the emptiness guard and is rejected for its segment count. |
| Coordinates.ParseOneComma | src/js/coordinates.js:7-18 | With one comma, cleaning acts on the two sides separately. The parse is then the two-number check of the cleaned sides. |
| Coordinates.ParseNotNumbers | src/js/coordinates.js:18-23 | With one comma, the not-a-number error comes exactly when either cleaned side has no numeric prefix. |
| Coordinates.ParseWithoutDigits | src/js/coordinates.js:18-23 | A side without any digit makes the pair not-a-number. |
| Coordinates.ParseRangeChecks | src/js/coordinates.js:25-39 | Once both sides read as numbers, the latitude error comes exactly when latitude is out of range, whatever the longitude. The longitude error comes exactly when latitude is in range and longitude is not. Success comes exactly when both are in range, and then returns exactly the numbers read. |
| Coordinates.ParsePairAccepts | src/js/coordinates.js:18-39 | Two numerals that read as in-range numbers give exactly that pair. |
| Coordinates.ParseIgnoresNotation | src/js/coordinates.js:7-18 | Whitespace and brackets around either numeral, before or after the comma, do not change the result. |
| Coordinates.ParseNotations | src/js/coordinates.js:7-18 | The four notations `a, b`, `a,b`, `[a, b]` and `  a , b  ` parse to one and the same result for any two bare numerals. |
| Coordinates.FixedIsPlain | src/js/coordinates.js:37 | A `toFixed` numeral holds only digits, a point and a sign. |
| Coordinates.FormatRoundTrip | src/js/coordinates.js:33-39 | Printing an in-range pair with `toString` and parsing the text again gives the pair rounded to five decimals. |
| CoordinateExamples.TestedNotations | src/tests/coordinates.test.js:4-26 | The four tested spellings of 51.50851, -0.12572 all parse to exactly that pair. |
| CoordinateExamples.TestedSingleNumber | src/tests/coordinates.test.js:28-32 | A lone number is rejected for its segment count. |
| CoordinateExamples.TestedLetters | src/tests/coordinates.test.js:34-38 | `abc, def` is rejected as not numbers. |
| CoordinateExamples.TestedLatitude | src/tests/coordinates.test.js:40-44 | Latitude 91 is rejected with the latitude error. |
| CoordinateExamples.TestedLongitude | src/tests/coordinates.test.js:46-50 | Longitude -181 is rejected with the longitude error. |
| CoordinateExamples.TestedMissing | src/tests/coordinates.test.js:52-62 | The empty string and `null` are rejected as missing input. |
| CoordinateExamples.LatitudeNumeral | src/tests/coordinates.test.js:6 | `51.50851` reads as exactly 51.50851. |
| CoordinateExamples.LongitudeNumeral | src/tests/coordinates.test.js:7 | `-0.12572` reads as exactly -0.12572. |
| CoordinateExamples.ParsePairRejects | src/js/coordinates.js:25-31 | An out-of-range latitude is reported before the longitude is looked at. |
| JsNumbers.LeadingDigits | src/js/coordinates.js:18-19 | The digit prefix `parseFloat` reads is the longest run of digits at the front. |
| JsNumbers.ParseFloatSkipsWhiteSpace | src/js/coordinates.js:18-19 | Leading whitespace does not change what `parseFloat` reads. |
| JsNumbers.ParseFloatOfDigits | src/js/coordinates.js:18-19 | A run of digits reads as its decimal value, whatever non-numeric text follows. |
| JsNumbers.ParseFloatOfDecimal | src/js/coordinates.js:18-19 | A numeral `a.b` reads as its decimal value. |
| JsNumbers.ParseFloatOfNegated | src/js/coordinates.js:18-19 | A minus sign in front of a numeral negates its value. |
| JsNumbers.ParseFloatWithoutDigit | src/js/coordinates.js:18-21 | Text without a digit reads as NaN. |
| JsNumbers.ParseFloatOfIntToString | src/js/coordinates.js:18-19 | An integer printed in decimal reads back as itself. |
| JsNumbers.ParseFloatOfPointString | src/js/coordinates.js:37 | The point layout of n / 10^f reads back as n / 10^f. |
| JsNumbers.ParseFloatOfToFixed | src/js/coordinates.js:37 | Parsing `x.toFixed(f)` gives `x` rounded to f decimals. |
| JsNumbers.RoundFixedIsNearest | src/js/validation.js:142 | Scaled by 10^f, the value `toFixed(f)` denotes lies within one half of the scaled value. |
| JsNumbers.FixedScaledIsNearest | src/js/validation.js:142 | For a non-negative value the digits `toFixed` picks are the nearest integer after scaling, halves up. |
| JsNumbers.RoundFixedWithin | src/js/coordinates.js:37 | Rounding keeps a value inside any integer bound it was inside. |
| JsNumbers.PointStringParts | src/js/validation.js:142 | With f > 0 decimals the layout is `a.b`. Exactly f digits follow the point, and all the digits together spell `n`. |
| Strings.TrimStart | src/js/coordinates.js:10 | The start-trimmed text is no longer and does not begin with whitespace. |
| Strings.TrimEnd | src/js/coordinates.js:10 | The end-trimmed text is a prefix of the input. It does not end with whitespace, and only whitespace was cut. |
| Strings.Trim | src/js/validation.js:14 | The trimmed text has no whitespace at either end and is no longer than the input. |
| Strings.TrimSurrounded | src/js/validation.js:14 | Trimming removes exactly the surrounding whitespace and nothing else. |
| Strings.TrimOfWhiteSpace | src/js/validation.js:14-16 | Whitespace-only text trims to the empty string. |
| Strings.TrimStartSplit | src/js/coordinates.js:10 | What start-trimming cuts off is whitespace, and what it keeps is the rest of the text. |
| Strings.NatToString | src/js/validation.js:21 | `String(n)` is non-empty decimal digits of value `n`, without a leading zero. |
| Strings.NonWhiteSpaceOfTrim | src/js/validation.js:236 | Trimming keeps every non-whitespace character in order. |
| Strings.CountOfTrim | src/js/coordinates.js:10 | Trimming keeps the number of every non-whitespace kind of character. |
| Timelines.Timeline.constructor | src/js/timeline.js:2-5 | A new timeline has no posts. |
| Timelines.Timeline.AddPost | src/js/timeline.js:7-17 | The new post goes in front and the count grows by one. Index 0 holds the given content, coordinates and type ("text" when none is given, line 7), with the clock values as id and timestamp. The earlier posts follow unchanged and in order, and the list stays newest-first when the clock has not gone back. |
| Timelines.NewestFirstByNeighbours | src/js/timeline.js:16 | The list is newest-first exactly when each post is at least as recent as the next. |
| Timelines.PrependNewestFirst | src/js/timeline.js:9-16 | Putting a post in front of a newest-first list keeps it newest-first exactly when the list is empty or the new id is at least the old front's. |
| Validation.ValidateTextContent | src/js/validation.js:8-38 | Valid exactly when there are no errors. Input that is not a non-empty string gets exactly the empty-text error. For a string, each of the four checks on the trimmed text reports its message exactly when it fails, in check order, and never the empty-text error. Whitespace-only text gets exactly the blank, too-short and no-letters errors. |
| Validation.TextErrorsMeaning | src/js/validation.js:14-31 | Each text check reports its own message exactly when it fails. The messages come in the order the checks are made. |
| Validation.BlankTextErrors | src/js/validation.js:14-31 | Whitespace-only text fails exactly three checks: blank, shorter than two characters, no letter or digit. |
| Validation.TextMessagesDistinct | src/js/validation.js:12-30 | The five text messages are pairwise different, whatever the length limit. |
| Validation.ValidateCoordinates | src/js/validation.js:46-65 | Valid exactly when there are no errors, and that is exactly when both values are numbers in [-90, 90] and [-180, 180]. Each message is present exactly when its check fails. There is at most one per axis, the latitude's first, so at most two. |
| Validation.CoordinateErrorsMeaning | src/js/validation.js:49-59 | The same properties, for the message list the two axis checks produce. |
| Validation.AxisErrorsOrder | src/js/validation.js:49-53 | An axis's message comes in the order of its two checks. |
| Validation.ValidateFileSize | src/js/validation.js:134-150 | Valid exactly when there are no errors, and that is exactly when the size is a number in (0, maxSize]. There is at most one message: not a number, not positive, or too large, each exactly in its case. |
| Validation.SizeMessagesDistinct | src/js/validation.js:138-143 | The three size messages are pairwise different, whatever the limit. |
| Validation.DefaultSizeMessage | src/js/validation.js:134-143 | With the default limit of 50 * 1024 * 1024 bytes, the too-large message names "50.00 MB". |
| Validation.ValidateRule | src/js/validation.js:189-225 | A failing rule always returns a non-empty message. |
| Validation.RequiredRule | src/js/validation.js:193-197 | `required` fails exactly on `undefined`, `null`, `false`, NaN and the empty string: the falsy values other than 0. |
| Validation.LengthRules | src/js/validation.js:199-209 | `minLength` and `maxLength` fail exactly when the value is truthy, has a length and exceeds the limit in their direction. They never fail on a falsy value. |
| Validation.PatternRule | src/js/validation.js:211-215 | A `pattern` rule never fails on a falsy value, whatever its regex. On a truthy value it fails exactly when the regex rejects it, with the rule's message or the default. |
| Validation.CustomRule | src/js/validation.js:217-221 | A `custom` rule without a validator never fails. With one, it fails exactly when the validator rejects the value, and falsy values are not exempt. The message is the rule's or the default. |
| Validation.FalsyContrast | src/js/validation.js:211-221 | On `null` a `pattern` rule passes whatever its regex, while a `custom` rule whose validator rejects everything fails with its message. |
| Validation.UnknownRule | src/js/validation.js:192-224 | A rule type outside the five known ones returns null. |
| Validation.SuppliedMessage | src/js/validation.js:195-219 | A non-empty message in the rule is returned in place of the default. |
| Validation.CollectFieldErrors | src/js/validation.js:165-172 | The inner loop collects the messages of a field's failing rules, in rule order. |
| Validation.FieldErrorsAppend | src/js/validation.js:167-172 | Rules checked one after another report the messages of both groups, in order. |
| Validation.FieldErrorsEmpty | src/js/validation.js:167-174 | A field has no messages exactly when every one of its rules passes. |
| Validation.FieldErrorsFromRules | src/js/validation.js:167-172 | Each reported message is the non-empty message of some failing rule, and there are no more messages than rules. |
| Validation.ValidateForm | src/js/validation.js:158-181 | The errors object is the one the field-by-field loop builds. `isValid` is true exactly when it is empty, and that is exactly when every field passes every rule. |
| Validation.FormErrorsKeys | src/js/validation.js:162-177 | Only fields named in the rules get an entry. |
| Validation.FormErrorsEntries | src/js/validation.js:162-177 | A field has an entry exactly when one of its rules fails. The entry lists the messages of its failing rules, in rule order. |
| Validation.FormEntry | src/js/validation.js:174-176 | The same, for a single field whose name no other field has. |
| Validation.FormErrorsEmpty | src/js/validation.js:174-180 | The errors object is empty exactly when every field passes every rule. |
| Validation.SanitizeText | src/js/validation.js:232-240 | Input that is not a non-empty string gives "". Otherwise the result is the script-stripped normalised text cut to its first 1000 characters: all of it when it fits, exactly 1000 characters when it does not. |
| Validation.CollapseWhiteSpace | src/js/validation.js:237 | Collapsing whitespace runs never lengthens the text. |
| Validation.CollapseIsSingleSpaced | src/js/validation.js:237 | After collapsing, whitespace occurs only as single spaces. |
| Validation.CollapseOfSingleSpaced | src/js/validation.js:237 | Single-spaced text is left alone by collapsing. |
| Validation.CollapseKeepsContent | src/js/validation.js:237 | Collapsing removes whitespace only: the other characters stay, in order. |
| Validation.CollapseLast | src/js/validation.js:237 | Collapsing keeps whether the text ends with whitespace. |
| Validation.NormalizeMeaning | src/js/validation.js:235-237 | Before script removal, the text has no whitespace at either end and only single spaces inside. It keeps every other character of the input, in order. |
| Validation.NormalizeIdempotent | src/js/validation.js:235-237 | Trimming and collapsing a second time changes nothing. |
| Validators.Required | src/js/validation.js:276-279 | A `required` rule fails exactly on the falsy values other than 0, with the given non-empty message or the default one. |
| Validators.MinLength | src/js/validation.js:281-284 | A `minLength` rule fails exactly on truthy values shorter than the length. Its message is the given one, or one that names the length. |
| Validators.MaxLength | src/js/validation.js:286-289 | A `maxLength` rule fails exactly on truthy values longer than the length. Its message is the given one, or one that names the length. |
| Validators.Pattern | src/js/validation.js:291-294 | A `pattern` rule always has its regex. It fails exactly on truthy values the regex rejects, with the given or the default message. |
| Validators.Custom | src/js/validation.js:296-299 | A `custom` rule fails exactly on values the validator rejects, with the given or the default message. |

## Left out

- `src/js/app.js` is not part of this model. It is page wiring: element lookups, event
  listeners and showing or hiding the location dialog.
- `Coordinates.getCurrentPosition` (`src/js/coordinates.js:42-66`) is left out. It is an
  asynchronous browser geolocation call.
- `Timeline.render` and `createPostElement` (`src/js/timeline.js:17-47`) are left out. They
  build page markup, and `AddPost` models only the state change.
- `Date.now()` and `new Date()` are not modelled as clocks. They are the `now` and `date`
  parameters of `AddPost`, and the timestamp is kept as milliseconds.
- `validateMediaUrl` depends on the browser's `URL` parser, so it is left out.
- `validateDate` depends on `Date` objects and the wall clock, so it is left out.
- `isMediaFormatSupported` asks the browser's media elements, so it is left out.
- IEEE-754 doubles are not modelled.
  - Numbers are exact reals.
  - `parseFloat` reads no exponent and no `Infinity`, and has no rounding.
  - The model has no negative zero.
  - Numbers from `1e21` up, where `toFixed` switches to exponent form, are still printed as
    decimals.
- Coordinates.ParseCoordinates inherits this `parseFloat` simplification. On `"Infinity, 0"`
  the source reads latitude Infinity and throws the latitude range error (lines 18 and
  25-27). The model reads no number there and returns `Err(NotANumber)`. On `"1e3, 0"` the
  source reads latitude 1000 and rejects it. The model reads the prefix `1` and accepts the
  pair (1, 0).
- Coordinates.FormatRoundTrip is an extra: its round trip holds for exact reals. With
  binary doubles, printing with five decimals is not exactly invertible.
- Validation.SanitizeText does not model the script-tag regular expression. It is the
  parameter `stripScripts`, so nothing is stated about what that step removes. The result is
  stated in terms of its output.
- The `pattern` and `custom` rules take the regex test and the validator as given predicates
  on values.
- Validation.ValidateRule requires, through `RuleApplies`, a regex on a `pattern` rule that
  meets a truthy value. The source throws a `TypeError` there, and the model does not cover
  that exception.
- Validation.ValidateRule models `params.value` as an optional integer. The comparison of
  a length with a non-numeric limit is left out.
- Validation.ValidateTextContent takes `maxLength` as an integer. A fractional or
  non-numeric limit is left out.
- Rule messages are strings. A truthy non-string `message` is left out.
- String lengths count code points, not UTF-16 units. The 1000-character limits therefore
  differ from the source on text outside the Basic Multilingual Plane.
- Validation.ValidateForm visits the rule entries in sequence order. It requires distinct
  field names, as the keys of an object are. Inherited or non-enumerable keys are left out.
