# Romanian CNP validator, modelled in Dafny

The modelled library has one public operation, `CnpValidator.IsCnpValid`. It
decides whether a string is a valid Romanian personal numeric code (CNP). A CNP
has thirteen decimal digits:

- digit 0 is the sex/century digit;
- digits 1..6 are the birth date as YYMMDD;
- digits 7..8 are the county code;
- digits 9..11 are a serial number;
- digit 12 is the control digit.

The operation rejects null and empty input. It trims surrounding white space and
demands exactly thirteen digits. Then it turns the characters into a digit list
and runs four checks in order: the sex digit, the birth date, the county code and
the checksum. The checksum is a weighted sum of the first twelve digits, taken
modulo 11, with 10 replaced by 1.

The project has four modules:

- `Optional` (Optional.dfy): the `Option` type. `None` stands for a null input
  and for a `DateOnly` construction that throws.
- `Text` (Text.dfy): `String.Trim`, `char.IsDigit` and single-digit `int.Parse`,
  with the inverse `Render`.
- `Calendar` (Calendar.dfy): the `DateOnly` constructor, as a Gregorian
  calendar-validity predicate and an `Option`-returning constructor.
- `CnpValidator` (CnpValidator.dfy): the checks, the century table, the
  checksum, the pure meaning `CnpValid` of the whole validation, and the
  imperative `IsCnpValid` and `GetCnpAlgorithmSum` methods proved against it.

The source builds its digit list with a loop. It accumulates the weighted sum in
a `for` loop and then changes `calculatedControlNr` in place. Those parts are
methods with loop invariants. The sex, county, century and date checks are
expressions in the source, so they are functions here.

Two behaviours of the code are worth knowing; the model keeps both:

- Rows 7, 8 and 9 of the century table declare the span 1800..2099
  (CnpValidation/CnpValidator.cs:105-107), but only the lower bound of a row is
  read (CnpValidation/CnpValidator.cs:66). So digits 7..9 always give a year in
  1800..1899 (`ForeignDigitsMeanEighteenHundreds`). A 29 February in year "00"
  is therefore rejected for them, although 2000-02-29 exists
  (`LeapDayOfYearZero`).
- County codes normally run 01..52. The code has no lower bound, so county 00
  passes (CnpValidation/CnpValidator.cs:51, `IsCountryAreaValid`).

## Model

| member | source | states |
|---|---|---|
| Text.IsWhiteSpace | CnpValidation/CnpValidator.cs:20 | a character is removed by trimming exactly when it is in the fixed white-space set of char.IsWhiteSpace |
| Text.TrimStart | CnpValidation/CnpValidator.cs:20 | the result is a suffix of the input; every dropped character is white space; the result does not start with white space |
| Text.TrimEnd | CnpValidation/CnpValidator.cs:20 | the result is a prefix of the input; every dropped character is white space; the result does not end with white space |
| Text.Trim | CnpValidation/CnpValidator.cs:20 | the trimmed string is no longer than the input and neither starts nor ends with white space |
| Text.TrimIsInfix | CnpValidation/CnpValidator.cs:20 | trimming keeps one contiguous run of the input and removes only white space before and after it |
| Text.TrimIdempotent | CnpValidation/CnpValidator.cs:20 | trimming twice gives the same string as trimming once |
| Text.TrimUnchanged | CnpValidation/CnpValidator.cs:20 | a string with no white space at either end is left unchanged by trimming |
| Text.IsDigit | CnpValidation/CnpValidator.cs:23 | a character passes char.IsDigit when it is one of '0'..'9' |
| Text.DigitIsNotWhiteSpace | CnpValidation/CnpValidator.cs:20-23 | no digit is white space, so trimming never removes a digit |
| Text.AllDigits | CnpValidation/CnpValidator.cs:23 | `All(char.IsDigit)`: every character of the string is a digit |
| Text.DigitValue | CnpValidation/CnpValidator.cs:27 | parsing one digit character gives a value in 0..9 |
| Text.DigitChar | CnpValidation/CnpValidator.cs:27 | each value 0..9 has a digit character that parses back to it |
| Text.DigitCharOfValue | CnpValidation/CnpValidator.cs:27 | the character of a parsed digit is the original character, so single-digit parsing is injective |
| Text.DigitsOf | CnpValidation/CnpValidator.cs:26-27 | the digit list has one element per character and every element is in 0..9 |
| Text.DigitsOfAt | CnpValidation/CnpValidator.cs:26-27 | element i of the digit list is the value of character i, so leading zeros are kept and nothing is reordered |
| Text.Render | CnpValidation/CnpValidator.cs:26-27 | a list of digit values spells a digit string of the same length |
| Text.DigitsOfRender | CnpValidation/CnpValidator.cs:26-27 | converting a rendered digit list back gives the same list |
| Text.RenderDigitsOf | CnpValidation/CnpValidator.cs:26-27 | rendering the digit list of a digit string gives the string back, so the conversion loses nothing |
| Calendar.IsLeapYear | CnpValidation/CnpValidator.cs:73 | the Gregorian leap rule: divisible by 4, and century years only when divisible by 400 |
| Calendar.DaysInMonth | CnpValidation/CnpValidator.cs:73 | a month has between 28 and 31 days |
| Calendar.DaysBeforeMonth | CnpValidation/CnpValidator.cs:73 | the number of days before a month is at most 31 per earlier month; this count and the DaysToMonth365/366 tables have no counterpart in the source and exist only to check DaysInMonth against the cumulative day tables |
| Calendar.DaysBeforeMonthMatchesTable | CnpValidation/CnpValidator.cs:73 | the month lengths add up to the cumulative day tables of a common and a leap year, so a year has 365 or 366 days |
| Calendar.IsValidDate | CnpValidation/CnpValidator.cs:73 | a date is real when its year is 1..9999, its month 1..12 and its day between 1 and the month's length |
| Calendar.NewDateOnly | CnpValidation/CnpValidator.cs:71-79 | the constructor succeeds exactly for a real date in years 1..9999; a constructed date has the given year, month and day; otherwise the result is an ordinary None, not an error |
| Calendar.LeapDay | CnpValidation/CnpValidator.cs:73 | 29 February is a valid date exactly in leap years |
| Calendar.CenturyLeapYears | CnpValidation/CnpValidator.cs:73 | 1800 and 1900 are not leap years; 2000 is |
| CnpValidator.Range | CnpValidation/CnpValidator.cs:53 | Enumerable.Range(start, count) has count elements |
| CnpValidator.RangeContains | CnpValidation/CnpValidator.cs:53 | a value is in Range(start, count) exactly when start <= value < start + count |
| CnpValidator.IsSexValid | CnpValidation/CnpValidator.cs:53 | the sex/century digit passes exactly when it is 1..9; 0 is rejected |
| CnpValidator.SexCheckIsRangeMembership | CnpValidation/CnpValidator.cs:53 | the sex check (digit in 1..9, so 0 fails) is exactly membership in Enumerable.Range(1, 9) |
| CnpValidator.IsCountryAreaValid | CnpValidation/CnpValidator.cs:51 | for digits, the county check passes exactly when the code is at most 52: 00 and 52 pass, 53 and 99 fail |
| CnpValidator.GetCentury | CnpValidation/CnpValidator.cs:95-111 | the table has a row exactly for the digits 1..9; every row starts at a century year and spans at least 100 years |
| CnpValidator.CenturyBase | CnpValidation/CnpValidator.cs:66 | the year offset counts from 1800, 1900 or 2000 |
| CnpValidator.BirthDate | CnpValidation/CnpValidator.cs:66-68 | the rebuilt year lies in [base, base + 99]; month and day are two-digit numbers |
| CnpValidator.IsCnpDateValid | CnpValidation/CnpValidator.cs:61-82 | the date check passes exactly when digits 1..6 form a real Gregorian date; an impossible month or day gives false |
| CnpValidator.DateDigits | CnpValidation/CnpValidator.cs:66-68 | a date in a century window is spelled by six digits |
| CnpValidator.TwoDigits | CnpValidation/CnpValidator.cs:66-68 | a two-digit number and its tens and units digits determine each other |
| CnpValidator.BirthDateDigits | CnpValidation/CnpValidator.cs:66-68 | decoding the date digits and encoding the date again gives the same six digits |
| CnpValidator.DateDigitsBirthDate | CnpValidation/CnpValidator.cs:61-82 | a date in the window, written as digits, decodes to itself; the date check accepts it exactly when it is a real date |
| CnpValidator.YearWithinDeclaredSpan | CnpValidation/CnpValidator.cs:97-108 | the rebuilt year always lies within the row's declared span and within 1800..2099, so the unread upper bound never matters and neither does DateOnly's year range |
| CnpValidator.ForeignDigitsMeanEighteenHundreds | CnpValidation/CnpValidator.cs:105-107 | with sex digit 7, 8 or 9 the rebuilt year is always in 1800..1899 |
| CnpValidator.LeapDayOfYearZero | CnpValidation/CnpValidator.cs:64-79 | 29 February of year 00 passes with digit 5 (2000) and fails with digit 1 (1900) and with digit 7 (1800) |
| CnpValidator.WeightedSum | CnpValidation/CnpValidator.cs:85-93 | the sum over all positions of digit times weight |
| CnpValidator.WeightedSumBounds | CnpValidation/CnpValidator.cs:85-93 | with digits 0..9 and non-negative weights, the weighted sum lies between 0 and 9 times the total weight |
| CnpValidator.AlgorithmKeyTotal | CnpValidation/CnpValidator.cs:13 | the twelve weights add up to 63 |
| CnpValidator.WeightedSumStep | CnpValidation/CnpValidator.cs:89-90 | one more position adds that digit times its weight to the sum |
| CnpValidator.AlgorithmSumExpanded | CnpValidation/CnpValidator.cs:85-93 | the checksum equals the sum of d[i] * w[i] for i in 0..11, with the weights 2,7,9,1,4,6,3,5,8,2,7,9 |
| CnpValidator.AlgorithmSumBounds | CnpValidation/CnpValidator.cs:85-93 | the checksum of any twelve digits lies in 0..567 |
| CnpValidator.GetCnpAlgorithmSum | CnpValidation/CnpValidator.cs:85-93 | the loop returns the weighted sum of the first twelve digits and weights |
| CnpValidator.ControlDigit | CnpValidation/CnpValidator.cs:36-39 | the expected control digit is always a single digit 0..9, because remainder 10 is replaced by 1 |
| CnpValidator.ControlDigitUnique | CnpValidation/CnpValidator.cs:41-42 | for any first twelve digits, exactly one last digit makes the checksum hold |
| CnpValidator.RemainderTenNeedsOne | CnpValidation/CnpValidator.cs:38-39 | when the sum leaves remainder 10, the checksum holds exactly when the control digit is 1 |
| CnpValidator.HasValidFormat | CnpValidation/CnpValidator.cs:17-24 | the format gate: not null, not empty, and thirteen digits once trimmed, so the raw input has at least thirteen characters |
| CnpValidator.DigitsValid | CnpValidation/CnpValidator.cs:33-42 | a digit list passes when the sex, date and county checks hold and its last digit is the expected control digit |
| CnpValidator.CnpValid | CnpValidation/CnpValidator.cs:11-49 | the verdict of the whole validation: the format gate holds and the digits of the trimmed string pass every check |
| CnpValidator.IsCnpValid | CnpValidation/CnpValidator.cs:11-49 | the method's verdict is the format gate followed by the sex, date, county and checksum checks on the digits of the trimmed string |
| CnpValidator.MalformedRejected | CnpValidation/CnpValidator.cs:17-24 | null, empty, wrong-length after trimming, and non-digit input are all rejected |
| CnpValidator.DependsOnlyOnTrimmed | CnpValidation/CnpValidator.cs:20 | a string and its trimmed form always get the same verdict |
| CnpValidator.SexZeroRejected | CnpValidation/CnpValidator.cs:53 | a digit list with first digit 0 fails the checks |
| CnpValidator.CorruptedControlDigitRejected | CnpValidation/CnpValidator.cs:41-42 | replacing the control digit of a valid code by any other digit gives an invalid code |
| CnpValidator.ControlDigitDecides | CnpValidation/CnpValidator.cs:36-42 | two digit lists with the same first twelve digits and different last digits cannot both pass the checks |
| CnpValidator.SerialOnlyAffectsChecksum | CnpValidation/CnpValidator.cs:33-42 | the serial digits 9..11 enter only the checksum: with digits 0..8 fixed, any serial passes once its control digit matches |
| CnpValidator.ExampleDigits | CnpValidation/CnpValidator.cs:26-27 | the example string "1800101221144" has the digit list 1,8,0,0,1,0,1,2,2,1,1,4,4 |
| CnpValidator.ExampleDigitsValid | CnpValidation/CnpValidator.cs:33-42 | that digit list passes all four checks: 1980-01-01, county 22, sum 136, control digit 4 |
| CnpValidator.ExampleValid | CnpValidation/CnpValidator.cs:11-49 | "1800101221144" is valid |
| CnpValidator.ExampleControlChanged | CnpValidation/CnpValidator.cs:41-42 | "1800101221145" is rejected |
| CnpValidator.ExampleAllZeros | CnpValidation/CnpValidator.cs:53 | "0000000000000" is rejected |

## Left out

- `char.IsDigit` also accepts non-ASCII Unicode decimal digits, such as the Arabic-Indic digits U+0660..U+0669. For such input the source throws an uncaught FormatException from `int.Parse` (CnpValidation/CnpValidator.cs:27); the model accepts only '0'..'9' and returns false.
- C# strings are sequences of UTF-16 code units, while the model's strings are sequences of Unicode scalar values. So `Length` differs for characters outside the Basic Multilingual Plane, and a lone surrogate cannot be represented. The verdicts still agree: no such character is a digit or white space, and surrogates fail `char.IsDigit`.
- `String.Trim` is modelled with the fixed set of characters that `char.IsWhiteSpace` reports: the Unicode space, line and paragraph separators, U+0009..U+000D and U+0085. Changes to that set in other Unicode versions are not modelled.
- `DateOnly` stores a day number and computes year, month and day back from it. The model keeps the three fields as they are. So the comparison at CnpValidation/CnpValidator.cs:74 is modelled as written, but it always holds.
- The `Dictionary` and `List` objects built on every call (CnpValidation/CnpValidator.cs:13, CnpValidation/CnpValidator.cs:95-111) are constant sequences and a constant map.
- 32-bit `int` arithmetic is not modelled. No value can overflow: the sum is at most 567 and the year at most 2099. The sum is never negative, so C#'s truncating `%` agrees with Dafny's.
- CnpValidator.IsCnpDateValid requires a sex digit in 1..9. For any other key the table lookup throws. The only caller checks the sex digit first.
- CnpValidator.GetCnpAlgorithmSum requires at least twelve digits and twelve weights. With fewer, the list indexing throws. The only caller passes thirteen digits and twelve weights.
- Calling `IsCnpValid` twice on the same input always gives the same result. The model's functions are pure, so this is not stated as a lemma.
