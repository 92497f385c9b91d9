/** Validation of the Romanian personal numeric code (CNP): thirteen decimal
    digits holding a sex/century digit, a birth date, a county code, a serial
    number and a control digit. */
module CnpValidator {
  import opened Optional
  import opened Text
  import opened Calendar

  /** The weights of the control-digit algorithm, one per digit 0..11. */
  const AlgorithmKeys: seq<int> := [2, 7, 9, 1, 4, 6, 3, 5, 8, 2, 7, 9]

  // ---------------------------------------------------------------------
  // Sex / century digit

  /** Enumerable.Range(start, count): the integers start, start + 1, ... */
  function Range(start: int, count: nat): (r: seq<int>)
    ensures |r| == count
    decreases count
  {
    if count == 0 then [] else [start] + Range(start + 1, count - 1)
  }

  lemma {:induction false} RangeContains(start: int, count: nat, x: int)
    ensures x in Range(start, count) <==> start <= x < start + count
    decreases count
  {
    if count > 0 {
      RangeContains(start + 1, count - 1, x);
    }
  }

  /** The sex/century digit is one of 1..9; 0 is rejected. */
  predicate IsSexValid(sex: int) {
    1 <= sex <= 9
  }

  /** The interval test is the source's membership test in
      Enumerable.Range(1, 9). */
  lemma SexCheckIsRangeMembership(sex: int)
    ensures IsSexValid(sex) <==> sex in Range(1, 9)
  {
    RangeContains(1, 9, sex);
  }

  // ---------------------------------------------------------------------
  // County code

  /** The county code, digits 7 and 8 read as a two-digit number, is at most
      52; there is no lower bound, so 00 passes. */
  function IsCountryAreaValid(digits: seq<int>): (valid: bool)
    requires |digits| > 8
    ensures 0 <= digits[8] <= 9 ==>
      (valid <==> digits[7] < 5 || (digits[7] == 5 && digits[8] <= 2))
  {
    10 * digits[7] + digits[8] <= 52
  }

  // ---------------------------------------------------------------------
  // Birth date

  /** A row of the century table: the first and the last year a
      sex/century digit stands for. */
  datatype YearSpan = YearSpan(low: int, high: int)

  /** The century table, keyed by the sex/century digit. Every span starts
      at a century year and covers at least a hundred years. */
  function GetCentury(): (century: map<int, YearSpan>)
    ensures forall sex :: sex in century <==> IsSexValid(sex)
    ensures forall sex :: sex in century ==>
      century[sex].low % 100 == 0 && century[sex].low + 99 <= century[sex].high
  {
    map[1 := YearSpan(1900, 1999),
        2 := YearSpan(1900, 1999),
        3 := YearSpan(1800, 1899),
        4 := YearSpan(1800, 1899),
        5 := YearSpan(2000, 2099),
        6 := YearSpan(2000, 2099),
        7 := YearSpan(1800, 2099),
        8 := YearSpan(1800, 2099),
        9 := YearSpan(1800, 2099)]
  }

  /** The year a two-digit year offset counts from: the lower bound of the
      table row. The upper bound is never read. */
  function CenturyBase(sex: int): (base: int)
    requires IsSexValid(sex)
    ensures base == 1800 || base == 1900 || base == 2000
  {
    GetCentury()[sex].low
  }

  /** The date spelled by digits 1..6 (year offset, month, day). */
  function BirthDate(digits: seq<int>, sex: int): (date: Date)
    requires |digits| > 6 && IsSexValid(sex)
    ensures AreDigits(digits) ==>
      && CenturyBase(sex) <= date.year <= CenturyBase(sex) + 99
      && 0 <= date.month <= 99 && 0 <= date.day <= 99
  {
    Date(CenturyBase(sex) + digits[1] * 10 + digits[2],
         digits[3] * 10 + digits[4],
         digits[5] * 10 + digits[6])
  }

  /** The date check accepts exactly the digit strings that spell a real
      calendar date; an impossible month or day is a plain rejection. */
  function IsCnpDateValid(digits: seq<int>, sex: int): (valid: bool)
    requires |digits| > 6 && IsSexValid(sex)
    ensures valid <==> IsValidDate(BirthDate(digits, sex))
  {
    var date := BirthDate(digits, sex);
    match NewDateOnly(date.year, date.month, date.day)
    case Some(birthDate) =>
      birthDate.year == date.year && birthDate.month == date.month && birthDate.day == date.day
    case None => false
  }

  /** The six digits that spell `date` in the century starting at `base`. */
  function DateDigits(date: Date, base: int): (d: seq<int>)
    requires base <= date.year <= base + 99
    requires 0 <= date.month <= 99 && 0 <= date.day <= 99
    ensures |d| == 6 && AreDigits(d)
  {
    var offset := date.year - base;
    [offset / 10, offset % 10, date.month / 10, date.month % 10, date.day / 10, date.day % 10]
  }

  /** Two digits and the number they spell determine each other. */
  lemma TwoDigits(tens: int, units: int, n: int)
    requires 0 <= tens <= 9 && 0 <= units <= 9 && 0 <= n <= 99
    ensures n == 10 * tens + units <==> (tens == n / 10 && units == n % 10)
  {
  }

  /** Decoding then encoding the date digits gives them back. */
  lemma BirthDateDigits(digits: seq<int>, sex: int)
    requires |digits| == 13 && AreDigits(digits) && IsSexValid(sex)
    ensures DateDigits(BirthDate(digits, sex), CenturyBase(sex)) == digits[1..7]
  {
    var date := BirthDate(digits, sex);
    TwoDigits(digits[1], digits[2], date.year - CenturyBase(sex));
    TwoDigits(digits[3], digits[4], date.month);
    TwoDigits(digits[5], digits[6], date.day);
  }

  /** Encoding a date of the century window then decoding gives the date back,
      so every real date in the window has exactly one spelling the date check
      accepts. */
  lemma DateDigitsBirthDate(date: Date, sex: int, digits: seq<int>)
    requires IsSexValid(sex) && |digits| == 13
    requires CenturyBase(sex) <= date.year <= CenturyBase(sex) + 99
    requires 0 <= date.month <= 99 && 0 <= date.day <= 99
    requires digits[1..7] == DateDigits(date, CenturyBase(sex))
    ensures BirthDate(digits, sex) == date
    ensures IsCnpDateValid(digits, sex) <==> IsValidDate(date)
  {
    var base := CenturyBase(sex);
    assert digits[1] == (date.year - base) / 10 && digits[2] == (date.year - base) % 10;
    assert digits[3] == date.month / 10 && digits[4] == date.month % 10;
    assert digits[5] == date.day / 10 && digits[6] == date.day % 10;
  }

  /** The reconstructed year always lies inside the table row, so the unread
      upper bound could never have rejected anything. */
  lemma YearWithinDeclaredSpan(digits: seq<int>, sex: int)
    requires |digits| == 13 && AreDigits(digits) && IsSexValid(sex)
    ensures GetCentury()[sex].low <= BirthDate(digits, sex).year <= GetCentury()[sex].high
    ensures 1800 <= BirthDate(digits, sex).year <= 2099
  {
  }

  /** Because only the lower bound is read, the digits 7, 8 and 9 always mean
      a year of the 1800s, although their row declares 1800..2099. */
  lemma ForeignDigitsMeanEighteenHundreds(digits: seq<int>, sex: int)
    requires |digits| == 13 && AreDigits(digits) && 7 <= sex <= 9
    ensures 1800 <= BirthDate(digits, sex).year <= 1899
  {
  }

  /** 29 February "00": accepted with digit 5 (the year 2000), rejected with
      digit 1 (1900) and with digit 7 (1800), though 7 declares 2000 as well. */
  lemma LeapDayOfYearZero()
    ensures IsCnpDateValid([5, 0, 0, 0, 2, 2, 9, 0, 0, 0, 0, 0, 0], 5)
    ensures !IsCnpDateValid([1, 0, 0, 0, 2, 2, 9, 0, 0, 0, 0, 0, 0], 1)
    ensures !IsCnpDateValid([7, 0, 0, 0, 2, 2, 9, 0, 0, 0, 0, 0, 0], 7)
  {
    CenturyLeapYears();
    assert CenturyBase(5) == 2000 && CenturyBase(1) == 1900 && CenturyBase(7) == 1800;
    assert BirthDate([5, 0, 0, 0, 2, 2, 9, 0, 0, 0, 0, 0, 0], 5) == Date(2000, 2, 29);
    assert BirthDate([1, 0, 0, 0, 2, 2, 9, 0, 0, 0, 0, 0, 0], 1) == Date(1900, 2, 29);
    assert BirthDate([7, 0, 0, 0, 2, 2, 9, 0, 0, 0, 0, 0, 0], 7) == Date(1800, 2, 29);
  }

  // ---------------------------------------------------------------------
  // Control digit

  /** The sum of digits[i] * keys[i] over all positions. */
  function WeightedSum(digits: seq<int>, keys: seq<int>): int
    requires |digits| == |keys|
  {
    if digits == [] then 0
    else
      var n := |digits| - 1;
      WeightedSum(digits[..n], keys[..n]) + digits[n] * keys[n]
  }

  /** The sum of the weights. */
  function KeyTotal(keys: seq<int>): int {
    if keys == [] then 0 else KeyTotal(keys[..|keys| - 1]) + keys[|keys| - 1]
  }

  /** With digits 0..9 and non-negative weights the weighted sum lies between
      0 and nine times the total weight. */
  lemma {:induction false} WeightedSumBounds(digits: seq<int>, keys: seq<int>)
    requires |digits| == |keys| && AreDigits(digits)
    requires forall i :: 0 <= i < |keys| ==> keys[i] >= 0
    ensures 0 <= WeightedSum(digits, keys) <= 9 * KeyTotal(keys)
  {
    if digits != [] {
      var n := |digits| - 1;
      WeightedSumBounds(digits[..n], keys[..n]);
      assert 0 <= digits[n] * keys[n] <= 9 * keys[n];
    }
  }

  /** The weights add up to 63. */
  lemma AlgorithmKeyTotal()
    ensures KeyTotal(AlgorithmKeys) == 63
  {
    var k := AlgorithmKeys;
    assert k[..0] == [];
    assert KeyTotal(k[..1]) == 2 by { assert k[..1][..0] == k[..0]; }
    assert KeyTotal(k[..2]) == 9 by { assert k[..2][..1] == k[..1]; }
    assert KeyTotal(k[..3]) == 18 by { assert k[..3][..2] == k[..2]; }
    assert KeyTotal(k[..4]) == 19 by { assert k[..4][..3] == k[..3]; }
    assert KeyTotal(k[..5]) == 23 by { assert k[..5][..4] == k[..4]; }
    assert KeyTotal(k[..6]) == 29 by { assert k[..6][..5] == k[..5]; }
    assert KeyTotal(k[..7]) == 32 by { assert k[..7][..6] == k[..6]; }
    assert KeyTotal(k[..8]) == 37 by { assert k[..8][..7] == k[..7]; }
    assert KeyTotal(k[..9]) == 45 by { assert k[..9][..8] == k[..8]; }
    assert KeyTotal(k[..10]) == 47 by { assert k[..10][..9] == k[..9]; }
    assert KeyTotal(k[..11]) == 54 by { assert k[..11][..10] == k[..10]; }
    assert k[..12] == k;
  }

  /** Adding one position to a prefix adds that position's product. */
  lemma WeightedSumStep(digits: seq<int>, keys: seq<int>, i: int)
    requires |digits| == |keys| && 0 <= i < |digits|
    ensures WeightedSum(digits[..i + 1], keys[..i + 1])
      == WeightedSum(digits[..i], keys[..i]) + digits[i] * keys[i]
  {
    assert digits[..i + 1][..i] == digits[..i];
    assert keys[..i + 1][..i] == keys[..i];
  }

  /** The checksum written out position by position. */
  lemma AlgorithmSumExpanded(digits: seq<int>)
    requires |digits| >= 12
    ensures WeightedSum(digits[..12], AlgorithmKeys)
      == 2 * digits[0] + 7 * digits[1] + 9 * digits[2] + 1 * digits[3]
       + 4 * digits[4] + 6 * digits[5] + 3 * digits[6] + 5 * digits[7]
       + 8 * digits[8] + 2 * digits[9] + 7 * digits[10] + 9 * digits[11]
  {
    var d, k := digits[..12], AlgorithmKeys;
    assert d[..0] == [] && k[..0] == [];
    WeightedSumStep(d, k, 0);
    WeightedSumStep(d, k, 1);
    WeightedSumStep(d, k, 2);
    WeightedSumStep(d, k, 3);
    WeightedSumStep(d, k, 4);
    WeightedSumStep(d, k, 5);
    WeightedSumStep(d, k, 6);
    WeightedSumStep(d, k, 7);
    WeightedSumStep(d, k, 8);
    WeightedSumStep(d, k, 9);
    WeightedSumStep(d, k, 10);
    WeightedSumStep(d, k, 11);
    assert d[..12] == d && k[..12] == k;
  }

  /** The checksum of a CNP's first twelve digits lies in 0..567. */
  lemma AlgorithmSumBounds(digits: seq<int>)
    requires |digits| >= 12 && AreDigits(digits)
    ensures 0 <= WeightedSum(digits[..12], AlgorithmKeys) <= 567
  {
    WeightedSumBounds(digits[..12], AlgorithmKeys);
    AlgorithmKeyTotal();
  }

  /** GetCnpAlgorithmSum: accumulates the weighted sum of the first twelve
      digits. */
  method GetCnpAlgorithmSum(cnpsDigits: seq<int>, algorithmKeys: seq<int>)
    returns (cnpAlgorithmSum: int)
    requires |cnpsDigits| >= 12 && |algorithmKeys| >= 12
    ensures cnpAlgorithmSum == WeightedSum(cnpsDigits[..12], algorithmKeys[..12])
  {
    cnpAlgorithmSum := 0;
    for i := 0 to 12
      invariant cnpAlgorithmSum == WeightedSum(cnpsDigits[..i], algorithmKeys[..i])
    {
      assert cnpsDigits[..i + 1][..i] == cnpsDigits[..i];
      assert algorithmKeys[..i + 1][..i] == algorithmKeys[..i];
      cnpAlgorithmSum := cnpAlgorithmSum + cnpsDigits[i] * algorithmKeys[i];
    }
  }

  /** The expected control digit: the weighted sum modulo 11, with 10 replaced
      by 1, so that it is always a single digit. */
  function ControlDigit(digits: seq<int>): (control: int)
    requires |digits| >= 12
    ensures 0 <= control <= 9
  {
    var calculated := WeightedSum(digits[..12], AlgorithmKeys) % 11;
    if calculated == 10 then 1 else calculated
  }

  /** Whatever the first twelve digits, exactly one last digit completes them
      to a code whose checksum holds. */
  lemma ControlDigitUnique(digits: seq<int>, c: int)
    requires |digits| == 12 && 0 <= c <= 9
    ensures ControlDigit(digits + [c]) == c <==> c == ControlDigit(digits)
  {
    assert (digits + [c])[..12] == digits[..12];
  }

  /** When the sum leaves remainder 10 only a control digit of 1 is accepted. */
  lemma RemainderTenNeedsOne(digits: seq<int>)
    requires |digits| == 13
    requires WeightedSum(digits[..12], AlgorithmKeys) % 11 == 10
    ensures ControlDigit(digits) == digits[12] <==> digits[12] == 1
  {
  }

  // ---------------------------------------------------------------------
  // The whole validation

  /** Non-null, non-empty, and thirteen digits once trimmed. */
  predicate HasValidFormat(cnpNumber: Option<string>)
    ensures HasValidFormat(cnpNumber) ==> cnpNumber.Some? && |cnpNumber.value| >= 13
  {
    && cnpNumber.Some?
    && cnpNumber.value != []
    && |Trim(cnpNumber.value)| == 13
    && AllDigits(Trim(cnpNumber.value))
  }

  /** The sex, date, county and checksum checks on a digit list. */
  predicate DigitsValid(digits: seq<int>)
    requires |digits| == 13
  {
    && IsSexValid(digits[0])
    && IsCnpDateValid(digits, digits[0])
    && IsCountryAreaValid(digits)
    && ControlDigit(digits) == digits[12]
  }

  /** The meaning of IsCnpValid: the format gate holds and the digits of the
      trimmed string pass every check. */
  predicate CnpValid(cnpNumber: Option<string>) {
    HasValidFormat(cnpNumber) && DigitsValid(DigitsOf(Trim(cnpNumber.value)))
  }

  /** IsCnpValid: rejects null, empty and malformed input, builds the digit
      list, then runs the sex, date and county checks and compares the
      control digit. */
  method IsCnpValid(cnpNumber: Option<string>) returns (valid: bool)
    ensures valid == CnpValid(cnpNumber)
  {
    if cnpNumber.None? || cnpNumber.value == [] {
      return false;
    }
    var number := Trim(cnpNumber.value);
    if |number| != 13 || !AllDigits(number) {
      return false;
    }
    var cnpsDigits: seq<int> := [];
    for i := 0 to |number|
      invariant cnpsDigits == DigitsOf(number[..i])
    {
      assert number[..i + 1][..i] == number[..i];
      cnpsDigits := cnpsDigits + [DigitValue(number[i])];
    }
    assert number[..|number|] == number;
    var sex := cnpsDigits[0];
    var controlNumber := cnpsDigits[12];
    if IsSexValid(sex) && IsCnpDateValid(cnpsDigits, sex) && IsCountryAreaValid(cnpsDigits) {
      var sum := GetCnpAlgorithmSum(cnpsDigits, AlgorithmKeys);
      assert AlgorithmKeys[..12] == AlgorithmKeys;
      var calculatedControlNr := sum % 11;
      if calculatedControlNr == 10 {
        calculatedControlNr := 1;
      }
      if calculatedControlNr == controlNumber {
        return true;
      }
    }
    return false;
  }

  /** Null, empty, wrong-length and non-digit input is rejected. */
  lemma MalformedRejected(cnpNumber: Option<string>)
    requires || cnpNumber.None?
             || cnpNumber.value == []
             || |Trim(cnpNumber.value)| != 13
             || !AllDigits(Trim(cnpNumber.value))
    ensures !CnpValid(cnpNumber)
  {
  }

  /** Only the trimmed string matters: surrounding white space never changes
      the verdict. */
  lemma DependsOnlyOnTrimmed(s: string)
    ensures CnpValid(Some(s)) == CnpValid(Some(Trim(s)))
  {
    TrimIdempotent(s);
  }

  /** A first digit of 0 is always rejected. */
  lemma SexZeroRejected(digits: seq<int>)
    requires |digits| == 13 && digits[0] == 0
    ensures !DigitsValid(digits)
  {
  }

  /** Replacing the control digit of a valid code by any other digit makes it
      invalid. */
  lemma CorruptedControlDigitRejected(s: string, c: char)
    requires CnpValid(Some(s))
    requires IsDigit(c) && c != Trim(s)[12]
    ensures !CnpValid(Some(Trim(s)[..12] + [c]))
  {
    var t := Trim(s);
    var u := t[..12] + [c];
    TrimUnchanged(u);
    ReplacedLastDigit(t, c);
    ControlDigitDecides(DigitsOf(t), DigitsOf(u));
  }

  /** The digit list of a digit string whose last character is replaced:
      the same first twelve digits and a different last one. */
  lemma ReplacedLastDigit(t: string, c: char)
    requires |t| == 13 && AllDigits(t) && IsDigit(c) && c != t[12]
    ensures AllDigits(t[..12] + [c])
    ensures DigitsOf(t[..12] + [c])[..12] == DigitsOf(t)[..12]
    ensures DigitsOf(t[..12] + [c])[12] != DigitsOf(t)[12]
  {
    var u := t[..12] + [c];
    assert u[..12] == t[..12] == t[..|t| - 1];
    DigitCharOfValue(c);
    DigitCharOfValue(t[12]);
  }

  /** Two digit lists that agree on their first twelve digits and differ in
      the last cannot both pass the checks. */
  lemma ControlDigitDecides(d: seq<int>, e: seq<int>)
    requires |d| == 13 && |e| == 13 && d[..12] == e[..12] && d[12] != e[12]
    ensures DigitsValid(d) ==> !DigitsValid(e)
  {
    assert ControlDigit(d) == ControlDigit(e);
  }

  /** The serial digits 9..11 enter only the checksum: with the first nine
      digits fixed, a code with any serial passes as soon as its control digit
      matches. */
  lemma SerialOnlyAffectsChecksum(digits: seq<int>, other: seq<int>)
    requires |digits| == 13 && |other| == 13 && digits[..9] == other[..9]
    requires DigitsValid(digits) && ControlDigit(other) == other[12]
    ensures DigitsValid(other)
  {
    assert digits[0] == digits[..9][0] == other[0];
    assert BirthDate(other, other[0]) == BirthDate(digits, digits[0]) by {
      assert forall i :: 1 <= i < 7 ==> digits[i] == digits[..9][i] == other[i];
    }
    assert IsCountryAreaValid(other) == IsCountryAreaValid(digits) by {
      assert digits[7] == digits[..9][7] == other[7];
      assert digits[8] == digits[..9][8] == other[8];
    }
  }

  /** The digit list of the valid example. */
  lemma ExampleDigits(s: string)
    requires s == "1800101221144"
    ensures AllDigits(s) && DigitsOf(s) == [1, 8, 0, 0, 1, 0, 1, 2, 2, 1, 1, 4, 4]
  {
    var d := [1, 8, 0, 0, 1, 0, 1, 2, 2, 1, 1, 4, 4];
    forall i | 0 <= i < 13 ensures DigitsOf(s)[i] == d[i] {
      DigitsOfAt(s, i);
    }
  }

  /** The example's digits pass every check. */
  lemma ExampleDigitsValid(d: seq<int>)
    requires d == [1, 8, 0, 0, 1, 0, 1, 2, 2, 1, 1, 4, 4]
    ensures DigitsValid(d)
  {
    AlgorithmSumExpanded(d);
    assert CenturyBase(1) == 1900;
    assert BirthDate(d, 1) == Date(1980, 1, 1);
  }

  /** A valid example: born 1 January 1980, county 22, control digit 4. */
  lemma ExampleValid(s: string)
    requires s == "1800101221144"
    ensures CnpValid(Some(s))
  {
    TrimUnchanged(s);
    ExampleDigits(s);
    ExampleDigitsValid(DigitsOf(s));
  }

  /** The same code with its control digit changed is rejected. */
  lemma ExampleControlChanged(s: string)
    requires s == "1800101221145"
    ensures !CnpValid(Some(s))
  {
    var good := "1800101221144";
    ExampleValid(good);
    CorruptedControlDigitRejected(good, '5');
    TrimUnchanged(good);
    assert good[..12] + ['5'] == s;
  }

  /** The all-zero code is rejected by its sex/century digit. */
  lemma ExampleAllZeros(s: string)
    requires s == "0000000000000"
    ensures !CnpValid(Some(s))
  {
    TrimUnchanged(s);
    DigitsOfAt(s, 0);
  }
}
