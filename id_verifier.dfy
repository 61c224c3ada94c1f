/**
 * `ChineseIDVerifier` of id_card_verifier.py: the structural and checksum
 * checks of an 18-character citizen identity number (GB 11643-1999: six-digit
 * address code, eight-digit birth date YYYYMMDD, three-digit sequence code,
 * and an ISO/IEC 7064 MOD 11-2 check character).
 */
module ChineseIdVerifier {
  import opened Wrappers
  import opened Text

  const IdLength: nat := 18

  /** Weights of the first 17 digits. */
  const Weights: seq<nat> := [7, 9, 10, 5, 8, 4, 2, 1, 6, 3, 7, 9, 10, 5, 8, 4, 2]

  /** Check character for each remainder of the weighted sum modulo 11. */
  const ChecksumMap: seq<char> := ['1', '0', 'X', '9', '8', '7', '6', '5', '4', '3', '2']

  /** A call that either returns a value or raises Python's `ValueError`. */
  datatype Checked<T> = Returned(value: T) | ValueError

  // ---------------------------------------------------------------------------
  // Checksum

  /**
   * Sum of int(s[i]) * Weights[i] over the first n characters, where a
   * digit's value is its distance from '0'; only ever used on digits.
   */
  function WeightedSum(s: string, n: nat): int
    requires n <= |s| && n <= |Weights|
  {
    if n == 0 then 0 else WeightedSum(s, n - 1) + (s[n - 1] as int - '0' as int) * Weights[n - 1]
  }

  /**
   * What `validate_checksum` does: `False` for a wrong length, `ValueError`
   * from `int()` when one of the first 17 characters is not a digit, and
   * otherwise whether the upper-cased 18th character is the mapped one.
   */
  function ChecksumResult(s: string): Checked<bool>
  {
    if |s| != IdLength then Returned(false)
    else if !DigitsIn(s, 0, 17) then ValueError
    else Returned(UpperChar(s[17]) == ChecksumMap[WeightedSum(s, 17) % 11])
  }

  /** The loop of `validate_checksum`, accumulating the weighted sum. */
  method ValidateChecksum(s: string) returns (r: Checked<bool>)
    ensures r == ChecksumResult(s)
    ensures r == ValueError <==> |s| == IdLength && !DigitsIn(s, 0, 17)
    ensures r == Returned(true) <==> IsIso7064Valid(s)
  {
    if |s| != IdLength {
      return Returned(false);
    }
    var weightedSum := 0;
    for i := 0 to 17
      invariant DigitsIn(s, 0, i)
      invariant weightedSum == WeightedSum(s, i)
    {
      if !IsDigit(s[i]) {
        return ValueError;
      }
      weightedSum := weightedSum + DigitValue(s[i]) * Weights[i];
    }
    var index := weightedSum % 11;
    var expected := ChecksumMap[index];
    var actual := UpperChar(s[17]);
    r := Returned(actual == expected);
    ChecksumIsIso7064(s);
  }

  // The same check stated as in ISO/IEC 7064 MOD 11-2: every character
  // carries the weight 2^(17 - i) mod 11, the check character X stands for 10,
  // and the weighted sum of all 18 characters is 1 modulo 11.

  function Pow2(n: nat): (p: nat)
    ensures p >= 1
  {
    if n == 0 then 1 else 2 * Pow2(n - 1)
  }

  function IsoWeight(i: nat): nat
    requires i < IdLength
  {
    Pow2(17 - i) % 11
  }

  /** The value of a check character: a digit, or X for ten. */
  function IsoCharValue(c: char): Option<nat>
  {
    if IsDigit(c) then Some(DigitValue(c)) else if c == 'X' then Some(10) else None
  }

  /** Sum of the first n digits' values, each times its ISO weight. */
  function IsoSum(s: string, n: nat): int
    requires n <= 17 && n <= |s|
  {
    if n == 0 then 0 else IsoSum(s, n - 1) + (s[n - 1] as int - '0' as int) * IsoWeight(n - 1)
  }

  predicate IsIso7064Valid(s: string)
  {
    && |s| == IdLength
    && DigitsIn(s, 0, 17)
    && var v := IsoCharValue(UpperChar(s[17]));
    && v.Some?
    && (IsoSum(s, 17) + v.value * IsoWeight(17)) % 11 == 1
  }

  lemma WeightsArePowersOfTwo()
    ensures forall i :: 0 <= i < 17 ==> Weights[i] == IsoWeight(i)
  {
    assert Pow2(4) == 16;
    assert Pow2(8) == 256;
    assert Pow2(12) == 4096;
    assert Pow2(16) == 65536;
    assert Pow2(17) == 131072;
  }

  lemma {:induction false} IsoSumIsWeightedSum(s: string, n: nat)
    requires n <= 17 && n <= |s|
    ensures IsoSum(s, n) == WeightedSum(s, n)
  {
    if n > 0 {
      IsoSumIsWeightedSum(s, n - 1);
      WeightsArePowersOfTwo();
    }
  }

  /** The table lookup picks exactly the character that makes the ISO sum 1 mod 11. */
  lemma CheckCharacterOfRemainder(m: nat, c: char)
    requires m < 11
    ensures ChecksumMap[m] == c <==> IsoCharValue(c).Some? && (m + IsoCharValue(c).value) % 11 == 1
  {
  }

  lemma ChecksumIsIso7064(s: string)
    ensures ChecksumResult(s) == Returned(true) <==> IsIso7064Valid(s)
  {
    if |s| == IdLength && DigitsIn(s, 0, 17) {
      IsoSumIsWeightedSum(s, 17);
      var sum := WeightedSum(s, 17);
      var c := UpperChar(s[17]);
      assert IsoWeight(17) == 1;
      CheckCharacterOfRemainder(sum % 11, c);
      if IsoCharValue(c).Some? {
        var v := IsoCharValue(c).value;
        assert (sum + v) % 11 == (sum % 11 + v) % 11;
      }
    }
  }

  // ---------------------------------------------------------------------------
  // Address code, birth date, sequence code

  /** `validate_address_code`: `id[:6].isdigit()`. */
  function ValidateAddressCode(id: string): (ok: bool)
    ensures |id| >= 6 ==> (ok <==> DigitsIn(id, 0, 6))
    ensures ok <==> |id| > 0 && DigitsIn(id, 0, if |id| < 6 then |id| else 6)
  {
    var hi := if |id| < 6 then |id| else 6;
    DigitStringOfSlice(id, 0, hi);
    IsDigitString(Slice(id, 0, 6))
  }

  /** `validate_sequence_code`: `id[14:17].isdigit()`. */
  function ValidateSequenceCode(id: string): (ok: bool)
    ensures |id| >= 17 ==> (ok <==> DigitsIn(id, 14, 17))
    ensures ok <==> |id| > 14 && DigitsIn(id, 14, if |id| < 17 then |id| else 17)
  {
    if |id| <= 14 then
      IsDigitString(Slice(id, 14, 17))
    else
      var hi := if |id| < 17 then |id| else 17;
      DigitStringOfSlice(id, 14, hi);
      IsDigitString(Slice(id, 14, 17))
  }

  predicate IsLeapYear(y: int)
  {
    y % 4 == 0 && (y % 100 != 0 || y % 400 == 0)
  }

  function DaysInMonth(y: int, m: int): (d: nat)
    requires 1 <= m <= 12
    ensures 28 <= d <= 31
  {
    if m == 2 then (if IsLeapYear(y) then 29 else 28)
    else if m == 4 || m == 6 || m == 9 || m == 11 then 30
    else 31
  }

  /** `datetime(y, m, d)` does not raise: a day of the proleptic Gregorian calendar. */
  predicate IsCalendarDate(y: int, m: int, d: int)
  {
    1 <= y <= 9999 && 1 <= m <= 12 && 1 <= d <= DaysInMonth(y, m)
  }

  /**
   * `validate_birth_date`. Python's slices clamp, and `int('')` raises the
   * `ValueError` that the function turns into `False`; both are written out so
   * that the function is modelled for every input length.
   */
  function ValidateBirthDate(id: string, currentYear: int): (ok: bool)
    ensures ok ==> |id| >= 13
    ensures |id| >= 14 ==>
      (ok <==> DigitsIn(id, 6, 14) && IsBirthDate(BirthYear(id), BirthMonth(id), BirthDay(id), currentYear))
  {
    var b := Slice(id, 6, 14);
    if !IsDigitString(b) then false
    else
      var ys, ms, ds := Slice(b, 0, 4), Slice(b, 4, 6), Slice(b, 6, 8);
      if ms == [] || ds == [] then false
      else
        assert AllDigits(ys) && AllDigits(ms) && AllDigits(ds) by {
          assert forall i :: 0 <= i < |ys| ==> ys[i] == b[i];
          assert forall i :: 0 <= i < |ms| ==> ms[i] == b[4 + i];
          assert forall i :: 0 <= i < |ds| ==> ds[i] == b[6 + i];
        }
        var year, month, day := ParseDecimal(ys), ParseDecimal(ms), ParseDecimal(ds);
        BirthDateFields(id, b, ys, ms, ds);
        if year < 1900 || year > currentYear then false
        else if month < 1 || month > 12 then false
        else if day < 1 || day > 31 then false
        else IsCalendarDate(year, month, day)
  }

  /** A birth date the verifier accepts: a real date from 1900 up to the current year. */
  predicate IsBirthDate(y: int, m: int, d: int, currentYear: int)
  {
    1900 <= y <= currentYear && IsCalendarDate(y, m, d)
  }

  function BirthYear(id: string): nat
    requires |id| >= 14 && DigitsIn(id, 6, 14)
  {
    assert AllDigits(id[6..10]) by { assert forall i :: 0 <= i < 4 ==> id[6..10][i] == id[6 + i]; }
    ParseDecimal(id[6..10])
  }

  function BirthMonth(id: string): nat
    requires |id| >= 14 && DigitsIn(id, 6, 14)
  {
    assert AllDigits(id[10..12]) by { assert forall i :: 0 <= i < 2 ==> id[10..12][i] == id[10 + i]; }
    ParseDecimal(id[10..12])
  }

  function BirthDay(id: string): nat
    requires |id| >= 14 && DigitsIn(id, 6, 14)
  {
    assert AllDigits(id[12..14]) by { assert forall i :: 0 <= i < 2 ==> id[12..14][i] == id[12 + i]; }
    ParseDecimal(id[12..14])
  }

  lemma BirthDateFields(id: string, b: string, ys: string, ms: string, ds: string)
    requires b == Slice(id, 6, 14) && IsDigitString(b)
    requires ys == Slice(b, 0, 4) && ms == Slice(b, 4, 6) && ds == Slice(b, 6, 8)
    requires ms != [] && ds != []
    ensures |id| >= 13
    ensures |id| >= 14 ==> DigitsIn(id, 6, 14) && ys == id[6..10] && ms == id[10..12] && ds == id[12..14]
  {
    if |id| >= 14 {
      assert b == id[6..14];
      DigitStringOfSlice(id, 6, 14);
    }
  }

  // ---------------------------------------------------------------------------
  // verify_id

  /** The diagnostics of `verify_id`; the length error keeps the observed length. */
  datatype Reason =
    | NotFound
    | LengthInvalid(observed: nat)
    | AddressCodeInvalid
    | BirthDateInvalid
    | SequenceCodeInvalid
    | ChecksumInvalid
    | FormatValid

  /** The pair `(is_valid, message)` that `verify_id` returns. */
  datatype Verdict = Verdict(valid: bool, reason: Reason)

  /**
   * `verify_id`: missing input, then length, then address, birth date,
   * sequence and checksum checks in that order; the first failing check
   * decides the diagnostic. It never raises: by the time the checksum runs,
   * the first 17 characters are known to be digits.
   */
  function VerifyId(id: Option<string>, currentYear: int): (r: Checked<Verdict>)
    ensures r.Returned?
    ensures r.value.valid <==> r.value.reason == FormatValid
    ensures r.value.reason == NotFound <==> id.None? || id.value == ""
    ensures r.value.reason.LengthInvalid? <==> id.Some? && id.value != "" && |id.value| != IdLength
    ensures r.value.reason.LengthInvalid? ==> r.value.reason.observed == |id.value|
    ensures r.value.valid ==> id.Some? && IsWellFormedId(id.value, currentYear)
  {
    if id.None? || id.value == "" then Returned(Verdict(false, NotFound))
    else
      var s := id.value;
      if |s| != IdLength then Returned(Verdict(false, LengthInvalid(|s|)))
      else if !ValidateAddressCode(s) then Returned(Verdict(false, AddressCodeInvalid))
      else if !ValidateBirthDate(s, currentYear) then Returned(Verdict(false, BirthDateInvalid))
      else if !ValidateSequenceCode(s) then Returned(Verdict(false, SequenceCodeInvalid))
      else
        ChecksumStepSeesDigits(s, currentYear);
        ChecksumIsIso7064(s);
        match ChecksumResult(s)
        case ValueError => ValueError
        case Returned(ok) =>
          if ok then Returned(Verdict(true, FormatValid)) else Returned(Verdict(false, ChecksumInvalid))
  }

  /**
   * A well-formed identity number in the standard's own terms: 18 characters,
   * 17 digits, a birth date from 1900 to the current year that exists in the
   * calendar, and a check character that satisfies ISO/IEC 7064 MOD 11-2.
   */
  predicate IsWellFormedId(s: string, currentYear: int)
  {
    && |s| == IdLength
    && DigitsIn(s, 0, 17)
    && IsBirthDate(BirthYear(s), BirthMonth(s), BirthDay(s), currentYear)
    && IsIso7064Valid(s)
  }

  /** The birth-date fields are the decimal values of their digits. */
  lemma BirthFieldsExpanded(id: string)
    requires |id| >= 14 && DigitsIn(id, 6, 14)
    ensures BirthYear(id) ==
      1000 * DigitValue(id[6]) + 100 * DigitValue(id[7]) + 10 * DigitValue(id[8]) + DigitValue(id[9])
    ensures BirthMonth(id) == 10 * DigitValue(id[10]) + DigitValue(id[11])
    ensures BirthDay(id) == 10 * DigitValue(id[12]) + DigitValue(id[13])
  {
    ParseTwoAndFourDigits(id[6..10]);
    ParseTwoAndFourDigits(id[10..12]);
    ParseTwoAndFourDigits(id[12..14]);
  }

  /** Once address, birth date and sequence code pass, positions 0..16 are digits. */
  lemma ChecksumStepSeesDigits(s: string, currentYear: int)
    requires |s| == IdLength
    requires ValidateAddressCode(s) && ValidateBirthDate(s, currentYear) && ValidateSequenceCode(s)
    ensures DigitsIn(s, 0, 17)
    ensures ChecksumResult(s).Returned?
  {
  }

  /** `verify_id` accepts exactly the well-formed identity numbers. */
  lemma VerifyIdAcceptsExactlyWellFormed(s: string, currentYear: int)
    ensures VerifyId(Some(s), currentYear).value.valid <==> IsWellFormedId(s, currentYear)
  {
    if IsWellFormedId(s, currentYear) {
      ChecksumIsIso7064(s);
    }
  }

  /** The first failing check of a length-18 candidate names the diagnostic. */
  lemma VerifyIdReportsFirstFailure(s: string, currentYear: int)
    requires |s| == IdLength
    ensures var reason := VerifyId(Some(s), currentYear).value.reason;
      && (reason == AddressCodeInvalid <==> !ValidateAddressCode(s))
      && (reason == BirthDateInvalid <==> ValidateAddressCode(s) && !ValidateBirthDate(s, currentYear))
      && (reason == SequenceCodeInvalid <==>
            ValidateAddressCode(s) && ValidateBirthDate(s, currentYear) && !ValidateSequenceCode(s))
      && (reason == ChecksumInvalid <==>
            ValidateAddressCode(s) && ValidateBirthDate(s, currentYear) && ValidateSequenceCode(s)
            && ChecksumResult(s) == Returned(false))
  {
  }

  /**
   * For 18 characters whose first 17 are digits: the number passes its
   * checksum exactly when the 18th character, upper-cased, is the mapped one.
   */
  lemma ChecksumCharacterization(s: string)
    requires |s| == IdLength && DigitsIn(s, 0, 17)
    ensures ChecksumResult(s) == Returned(true) <==> UpperChar(s[17]) == ChecksumMap[WeightedSum(s, 17) % 11]
    ensures 0 <= WeightedSum(s, 17) % 11 < |ChecksumMap|
  {
  }

  /** The `[1, 31]` day bound before the calendar check rules out nothing more. */
  lemma DayPreFilterIsRedundant(y: int, m: int, d: int)
    requires IsCalendarDate(y, m, d)
    ensures 1 <= d <= 31
  {
  }
}
