/**
 * The cases of test_verifier.py and the calendar edge cases of
 * `validate_birth_date`, stated as lemmas about the model.
 *
 * Each lemma takes the identity number as a parameter `s` constrained by
 * `requires s == "…"` rather than writing the literal into its `ensures`:
 * the verifier then reasons about `s` through the stated facts instead of
 * unfolding every recursive function on the literal, which keeps each proof
 * small.
 */
module TestVectors {
  import opened Wrappers
  import opened Text
  import opened ChineseIdVerifier

  function Verify(s: string, currentYear: int): Reason
  {
    VerifyId(Some(s), currentYear).value.reason
  }

  /** "Valid Beijing ID": the check character X is correct for the weighted sum 167. */
  lemma ValidBeijing(s: string, currentYear: int)
    requires s == "11010519491231002X"
    requires currentYear >= 1949
    ensures Verify(s, currentYear) == FormatValid
  {
    BirthFieldsExpanded(s);
    assert BirthYear(s) == 1949 && BirthMonth(s) == 12 && BirthDay(s) == 31;
    SumBeijing1949(s);
  }

  /** "Valid Guangdong ID (1980)": weighted sum 196, check digit 3. */
  lemma ValidGuangdong(s: string, currentYear: int)
    requires s == "440524198001010013"
    requires currentYear >= 1980
    ensures Verify(s, currentYear) == FormatValid
  {
    BirthFieldsExpanded(s);
    assert BirthYear(s) == 1980 && BirthMonth(s) == 1 && BirthDay(s) == 1;
    SumGuangdong1980(s);
  }

  /** "Valid Sichuan ID (1989)": weighted sum 159, check digit 7. */
  lemma ValidSichuan(s: string, currentYear: int)
    requires s == "510102198901010017"
    requires currentYear >= 1989
    ensures Verify(s, currentYear) == FormatValid
  {
    BirthFieldsExpanded(s);
    assert BirthYear(s) == 1989 && BirthMonth(s) == 1 && BirthDay(s) == 1;
    SumSichuan1989(s);
  }

  /** "Invalid checksum (Y instead of X)": every other check passes. */
  lemma WrongCheckCharacter(s: string, currentYear: int)
    requires s == "11010519491231002Y"
    requires currentYear >= 1949
    ensures Verify(s, currentYear) == ChecksumInvalid
  {
    BirthFieldsExpanded(s);
    assert BirthYear(s) == 1949 && BirthMonth(s) == 12 && BirthDay(s) == 31;
    SumBeijing1949(s);
  }

  /** "Non-numeric sequence code": the birth date passes, the sequence code does not. */
  lemma LettersInSequenceCode(s: string, currentYear: int)
    requires s == "11010519491231ABCX"
    requires currentYear >= 1949
    ensures Verify(s, currentYear) == SequenceCodeInvalid
  {
    BirthFieldsExpanded(s);
    assert BirthYear(s) == 1949 && BirthMonth(s) == 12 && BirthDay(s) == 31;
  }

  /** "Invalid date (month 13)". */
  lemma MonthThirteen(s: string, currentYear: int)
    requires s == "110105194913310020"
    ensures Verify(s, currentYear) == BirthDateInvalid
  {
    BirthFieldsExpanded(s);
    assert BirthYear(s) == 1949 && BirthMonth(s) == 13 && BirthDay(s) == 31;
  }

  /** "Invalid date (day 32)". */
  lemma DayThirtyTwo(s: string, currentYear: int)
    requires s == "11010519491232002X"
    ensures Verify(s, currentYear) == BirthDateInvalid
  {
    BirthFieldsExpanded(s);
    assert BirthYear(s) == 1949 && BirthMonth(s) == 12 && BirthDay(s) == 32;
  }

  /** The second extraction sample has birth year 1880, which the birth-date check rejects. */
  lemma GuangdongEighteenEighty(s: string, currentYear: int)
    requires s == "440524188001010014"
    ensures Verify(s, currentYear) == BirthDateInvalid
  {
    BirthFieldsExpanded(s);
    assert BirthYear(s) == 1880 && BirthMonth(s) == 1 && BirthDay(s) == 1;
  }

  /** The third extraction sample has a wrong check character: the weighted sum 159 calls for 7, not X. */
  lemma SichuanSampleChecksum(s: string, currentYear: int)
    requires s == "51010219890101001X"
    requires currentYear >= 1989
    ensures Verify(s, currentYear) == ChecksumInvalid
  {
    BirthFieldsExpanded(s);
    assert BirthYear(s) == 1989 && BirthMonth(s) == 1 && BirthDay(s) == 1;
    SumSichuan1989(s);
  }

  /** 30 April exists. */
  lemma AprilThirtieth(s: string, currentYear: int)
    requires s == "11010519800430002X"
    requires currentYear >= 1980
    ensures ValidateBirthDate(s, currentYear)
  {
    BirthFieldsExpanded(s);
    assert BirthYear(s) == 1980 && BirthMonth(s) == 4 && BirthDay(s) == 30;
  }

  /** 31 April does not exist. */
  lemma AprilThirtyFirst(s: string, currentYear: int)
    requires s == "11010519800431002X"
    ensures !ValidateBirthDate(s, currentYear)
  {
    BirthFieldsExpanded(s);
    assert BirthYear(s) == 1980 && BirthMonth(s) == 4 && BirthDay(s) == 31;
  }

  /** 2000 is a leap year (divisible by 400). */
  lemma LeapDayInTwoThousand(s: string, currentYear: int)
    requires s == "110105200002290000"
    requires currentYear >= 2000
    ensures ValidateBirthDate(s, currentYear)
  {
    BirthFieldsExpanded(s);
    assert BirthYear(s) == 2000 && BirthMonth(s) == 2 && BirthDay(s) == 29;
    assert DaysInMonth(2000, 2) == 29 by { assert IsLeapYear(2000); }
  }

  /** 1900 is not a leap year (divisible by 100 but not 400). */
  lemma NoLeapDayInNineteenHundred(s: string, currentYear: int)
    requires s == "110105190002290000"
    ensures !ValidateBirthDate(s, currentYear)
  {
    BirthFieldsExpanded(s);
    assert BirthYear(s) == 1900 && BirthMonth(s) == 2 && BirthDay(s) == 29;
  }

  /** 1999 is not a leap year. */
  lemma NoLeapDayInNinetyNine(s: string, currentYear: int)
    requires s == "110105199902290000"
    ensures !ValidateBirthDate(s, currentYear)
  {
    BirthFieldsExpanded(s);
    assert BirthYear(s) == 1999 && BirthMonth(s) == 2 && BirthDay(s) == 29;
  }

  /** Years before 1900 are rejected. */
  lemma BornBeforeNineteenHundred(s: string, currentYear: int)
    requires s == "110105189912310000"
    ensures !ValidateBirthDate(s, currentYear)
  {
    BirthFieldsExpanded(s);
    assert BirthYear(s) == 1899 && BirthMonth(s) == 12 && BirthDay(s) == 31;
  }

  /** A birth year after the current year is rejected. */
  lemma BornInTheFuture(s: string, currentYear: int)
    requires s == "11010520300101002X"
    requires currentYear < 2030
    ensures !ValidateBirthDate(s, currentYear)
  {
    BirthFieldsExpanded(s);
    assert BirthYear(s) == 2030 && BirthMonth(s) == 1 && BirthDay(s) == 1;
  }

  /** The weighted sum of the first 17 digits 11010519491231002, term by term. */
  lemma SumBeijing1949(s: string)
    requires |s| == 18 && s[..17] == "11010519491231002"
    ensures WeightedSum(s, 17) == 167
  {
    assert WeightedSum(s, 1) == 7;
    assert WeightedSum(s, 2) == 16;
    assert WeightedSum(s, 3) == 16;
    assert WeightedSum(s, 4) == 21;
    assert WeightedSum(s, 5) == 21;
    assert WeightedSum(s, 6) == 41;
    assert WeightedSum(s, 7) == 43;
    assert WeightedSum(s, 8) == 52;
    assert WeightedSum(s, 9) == 76;
    assert WeightedSum(s, 10) == 103;
    assert WeightedSum(s, 11) == 110;
    assert WeightedSum(s, 12) == 128;
    assert WeightedSum(s, 13) == 158;
    assert WeightedSum(s, 14) == 163;
    assert WeightedSum(s, 15) == 163;
    assert WeightedSum(s, 16) == 163;
    assert WeightedSum(s, 17) == 167;
  }

  /** The weighted sum of the first 17 digits 44052419800101001, term by term. */
  lemma SumGuangdong1980(s: string)
    requires |s| == 18 && s[..17] == "44052419800101001"
    ensures WeightedSum(s, 17) == 196
  {
    assert WeightedSum(s, 1) == 28;
    assert WeightedSum(s, 2) == 64;
    assert WeightedSum(s, 3) == 64;
    assert WeightedSum(s, 4) == 89;
    assert WeightedSum(s, 5) == 105;
    assert WeightedSum(s, 6) == 121;
    assert WeightedSum(s, 7) == 123;
    assert WeightedSum(s, 8) == 132;
    assert WeightedSum(s, 9) == 180;
    assert WeightedSum(s, 10) == 180;
    assert WeightedSum(s, 11) == 180;
    assert WeightedSum(s, 12) == 189;
    assert WeightedSum(s, 13) == 189;
    assert WeightedSum(s, 14) == 194;
    assert WeightedSum(s, 15) == 194;
    assert WeightedSum(s, 16) == 194;
    assert WeightedSum(s, 17) == 196;
  }

  /** The weighted sum of the first 17 digits 51010219890101001, term by term. */
  lemma SumSichuan1989(s: string)
    requires |s| == 18 && s[..17] == "51010219890101001"
    ensures WeightedSum(s, 17) == 159
  {
    assert WeightedSum(s, 1) == 35;
    assert WeightedSum(s, 2) == 44;
    assert WeightedSum(s, 3) == 44;
    assert WeightedSum(s, 4) == 49;
    assert WeightedSum(s, 5) == 49;
    assert WeightedSum(s, 6) == 57;
    assert WeightedSum(s, 7) == 59;
    assert WeightedSum(s, 8) == 68;
    assert WeightedSum(s, 9) == 116;
    assert WeightedSum(s, 10) == 143;
    assert WeightedSum(s, 11) == 143;
    assert WeightedSum(s, 12) == 152;
    assert WeightedSum(s, 13) == 152;
    assert WeightedSum(s, 14) == 157;
    assert WeightedSum(s, 15) == 157;
    assert WeightedSum(s, 16) == 157;
    assert WeightedSum(s, 17) == 159;
  }

  /** The length and character-class cases of the test table, and a missing number. */
  lemma ShapeCases(currentYear: int)
    ensures Verify("12345678901234567", currentYear) == LengthInvalid(17)
    ensures Verify("1234567890123456789", currentYear) == LengthInvalid(19)
    ensures Verify("ABCDEF19491231002X", currentYear) == AddressCodeInvalid
    ensures VerifyId(None, currentYear).value == Verdict(false, NotFound)
    ensures VerifyId(Some(""), currentYear).value == Verdict(false, NotFound)
  {
    assert !IsDigit("ABCDEF19491231002X"[0]);
  }

}
