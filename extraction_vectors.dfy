/** The extraction cases of test_verifier.py, stated as lemmas about the model. */
module ExtractionVectors {
  import opened Wrappers
  import opened Text
  import opened IdExtraction

  /**
   * A well-shaped number after a prefix that has no match of its own and ends
   * in a separator (or is empty), and before a suffix that starts with a
   * separator (or is empty), is what extraction returns.
   */
  lemma ExtractsBetween(before: string, id: string, after: string)
    requires ExtractIdNumber(before).None?
    requires before == [] || !IsWordChar(before[|before| - 1])
    requires IsIdShape(id) && id[17] != 'x'
    requires after == [] || !IsWordChar(after[0])
    ensures ExtractIdNumber(before + id + after) == Some(id)
  {
    var text := before + id + after;
    var i := |before|;
    assert text[i..i + 18] == id;
    assert i + 18 < |text| ==> text[i + 18] == after[0];
    if 0 < i {
      assert text[i - 1] == before[i - 1];
      NoMatchAcross(text, i - 1);
    }
    forall j | 0 <= j && j + 18 < i ensures !MatchAt(text, j) {
      assert text[j..j + 18] == before[j..j + 18];
      assert text[j + 18] == before[j + 18];
      assert 0 < j ==> text[j - 1] == before[j - 1];
      assert !MatchAt(before, j);
    }
    assert IsFirstMatch(text, i);
    UpperKeepsUpperCase(id);
  }

  /** A text shorter than a number has no candidate. */
  lemma ShortTextHasNoCandidate(t: string)
    requires |t| < 18
    ensures ExtractIdNumber(t).None?
  {
    assert forall i :: !MatchAt(t, i);
  }

  lemma BeijingShape(id: string)
    requires id == "11010519491231002X"
    ensures IsIdShape(id) && id[17] != 'x'
  {
  }

  /** The extraction cases of test_verifier.py: an 18-character number after a full-width colon. */
  lemma ExtractAfterLabel(text: string, id: string)
    requires text == "姓名：张三 身份证号：11010519491231002X"
    requires id == "11010519491231002X"
    ensures ExtractIdNumber(text) == Some(id)
  {
    var before: string, after: string := "姓名：张三 身份证号：", "";
    assert text == before + id + after;
    ShortTextHasNoCandidate(before);
    BeijingShape(id);
    ExtractsBetween(before, id, after);
  }

  /** A number after a space; extraction does not look at the birth year. */
  lemma ExtractAfterSpace(text: string, id: string)
    requires text == "ID: 440524188001010014"
    requires id == "440524188001010014"
    ensures ExtractIdNumber(text) == Some(id)
  {
    var before: string, after: string := "ID: ", "";
    assert text == before + id + after;
    ShortTextHasNoCandidate(before);
    ExtractsBetween(before, id, after);
  }

  /** A number between spaces; extraction does not look at the check character. */
  lemma ExtractBetweenSpaces(text: string, id: string)
    requires text == "身份证 51010219890101001X 有效期"
    requires id == "51010219890101001X"
    ensures ExtractIdNumber(text) == Some(id)
  {
    var before: string, after: string := "身份证 ", " 有效期";
    assert text == before + id + after;
    ShortTextHasNoCandidate(before);
    ExtractsBetween(before, id, after);
  }

  /** Text without 18 characters, and a 17-digit run, yield nothing. */
  lemma ExtractNothing()
    ensures ExtractIdNumber("No ID number here") == None
    ensures ExtractIdNumber("Short number: 12345678901234567") == None
  {
    NoMatchAcross("Short number: 12345678901234567", 13);
  }

  /** An ideograph is a word character: a number glued to one has no word boundary and is not extracted. */
  lemma GluedToIdeograph()
    ensures ExtractIdNumber("号11010519491231002X") == None
  {
    var t := "号11010519491231002X";
    forall i ensures !MatchAt(t, i) {
      if i == 0 { assert t[0..18][0] == t[0]; }
    }
  }

  /** A lower-case check character is returned upper-cased. */
  lemma LowerCaseCheckCharacter()
    ensures ExtractIdNumber("11010519491231002x") == Some("11010519491231002X")
  {
    var t := "11010519491231002x";
    assert t[0..18] == t;
    assert IsFirstMatch(t, 0);
    var u := Upper(t);
    assert forall k :: 0 <= k < 17 ==> u[k] == t[k];
    assert u[17] == 'X';
    assert u == "11010519491231002X";
  }
}
