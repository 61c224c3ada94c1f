/**
 * `ChineseIDVerifier.extract_id_number` of id_card_verifier.py: the leftmost
 * match of the regular expression `\b\d{17}[\dXx]\b`, upper-cased.
 *
 * The expression is stated as a predicate on positions (MatchAt); the
 * extractor itself scans maximal runs of word characters, and is proved to
 * find the leftmost position where the expression matches.
 */
module IdExtraction {
  import opened Wrappers
  import opened Text

  /** 17 digits followed by a digit, X or x. */
  predicate IsIdShape(t: string)
  {
    |t| == 18 && DigitsIn(t, 0, 17) && (IsDigit(t[17]) || t[17] == 'X' || t[17] == 'x')
  }

  /** A normalised candidate: 17 digits followed by a digit or an upper-case X. */
  predicate IsCandidate(t: string)
  {
    |t| == 18 && DigitsIn(t, 0, 17) && (IsDigit(t[17]) || t[17] == 'X')
  }

  /** `\b\d{17}[\dXx]\b` matches the text at position i. */
  predicate MatchAt(s: string, i: int)
  {
    && 0 <= i && i + 18 <= |s|
    && (i == 0 || !IsWordChar(s[i - 1]))
    && IsIdShape(s[i..i + 18])
    && (i + 18 == |s| || !IsWordChar(s[i + 18]))
  }

  /** i is the leftmost position where the expression matches. */
  predicate IsFirstMatch(s: string, i: int)
  {
    MatchAt(s, i) && forall j :: 0 <= j < i ==> !MatchAt(s, j)
  }

  /** The end of the maximal run of word characters that starts at k. */
  function WordRunEnd(s: string, k: nat): (e: nat)
    requires k <= |s|
    ensures k <= e <= |s|
    ensures forall j :: k <= j < e ==> IsWordChar(s[j])
    ensures e < |s| ==> !IsWordChar(s[e])
    decreases |s| - k
  {
    if k == |s| || !IsWordChar(s[k]) then k else WordRunEnd(s, k + 1)
  }

  /**
   * The leftmost match at or after k, found one word-character run at a time:
   * a match is exactly a maximal run of 18 word characters of the right shape.
   */
  function FindMatch(s: string, k: nat): (r: Option<nat>)
    requires k <= |s|
    requires k == 0 || !IsWordChar(s[k - 1])
    ensures r.Some? ==> k <= r.value && MatchAt(s, r.value)
    ensures r.Some? ==> forall j :: k <= j < r.value ==> !MatchAt(s, j)
    ensures r.None? ==> forall j :: k <= j ==> !MatchAt(s, j)
    decreases |s| - k
  {
    if k == |s| then None
    else if !IsWordChar(s[k]) then FindMatch(s, k + 1)
    else
      var e := WordRunEnd(s, k);
      RunMatches(s, k, e);
      if e - k == 18 && IsIdShape(s[k..e]) then Some(k)
      else if e == |s| then None
      else FindMatch(s, e + 1)
  }

  /** Inside one run the expression can match only at the run's start, and only if the run is the whole match. */
  lemma RunMatches(s: string, k: nat, e: nat)
    requires k < e <= |s|
    requires k == 0 || !IsWordChar(s[k - 1])
    requires forall j :: k <= j < e ==> IsWordChar(s[j])
    requires e < |s| ==> !IsWordChar(s[e])
    ensures MatchAt(s, k) <==> e - k == 18 && IsIdShape(s[k..e])
    ensures forall j :: k < j <= e ==> !MatchAt(s, j)
  {
    if MatchAt(s, k) {
      var t := s[k..k + 18];
      assert forall j :: k <= j < k + 18 ==> s[j] == t[j - k];
      assert e == k + 18;
    }
    forall j | k < j <= e ensures !MatchAt(s, j) {
      if j == e && j + 18 <= |s| {
        assert s[j..j + 18][0] == s[e];
      }
    }
  }

  /**
   * `extract_id_number`: the leftmost whole-word token of 17 digits and a
   * digit, X or x, upper-cased; `None` when there is no such token. It does
   * not validate the number.
   */
  function ExtractIdNumber(text: string): (r: Option<string>)
    ensures r.None? <==> forall i :: !MatchAt(text, i)
    ensures forall i :: IsFirstMatch(text, i) ==> r == Some(Upper(text[i..i + 18]))
    ensures r.Some? ==> IsCandidate(r.value)
  {
    match FindMatch(text, 0)
    case None => None
    case Some(i) =>
      FirstMatchUnique(text, i);
      var u := Upper(text[i..i + 18]);
      assert forall j :: 0 <= j < 17 ==> u[j] == text[i..i + 18][j];
      Some(u)
  }

  /** No match covers a character that is not a word character. */
  lemma NoMatchAcross(s: string, p: nat)
    requires p < |s| && !IsWordChar(s[p])
    ensures forall j :: j <= p < j + 18 ==> !MatchAt(s, j)
  {
    forall j | 0 <= j <= p < j + 18 && j + 18 <= |s| ensures !MatchAt(s, j) {
      assert s[j..j + 18][p - j] == s[p];
    }
  }

  lemma FirstMatchUnique(s: string, i: int)
    requires IsFirstMatch(s, i)
    ensures forall j :: IsFirstMatch(s, j) ==> j == i
  {
  }

  // ---------------------------------------------------------------------------
  // Texts joined by a newline

  /** The first extraction that succeeds, trying the texts in order. */
  function FirstExtraction(texts: seq<string>): Option<string>
  {
    if texts == [] then None
    else if ExtractIdNumber(texts[0]).Some? then ExtractIdNumber(texts[0])
    else FirstExtraction(texts[1..])
  }

  /** A match in `a + "\n" + b` lies wholly inside a or wholly inside b. */
  lemma MatchAcrossNewline(a: string, b: string, i: int)
    ensures var s := a + "\n" + b;
      && (i + 18 <= |a| ==> (MatchAt(s, i) <==> MatchAt(a, i)))
      && (|a| < i + 18 && i <= |a| ==> !MatchAt(s, i))
      && (|a| < i ==> (MatchAt(s, i) <==> MatchAt(b, i - |a| - 1)))
  {
    var s := a + "\n" + b;
    if 0 <= i && i + 18 <= |a| {
      assert s[i..i + 18] == a[i..i + 18];
      if i > 0 { assert s[i - 1] == a[i - 1]; }
      if i + 18 < |a| { assert s[i + 18] == a[i + 18]; }
      else { assert s[i + 18] == '\n'; }
    } else if 0 <= i && i <= |a| < i + 18 && i + 18 <= |s| {
      assert s[i..i + 18][|a| - i] == '\n';
    } else if |a| < i {
      var j := i - |a| - 1;
      if i + 18 <= |s| {
        assert s[|a| + 1..] == b;
        assert s[i..i + 18] == s[|a| + 1..][j..j + 18];
        if j > 0 { assert s[i - 1] == b[j - 1]; } else { assert s[i - 1] == '\n'; }
        if i + 18 < |s| { assert s[i + 18] == b[j + 18]; }
      }
    }
  }

  /** Extracting from `a + "\n" + b` gives a's candidate if a has one, else b's. */
  lemma ExtractAcrossNewline(a: string, b: string)
    ensures ExtractIdNumber(a + "\n" + b) ==
      if ExtractIdNumber(a).Some? then ExtractIdNumber(a) else ExtractIdNumber(b)
  {
    if ExtractIdNumber(a).Some? {
      NewlineKeepsFirstOfA(a, b);
    } else {
      NewlineDefersToB(a, b);
    }
  }

  lemma NewlineKeepsFirstOfA(a: string, b: string)
    requires ExtractIdNumber(a).Some?
    ensures ExtractIdNumber(a + "\n" + b) == ExtractIdNumber(a)
  {
    var s := a + "\n" + b;
    var i :| MatchAt(a, i);
    var f := LeftmostMatch(a, i);
    MatchAcrossNewline(a, b, f);
    forall k | 0 <= k < f ensures !MatchAt(s, k) {
      MatchAcrossNewline(a, b, k);
    }
    assert IsFirstMatch(s, f);
    assert s[f..f + 18] == a[f..f + 18];
  }

  lemma NewlineDefersToB(a: string, b: string)
    requires ExtractIdNumber(a).None?
    ensures ExtractIdNumber(a + "\n" + b) == ExtractIdNumber(b)
  {
    var s := a + "\n" + b;
    if ExtractIdNumber(b).Some? {
      var j :| MatchAt(b, j);
      var f := LeftmostMatch(b, j);
      var g := f + |a| + 1;
      MatchAcrossNewline(a, b, g);
      forall k | 0 <= k < g ensures !MatchAt(s, k) {
        MatchAcrossNewline(a, b, k);
        if |a| < k { assert !MatchAt(b, k - |a| - 1); }
      }
      assert IsFirstMatch(s, g);
      assert s[g..g + 18] == b[f..f + 18];
    } else {
      forall k ensures !MatchAt(s, k) {
        MatchAcrossNewline(a, b, k);
        if |a| < k { assert !MatchAt(b, k - |a| - 1); }
      }
    }
  }

  /** Any text with a match has a leftmost one. */
  lemma LeftmostMatch(s: string, i: int) returns (f: int)
    requires MatchAt(s, i)
    ensures IsFirstMatch(s, f) && f <= i
  {
    var r := FindMatch(s, 0);
    f := r.value;
  }

  /**
   * The newline is not a word character, so extracting from newline-joined
   * texts finds exactly what the first successful per-text extraction finds.
   */
  lemma {:induction false} ExtractFromJoinedLines(texts: seq<string>)
    ensures ExtractIdNumber(Join(texts, "\n")) == FirstExtraction(texts)
  {
    if texts == [] {
      assert !MatchAt("", 0);
    } else if |texts| == 1 {
      assert FirstExtraction(texts[1..]) == None by {
        assert texts[1..] == [];
      }
    } else {
      ExtractFromJoinedLines(texts[1..]);
      ExtractAcrossNewline(texts[0], Join(texts[1..], "\n"));
    }
  }

  /** So a combined pass over texts that each yielded nothing yields nothing. */
  lemma CombinedPassFindsNothingNew(texts: seq<string>)
    requires forall i :: 0 <= i < |texts| ==> ExtractIdNumber(texts[i]).None?
    ensures ExtractIdNumber(Join(texts, "\n")).None?
  {
    ExtractFromJoinedLines(texts);
    NoFirstExtraction(texts);
  }

  lemma {:induction false} NoFirstExtraction(texts: seq<string>)
    requires forall i :: 0 <= i < |texts| ==> ExtractIdNumber(texts[i]).None?
    ensures FirstExtraction(texts).None?
  {
    if texts != [] {
      NoFirstExtraction(texts[1..]);
    }
  }
}
