/**
 * `extract_id_number` of debug_ocr.py: the same full match as the main
 * extractor and, when there is none, the partial matches of `\d{10,}` for
 * diagnostic display.
 */
module DebugOcr {
  import opened Wrappers
  import opened Text
  import opened IdExtraction

  /** The three shapes the debug extractor returns. */
  datatype DebugExtraction =
    | NoText                            // `None` for a missing or empty text
    | Candidate(id: string)             // the upper-cased full match
    | NoCandidate(partials: seq<string>) // `(None, partials)`

  /** A maximal run of at least ten digits from i to j. */
  predicate IsLongDigitRun(s: string, i: int, j: int)
  {
    && 0 <= i && i + 10 <= j <= |s|
    && DigitsIn(s, i, j)
    && (i == 0 || !IsDigit(s[i - 1]))
    && (j == |s| || !IsDigit(s[j]))
  }

  /** The end of the maximal run of digits that starts at k. */
  function DigitRunEnd(s: string, k: nat): (e: nat)
    requires k <= |s|
    ensures k <= e <= |s|
    ensures DigitsIn(s, k, e)
    ensures e < |s| ==> !IsDigit(s[e])
    decreases |s| - k
  {
    if k == |s| || !IsDigit(s[k]) then k else DigitRunEnd(s, k + 1)
  }

  /**
   * The (start, end) positions of the matches of `\d{10,}` at or after k, as
   * `re.findall` scans: greedy, non-overlapping, left to right, so exactly the
   * maximal digit runs of length ten or more, in order.
   */
  function LongDigitRuns(s: string, k: nat): (runs: seq<(nat, nat)>)
    requires k <= |s|
    requires k == 0 || !IsDigit(s[k - 1])
    ensures forall p :: 0 <= p < |runs| ==> k <= runs[p].0 && IsLongDigitRun(s, runs[p].0, runs[p].1)
    ensures forall p, q :: 0 <= p < q < |runs| ==> runs[p].1 < runs[q].0
    ensures forall i, j :: k <= i && IsLongDigitRun(s, i, j) ==> (i, j) in runs
    decreases |s| - k
  {
    if k == |s| then []
    else if !IsDigit(s[k]) then LongDigitRuns(s, k + 1)
    else
      var e := DigitRunEnd(s, k);
      var rest := if e == |s| then [] else LongDigitRuns(s, e + 1);
      RunsOutsideFirst(s, k, e);
      if e - k >= 10 then
        PrependRun(s, k, e, rest);
        [(k, e)] + rest
      else rest
  }

  /** A long run followed by the runs after it stays sound and ordered. */
  lemma PrependRun(s: string, k: nat, e: nat, rest: seq<(nat, nat)>)
    requires IsLongDigitRun(s, k, e)
    requires forall p :: 0 <= p < |rest| ==> e < rest[p].0 && IsLongDigitRun(s, rest[p].0, rest[p].1)
    requires forall p, q :: 0 <= p < q < |rest| ==> rest[p].1 < rest[q].0
    ensures forall p :: 0 <= p < |[(k, e)] + rest| ==>
      k <= ([(k, e)] + rest)[p].0 && IsLongDigitRun(s, ([(k, e)] + rest)[p].0, ([(k, e)] + rest)[p].1)
    ensures forall p, q :: 0 <= p < q < |[(k, e)] + rest| ==> ([(k, e)] + rest)[p].1 < ([(k, e)] + rest)[q].0
  {
    var runs := [(k, e)] + rest;
    assert forall p :: 0 < p < |runs| ==> runs[p] == rest[p - 1];
  }

  /** Past k, a long run starts either at k, ending at e, or after e. */
  lemma RunsOutsideFirst(s: string, k: nat, e: nat)
    requires k < e <= |s| && DigitsIn(s, k, e) && (e < |s| ==> !IsDigit(s[e]))
    ensures forall i, j :: k <= i && IsLongDigitRun(s, i, j) ==> (i == k && j == e) || e < i
  {
  }

  lemma RunIsDigits(s: string, i: nat, j: nat)
    requires IsLongDigitRun(s, i, j)
    ensures |s[i..j]| >= 10 && AllDigits(s[i..j])
  {
    assert forall m :: 0 <= m < j - i ==> s[i..j][m] == s[i + m];
  }

  /** The partial matches of `\d{10,}`: the texts of the long digit runs. */
  function PartialMatches(s: string): (partials: seq<string>)
    ensures forall p :: 0 <= p < |partials| ==> |partials[p]| >= 10 && AllDigits(partials[p])
    ensures |partials| == |LongDigitRuns(s, 0)|
    ensures forall p :: 0 <= p < |partials| ==>
      partials[p] == s[LongDigitRuns(s, 0)[p].0..LongDigitRuns(s, 0)[p].1]
  {
    var runs := LongDigitRuns(s, 0);
    var partials := seq(|runs|, p requires 0 <= p < |runs| => s[runs[p].0..runs[p].1]);
    assert forall p :: 0 <= p < |partials| ==> |partials[p]| >= 10 && AllDigits(partials[p]) by {
      forall p | 0 <= p < |partials| ensures |partials[p]| >= 10 && AllDigits(partials[p]) {
        RunIsDigits(s, runs[p].0, runs[p].1);
      }
    }
    partials
  }

  /** debug_ocr.py's `extract_id_number`. */
  function DebugExtractIdNumber(text: Option<string>): (r: DebugExtraction)
    ensures r == NoText <==> text.None? || text.value == ""
    ensures r.Candidate? ==> IsCandidate(r.id)
    ensures r.Candidate? ==> forall i :: IsFirstMatch(text.value, i) ==> r.id == Upper(text.value[i..i + 18])
    ensures r.NoCandidate? <==> text.Some? && text.value != "" && forall i :: !MatchAt(text.value, i)
    ensures r.NoCandidate? ==> forall p :: 0 <= p < |r.partials| ==>
      |r.partials[p]| >= 10 && AllDigits(r.partials[p])
  {
    if text.None? || text.value == "" then NoText
    else
      match ExtractIdNumber(text.value)
      case Some(id) => Candidate(id)
      case None => NoCandidate(PartialMatches(text.value))
  }

  /** Whenever the main extractor finds a candidate, the debug one returns the same. */
  lemma DebugAgreesWithMain(text: string)
    requires ExtractIdNumber(text).Some?
    ensures DebugExtractIdNumber(Some(text)) == Candidate(ExtractIdNumber(text).value)
  {
  }

  /** A partial is reported for every maximal run of ten or more digits, word-bounded or not. */
  lemma EveryLongRunIsReported(text: string, i: nat, j: nat)
    requires forall k :: !MatchAt(text, k)
    requires IsLongDigitRun(text, i, j)
    ensures DebugExtractIdNumber(Some(text)).NoCandidate?
    ensures text[i..j] in DebugExtractIdNumber(Some(text)).partials
  {
    assert text != [];
    assert DebugExtractIdNumber(Some(text)) == NoCandidate(PartialMatches(text));
    var runs := LongDigitRuns(text, 0);
    var p :| 0 <= p < |runs| && runs[p] == (i, j);
    assert PartialMatches(text)[p] == text[i..j];
  }

  /** Every reported partial is a maximal digit run of the text. */
  lemma EveryPartialIsALongRun(text: string, p: nat)
    requires DebugExtractIdNumber(Some(text)).NoCandidate?
    requires p < |DebugExtractIdNumber(Some(text)).partials|
    ensures exists i, j :: IsLongDigitRun(text, i, j) && DebugExtractIdNumber(Some(text)).partials[p] == text[i..j]
  {
    var (i, j) := LongDigitRuns(text, 0)[p];
    assert IsLongDigitRun(text, i, j);
  }

  /** A run of 19 digits is not a candidate; it is reported whole as a partial. */
  lemma NineteenDigitsArePartial(s: string)
    requires |s| == 19 && AllDigits(s)
    ensures DebugExtractIdNumber(Some(s)) == NoCandidate([s])
  {
    forall i ensures !MatchAt(s, i) {
      if 0 < i && i + 18 <= |s| { assert IsWordChar(s[i - 1]); }
      if i == 0 { assert IsWordChar(s[18]); }
    }
    AllOfTheDigits(s);
  }

  /**
   * 18 digits glued to a word character that is not a digit (a letter, '_'
   * or an ideograph) are not a candidate; the digits are a partial.
   */
  lemma DigitsGluedToWordCharArePartial(d: string, c: char)
    requires |d| == 18 && AllDigits(d) && IsWordChar(c) && !IsDigit(c)
    ensures DebugExtractIdNumber(Some(d + [c])) == NoCandidate([d])
  {
    var s := d + [c];
    forall i ensures !MatchAt(s, i) {
      if i == 0 { assert s[18] == c; }
      if i == 1 { assert s[0] == d[0]; }
    }
    assert DigitsIn(s, 0, 18) by { assert forall m :: 0 <= m < 18 ==> s[m] == d[m]; }
    forall i, j | IsLongDigitRun(s, i, j) ensures i == 0 && j == 18 {
      assert j <= 18 by { assert !IsDigit(s[18]); }
    }
    OnlyRun(s, 0, 18);
    assert s[0..18] == d;
  }

  lemma AllOfTheDigits(s: string)
    requires |s| >= 10 && AllDigits(s)
    ensures PartialMatches(s) == [s]
  {
    OnlyRun(s, 0, |s|);
    assert s[0..|s|] == s;
  }

  /** A text with a single long digit run has that run as its only partial match. */
  lemma OnlyRun(s: string, i: nat, j: nat)
    requires IsLongDigitRun(s, i, j)
    requires forall i', j' :: IsLongDigitRun(s, i', j') ==> i' == i && j' == j
    ensures PartialMatches(s) == [s[i..j]]
  {
    var runs := LongDigitRuns(s, 0);
    assert (i, j) in runs;
    forall p | 0 <= p < |runs| ensures runs[p] == (i, j) {
      var (a, b) := runs[p];
      assert IsLongDigitRun(s, a, b);
    }
    if 1 < |runs| {
      TwoRunsDiffer(s, 0, 1);
      assert false;
    }
  }

  /** Two reported runs are never the same run. */
  lemma TwoRunsDiffer(s: string, p: nat, q: nat)
    requires p < q < |LongDigitRuns(s, 0)|
    ensures LongDigitRuns(s, 0)[p] != LongDigitRuns(s, 0)[q]
  {
  }
}
