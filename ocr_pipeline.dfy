/**
 * The recognition fallback of id_card_verifier.py: how `extract_text_pytesseract`
 * combines the outputs of its configurations, and the search of
 * `extract_and_verify` over preprocessing variants and engines. The OCR
 * engines and the image preprocessing are not modelled; their outputs are
 * inputs here.
 */
module OcrPipeline {
  import opened Wrappers
  import opened Text
  import opened ChineseIdVerifier
  import opened IdExtraction

  /** The Tesseract configurations, tried in this order for every image. */
  const TesseractConfigs: seq<string> := [
    "--oem 3 --psm 6",
    "--oem 3 --psm 11",
    "--oem 3 --psm 12",
    "--oem 3 --psm 6 -c tessedit_char_whitelist=0123456789X"
  ]

  /** `preprocess_image` produces four variants (adaptive and Otsu threshold, denoised, CLAHE). */
  const VariantCount: nat := 4

  // ---------------------------------------------------------------------------
  // extract_text_pytesseract

  /** The outputs, in order, of the calls that neither raised (None) nor returned "". */
  function SuccessfulTexts(outputs: seq<Option<string>>): (texts: seq<string>)
    ensures |texts| <= |outputs|
    ensures forall i :: 0 <= i < |texts| ==> texts[i] != ""
  {
    if outputs == [] then []
    else
      var last := outputs[|outputs| - 1];
      SuccessfulTexts(outputs[..|outputs| - 1]) + (if last.Some? && last.value != "" then [last.value] else [])
  }

  /**
   * `extract_text_pytesseract` for one image. `outputs[i]` is what
   * `image_to_string` gave for configuration i, None when it raised.
   * Returns None when Tesseract is unavailable, otherwise the newline-join of
   * the successful outputs in configuration order.
   */
  method ExtractTextPytesseract(available: bool, outputs: seq<Option<string>>) returns (r: Option<string>)
    requires |outputs| == |TesseractConfigs|
    ensures r.None? <==> !available
    ensures r.Some? ==> r.value == Join(SuccessfulTexts(outputs), "\n")
  {
    if !available {
      return None;
    }
    var allText: seq<string> := [];
    for i := 0 to |outputs|
      invariant allText == SuccessfulTexts(outputs[..i])
    {
      assert outputs[..i + 1][..i] == outputs[..i];
      var text := outputs[i];
      if text.None? {
        continue;
      }
      if text.value != "" {
        allText := allText + [text.value];
      }
    }
    assert outputs[..|outputs|] == outputs;
    return Some(Join(allText, "\n"));
  }

  /** The text Tesseract yields for one image. */
  function TesseractText(outputs: seq<Option<string>>): string
  {
    Join(SuccessfulTexts(outputs), "\n")
  }

  /** The combined text is empty exactly when no configuration succeeded. */
  lemma {:induction false} TesseractTextEmpty(outputs: seq<Option<string>>)
    ensures TesseractText(outputs) == "" <==>
      forall i :: 0 <= i < |outputs| ==> outputs[i].None? || outputs[i].value == ""
  {
    JoinEmpty(SuccessfulTexts(outputs), "\n");
    NoSuccessfulTexts(outputs);
  }

  lemma {:induction false} NoSuccessfulTexts(outputs: seq<Option<string>>)
    ensures SuccessfulTexts(outputs) == [] <==>
      forall i :: 0 <= i < |outputs| ==> outputs[i].None? || outputs[i].value == ""
  {
    if outputs != [] {
      var init := outputs[..|outputs| - 1];
      NoSuccessfulTexts(init);
      assert forall i :: 0 <= i < |init| ==> init[i] == outputs[i];
    }
  }

  /** Combining the configurations' outputs finds what the first successful one finds. */
  lemma TesseractTextCandidate(outputs: seq<Option<string>>)
    ensures ExtractIdNumber(TesseractText(outputs)) == FirstExtraction(SuccessfulTexts(outputs))
  {
    ExtractFromJoinedLines(SuccessfulTexts(outputs));
  }

  // ---------------------------------------------------------------------------
  // extract_and_verify

  datatype PipelineError =
    | ImageUnreadable   // `preprocess_image` raised: the image could not be read
    | NoTextExtracted   // no OCR library, or every attempt gave no text

  /** What the search reports: the error dialog, or the candidate (if any) with its verdict. */
  datatype PipelineResult = Failed(error: PipelineError) | Completed(id: Option<string>, verdict: Verdict)

  /** The Tesseract text of every preprocessing variant, in variant order. */
  function VariantTexts(variantOutputs: seq<seq<Option<string>>>): (texts: seq<string>)
    ensures |texts| == |variantOutputs|
    ensures forall i :: 0 <= i < |texts| ==> texts[i] == TesseractText(variantOutputs[i])
  {
    seq(|variantOutputs|, i requires 0 <= i < |variantOutputs| => TesseractText(variantOutputs[i]))
  }

  /**
   * Every text the search may try, in priority order: the variants' Tesseract
   * texts when Tesseract is available, then the EasyOCR text when EasyOCR is
   * available and did not fail.
   */
  function AttemptTexts(
    tesseractAvailable: bool, easyOcrAvailable: bool,
    variantOutputs: seq<seq<Option<string>>>, easyOcrText: Option<string>): seq<string>
  {
    (if tesseractAvailable then VariantTexts(variantOutputs) else [])
    + (if easyOcrAvailable && easyOcrText.Some? then [easyOcrText.value] else [])
  }

  /**
   * The outcome of the search, stated without its loop: fail if the image
   * cannot be read or no attempt gave any text; otherwise the candidate is the
   * first one that any attempt, in priority order, yields.
   */
  function PrioritySearch(imageReadable: bool, attempts: seq<string>, currentYear: int): PipelineResult
  {
    if !imageReadable then Failed(ImageUnreadable)
    else if forall i | 0 <= i < |attempts| :: attempts[i] == "" then Failed(NoTextExtracted)
    else
      var id := FirstExtraction(attempts);
      Completed(id, VerifyId(id, currentYear).value)
  }

  /** The texts, in order, that are not empty. */
  function NonEmptyTexts(texts: seq<string>): (r: seq<string>)
    ensures forall i :: 0 <= i < |r| ==> r[i] != ""
  {
    if texts == [] then []
    else
      var last := texts[|texts| - 1];
      NonEmptyTexts(texts[..|texts| - 1]) + (if last != "" then [last] else [])
  }

  /**
   * `extract_and_verify`, lines 505-546: Tesseract on every variant in turn,
   * stopping at the first text that yields a candidate; EasyOCR on the
   * original image only when no candidate was found; an error when no text
   * was collected; a last pass over the newline-joined texts; and the verdict.
   * The ghost outputs record how many variants went through Tesseract and
   * whether EasyOCR was called.
   */
  method ExtractAndVerify(
    imageReadable: bool, tesseractAvailable: bool, easyOcrAvailable: bool,
    variantOutputs: seq<seq<Option<string>>>, easyOcrText: Option<string>, currentYear: int)
    returns (r: PipelineResult, ghost variantsTried: nat, ghost easyOcrCalled: bool)
    requires |variantOutputs| == VariantCount
    requires forall i :: 0 <= i < |variantOutputs| ==> |variantOutputs[i]| == |TesseractConfigs|
    ensures r == PrioritySearch(imageReadable,
      AttemptTexts(tesseractAvailable, easyOcrAvailable, variantOutputs, easyOcrText), currentYear)
    ensures !imageReadable ==> variantsTried == 0 && !easyOcrCalled
    ensures imageReadable ==> (variantsTried ==
      if !tesseractAvailable then 0
      else var k := FirstHitIndex(VariantTexts(variantOutputs)); if k < VariantCount then k + 1 else VariantCount)
    ensures imageReadable ==> (easyOcrCalled <==>
      easyOcrAvailable && (!tesseractAvailable || FirstHitIndex(VariantTexts(variantOutputs)) == VariantCount))
  {
    variantsTried, easyOcrCalled := 0, false;
    if !imageReadable {
      r := Failed(ImageUnreadable);
      return;
    }
    var allText: seq<string> := [];
    var id: Option<string> := None;
    ghost var texts := if tesseractAvailable then VariantTexts(variantOutputs) else [];
    if tesseractAvailable {
      allText, id, variantsTried := SearchVariants(variantOutputs);
    }
    ghost var easy := if easyOcrAvailable && easyOcrText.Some? then [easyOcrText.value] else [];
    assert texts + easy == AttemptTexts(tesseractAvailable, easyOcrAvailable, variantOutputs, easyOcrText);
    TesseractPhase(texts, easy, allText, id, currentYear);

    if id.None? && easyOcrAvailable {
      easyOcrCalled := true;
      if easyOcrText.Some? && easyOcrText.value != "" {
        allText := allText + [easyOcrText.value];
        id := ExtractIdNumber(easyOcrText.value);
      }
    }

    if allText == [] {
      r := Failed(NoTextExtracted);
      return;
    }

    if id.None? {
      CombinedPassFindsNothingNew(allText);
      id := ExtractIdNumber(Join(allText, "\n"));
    }
    var verdict := VerifyId(id, currentYear);
    r := Completed(id, verdict.value);
  }

  /** What the Tesseract phase leaves decided about the search over texts + easy. */
  lemma TesseractPhase(texts: seq<string>, easy: seq<string>, allText: seq<string>, id: Option<string>, currentYear: int)
    requires |easy| <= 1
    requires id.Some? ==> id == FirstExtraction(texts) && allText != []
    requires id.None? ==> FirstExtraction(texts).None? && allText == NonEmptyTexts(texts)
    ensures id.Some? ==> PrioritySearch(true, texts + easy, currentYear) == Completed(id, VerifyId(id, currentYear).value)
    ensures id.None? ==> FirstExtraction(texts + easy) == if easy == [] || easy[0] == "" then None else ExtractIdNumber(easy[0])
    ensures id.None? ==> ((forall i | 0 <= i < |texts + easy| :: (texts + easy)[i] == "") <==>
      allText == [] && (easy == [] || easy[0] == ""))
  {
    FirstExtractionAppend(texts, easy);
    NothingFromEmptyText();
    AllEmptyAppend(texts, easy);
    if id.Some? {
      FoundInSomeText(texts);
    } else {
      NoNonEmptyTexts(texts);
      if easy != [] {
        assert easy == [easy[0]];
      }
    }
  }

  /**
   * The Tesseract loop of `extract_and_verify`: the variants in order, each
   * non-empty text collected and tried at once, stopping at the first that
   * yields a candidate.
   */
  method SearchVariants(variantOutputs: seq<seq<Option<string>>>)
    returns (allText: seq<string>, id: Option<string>, ghost variantsTried: nat)
    requires forall i :: 0 <= i < |variantOutputs| ==> |variantOutputs[i]| == |TesseractConfigs|
    ensures id.Some? ==> id == FirstExtraction(VariantTexts(variantOutputs)) && allText != []
    ensures id.None? ==> FirstExtraction(VariantTexts(variantOutputs)).None?
    ensures id.None? ==> allText == NonEmptyTexts(VariantTexts(variantOutputs))
    ensures id.None? ==> forall i :: 0 <= i < |allText| ==> ExtractIdNumber(allText[i]).None?
    ensures id.None? <==> FirstHitIndex(VariantTexts(variantOutputs)) == |variantOutputs|
    ensures variantsTried ==
      var k := FirstHitIndex(VariantTexts(variantOutputs)); if k < |variantOutputs| then k + 1 else |variantOutputs|
  {
    ghost var texts := VariantTexts(variantOutputs);
    ghost var found := FirstExtraction(texts);
    allText, id, variantsTried := [], None, 0;
    var k := 0;
    assert texts[0..] == texts;
    while k < |variantOutputs|
      invariant 0 <= k <= |texts| == |variantOutputs|
      invariant id.None? && variantsTried == k
      invariant allText == NonEmptyTexts(texts[..k])
      invariant found == FirstExtraction(texts[k..])
      invariant forall i :: 0 <= i < |allText| ==> ExtractIdNumber(allText[i]).None?
      invariant k <= FirstHitIndex(texts)
    {
      SearchStep(texts, k);
      HitStep(texts, k);
      NothingFromEmptyText();
      var text := ExtractTextPytesseract(true, variantOutputs[k]);
      variantsTried := k + 1;
      assert text == Some(texts[k]);
      if text.Some? && text.value != "" {
        allText := allText + [text.value];
        var tempId := ExtractIdNumber(text.value);
        if tempId.Some? {
          id := tempId;
          return;
        }
      }
      k := k + 1;
    }
    assert texts[..|texts|] == texts;
    assert texts[|texts|..] == [];
  }

  /** The index of the first text that yields a candidate; |texts| when none does. */
  function FirstHitIndex(texts: seq<string>): (k: nat)
    ensures k <= |texts|
    ensures forall i :: 0 <= i < k ==> ExtractIdNumber(texts[i]).None?
    ensures k < |texts| ==> ExtractIdNumber(texts[k]).Some?
  {
    if texts == [] then 0
    else if ExtractIdNumber(texts[0]).Some? then 0
    else
      var k := FirstHitIndex(texts[1..]);
      assert forall i :: 1 <= i < k + 1 ==> texts[i] == texts[1..][i - 1];
      k + 1
  }

  /** Text k, reached with no hit before it, is the first hit exactly when it yields a candidate. */
  lemma HitStep(texts: seq<string>, k: nat)
    requires k < |texts| && k <= FirstHitIndex(texts)
    ensures ExtractIdNumber(texts[k]).Some? ==> FirstHitIndex(texts) == k
    ensures ExtractIdNumber(texts[k]).None? ==> k + 1 <= FirstHitIndex(texts)
  {
  }

  /** The first hit is where the texts before k all yield nothing and text k (if any) yields a candidate. */
  lemma FirstHitAt(texts: seq<string>, k: nat)
    requires k <= |texts|
    requires forall i :: 0 <= i < k ==> ExtractIdNumber(texts[i]).None?
    requires k < |texts| ==> ExtractIdNumber(texts[k]).Some?
    ensures FirstHitIndex(texts) == k
  {
  }

  /** The search's candidate is the one of the first text that yields any. */
  lemma {:induction false} FirstHitDecides(texts: seq<string>)
    ensures FirstExtraction(texts) ==
      var k := FirstHitIndex(texts); if k < |texts| then ExtractIdNumber(texts[k]) else None
    ensures FirstExtraction(texts).None? <==> FirstHitIndex(texts) == |texts|
  {
    if texts != [] && ExtractIdNumber(texts[0]).None? {
      FirstHitDecides(texts[1..]);
      FirstHitAt(texts, FirstHitIndex(texts[1..]) + 1);
    }
  }

  /** One more text tried: what is collected after k + 1 texts, and what the search from k finds. */
  lemma SearchStep(texts: seq<string>, k: nat)
    requires k < |texts|
    ensures NonEmptyTexts(texts[..k + 1]) == NonEmptyTexts(texts[..k]) + (if texts[k] != "" then [texts[k]] else [])
    ensures FirstExtraction(texts[k..]) ==
      if ExtractIdNumber(texts[k]).Some? then ExtractIdNumber(texts[k]) else FirstExtraction(texts[k + 1..])
  {
    NonEmptyStep(texts, k);
    assert texts[k..][0] == texts[k];
    assert texts[k..][1..] == texts[k + 1..];
  }

  lemma NonEmptyStep(texts: seq<string>, k: nat)
    requires k < |texts|
    ensures NonEmptyTexts(texts[..k + 1]) == NonEmptyTexts(texts[..k]) + (if texts[k] != "" then [texts[k]] else [])
  {
    assert texts[..k + 1][..k] == texts[..k];
  }

  lemma {:induction false} FirstExtractionAppend(p: seq<string>, q: seq<string>)
    ensures FirstExtraction(p + q) ==
      if FirstExtraction(p).Some? then FirstExtraction(p) else FirstExtraction(q)
  {
    if p != [] {
      assert (p + q)[1..] == p[1..] + q;
      FirstExtractionAppend(p[1..], q);
    } else {
      assert p + q == q;
    }
  }

  lemma NothingFromEmptyText()
    ensures ExtractIdNumber("").None?
    ensures FirstExtraction([""]).None?
  {
    assert forall i :: !MatchAt("", i);
  }

  /** A text that yields a candidate is not empty. */
  lemma {:induction false} FoundInSomeText(texts: seq<string>)
    requires FirstExtraction(texts).Some?
    ensures !forall i | 0 <= i < |texts| :: texts[i] == ""
  {
    NothingFromEmptyText();
    if ExtractIdNumber(texts[0]).None? {
      FoundInSomeText(texts[1..]);
      var i :| 0 <= i < |texts[1..]| && texts[1..][i] != "";
      assert texts[i + 1] != "";
    }
  }

  lemma AllEmptyAppend(p: seq<string>, q: seq<string>)
    ensures (forall i | 0 <= i < |p + q| :: (p + q)[i] == "") <==>
      (forall i | 0 <= i < |p| :: p[i] == "") && (forall i | 0 <= i < |q| :: q[i] == "")
  {
    if forall i | 0 <= i < |p + q| :: (p + q)[i] == "" {
      assert forall i | 0 <= i < |p| :: p[i] == (p + q)[i];
      assert forall i | 0 <= i < |q| :: q[i] == (p + q)[|p| + i];
    }
  }

  lemma {:induction false} NoNonEmptyTexts(texts: seq<string>)
    ensures NonEmptyTexts(texts) == [] <==> forall i :: 0 <= i < |texts| ==> texts[i] == ""
  {
    if texts != [] {
      var init := texts[..|texts| - 1];
      NoNonEmptyTexts(init);
      assert forall i :: 0 <= i < |init| ==> init[i] == texts[i];
    }
  }

  // ---------------------------------------------------------------------------
  // Properties of the search

  /** The first variant whose text yields a candidate decides the result, whatever EasyOCR would return. */
  lemma {:induction false} FirstVariantHitWins(
    variantOutputs: seq<seq<Option<string>>>, easyOcrAvailable: bool, easyOcrText: Option<string>,
    currentYear: int, j: nat)
    requires j < |variantOutputs|
    requires ExtractIdNumber(VariantTexts(variantOutputs)[j]).Some?
    requires forall i :: 0 <= i < j ==> ExtractIdNumber(VariantTexts(variantOutputs)[i]).None?
    ensures PrioritySearch(true, AttemptTexts(true, easyOcrAvailable, variantOutputs, easyOcrText), currentYear)
      == var id := ExtractIdNumber(VariantTexts(variantOutputs)[j]);
         Completed(id, VerifyId(id, currentYear).value)
  {
    var texts := VariantTexts(variantOutputs);
    var easy := if easyOcrAvailable && easyOcrText.Some? then [easyOcrText.value] else [];
    FirstExtractionAppend(texts, easy);
    FirstExtractionAppend(texts[..j], texts[j..]);
    assert texts[..j] + texts[j..] == texts;
    NoFirstExtraction(texts[..j]);
    assert texts[j..][0] == texts[j];
    assert texts[j] != "" by {
      assert !MatchAt("", 0);
    }
    assert (texts + easy)[j] == texts[j];
  }

  /** When no variant yields a candidate, the EasyOCR text alone decides it. */
  lemma EasyOcrFallback(
    tesseractAvailable: bool, variantOutputs: seq<seq<Option<string>>>, easyText: string, currentYear: int)
    requires tesseractAvailable ==>
      forall i :: 0 <= i < |variantOutputs| ==> ExtractIdNumber(VariantTexts(variantOutputs)[i]).None?
    requires easyText != ""
    ensures PrioritySearch(true, AttemptTexts(tesseractAvailable, true, variantOutputs, Some(easyText)), currentYear)
      == var id := ExtractIdNumber(easyText);
         Completed(id, VerifyId(id, currentYear).value)
  {
    var texts := if tesseractAvailable then VariantTexts(variantOutputs) else [];
    FirstExtractionAppend(texts, [easyText]);
    NoFirstExtraction(texts);
    assert (texts + [easyText])[|texts|] == easyText;
  }

  /** The search fails for lack of text exactly when no attempt produced any. */
  lemma NoTextIffNothingRecognized(
    tesseractAvailable: bool, easyOcrAvailable: bool,
    variantOutputs: seq<seq<Option<string>>>, easyOcrText: Option<string>, currentYear: int)
    ensures (PrioritySearch(true, AttemptTexts(tesseractAvailable, easyOcrAvailable, variantOutputs, easyOcrText), currentYear)
      == Failed(NoTextExtracted))
      <==>
      && (tesseractAvailable ==> forall i, c :: 0 <= i < |variantOutputs| && 0 <= c < |variantOutputs[i]| ==>
            variantOutputs[i][c].None? || variantOutputs[i][c].value == "")
      && (easyOcrAvailable && easyOcrText.Some? ==> easyOcrText.value == "")
  {
    var attempts := AttemptTexts(tesseractAvailable, easyOcrAvailable, variantOutputs, easyOcrText);
    if tesseractAvailable {
      var texts := VariantTexts(variantOutputs);
      forall i | 0 <= i < |variantOutputs| ensures
        texts[i] == "" <==> forall c :: 0 <= c < |variantOutputs[i]| ==>
          variantOutputs[i][c].None? || variantOutputs[i][c].value == ""
      {
        TesseractTextEmpty(variantOutputs[i]);
      }
      assert forall i :: 0 <= i < |texts| ==> attempts[i] == texts[i];
    }
    if easyOcrAvailable && easyOcrText.Some? {
      assert attempts[|attempts| - 1] == easyOcrText.value;
    }
  }

  /** If any attempt yields a candidate, the search reports one. */
  lemma {:induction false} AnyCandidateIsFound(attempts: seq<string>, j: nat, currentYear: int)
    requires j < |attempts| && ExtractIdNumber(attempts[j]).Some?
    ensures PrioritySearch(true, attempts, currentYear).Completed?
    ensures PrioritySearch(true, attempts, currentYear).id.Some?
  {
    assert attempts[j] != "" by {
      assert !MatchAt("", 0);
    }
    FirstExtractionAppend(attempts[..j], attempts[j..]);
    assert attempts[..j] + attempts[j..] == attempts;
  }

  /** A valid verdict always comes with a well-formed candidate. */
  lemma ValidImpliesWellFormed(imageReadable: bool, attempts: seq<string>, currentYear: int)
    requires PrioritySearch(imageReadable, attempts, currentYear).Completed?
    requires PrioritySearch(imageReadable, attempts, currentYear).verdict.valid
    ensures PrioritySearch(imageReadable, attempts, currentYear).id.Some?
    ensures IsWellFormedId(PrioritySearch(imageReadable, attempts, currentYear).id.value, currentYear)
  {
  }
}
