# Chinese resident identity number: extraction and verification, in Dafny

This project models the recognition and verification core of an ID-card
verifier desktop tool (`id_card_verifier.py` and its debugging script
`debug_ocr.py`) and proves properties of that model. The model covers:

- **Format verification** (`ChineseIdVerifier`). This is `ChineseIDVerifier.verify_id`
  and its own checks:
  - the length must be 18;
  - the six-digit address code;
  - the birth date `YYYYMMDD`, which must fall between 1900 and the current
    year and exist in the Gregorian calendar;
  - the three-digit sequence code;
  - the check character, from the weighted sum with weights
    `7 9 10 5 8 4 2 1 6 3 7 9 10 5 8 4 2` and the map `1 0 X 9 8 7 6 5 4 3 2`.

  The checksum loop is an imperative method. It is proved equal to the
  ISO/IEC 7064 MOD 11-2 check, written independently with powers of two.
  `verify_id` is proved to accept exactly the well-formed numbers, to report
  the first check that fails, and never to raise on text whose digits are
  ASCII (see "Left out" for other Unicode digits).
  `validate_checksum` appears twice: the function `ChecksumResult` says
  what it returns, and the method `ValidateChecksum` is its loop, proved to
  return the same. `VerifyId` calls the function, so the proofs about
  `verify_id` rest on `ChecksumResult` and, through `ValidateChecksum`, on
  the loop as written.
- **Extraction** (`IdExtraction`). This is the regular expression
  `\b\d{17}[\dXx]\b` of `extract_id_number`, as a position predicate. The
  extractor is a left-to-right scan over word runs, proved to return the
  leftmost match upper-cased. Matches never cross a newline, so extracting
  from newline-joined texts finds what the first successful text finds.
- **OCR fallback search** (`OcrPipeline`). The method covers:
  - how `extract_text_pytesseract` joins its four configurations' outputs;
  - how `extract_and_verify` tries the four preprocessing variants in order
    and stops at the first candidate;
  - the fall back to EasyOCR;
  - the error raised when no text at all was recognised;
  - the final combined pass.

  The configuration loop of `extract_text_pytesseract` and the variant loop of
  `extract_and_verify` are imperative methods. `ExtractTextPytesseract` is
  proved to return the newline-join of the successful outputs.
  `ExtractAndVerify` is proved equal to `PrioritySearch`: the first candidate
  among all attempted texts, in priority order. Two ghost outputs of
  `ExtractAndVerify` record how many variants were run through Tesseract
  (up to and including the first that yields a candidate) and whether
  EasyOCR was called (only when no variant yielded a candidate).
  The search keeps the first candidate it finds even when that number then
  fails verification: a valid number in a later variant or in the EasyOCR
  text is never reached (`FirstVariantHitWins`).
- **Debug extractor** (`DebugOcr`). This is the `extract_id_number` of
  `debug_ocr.py`: the same full match, and otherwise the list of `\d{10,}`
  partial matches. That list is proved to be exactly the maximal digit runs
  of length 10 or more, in order.
- **The cases of `test_verifier.py`** (`TestVectors`, `ExtractionVectors`).
  Each case is a lemma about the model, together with the calendar edge
  cases of the birth-date check.

The OCR engines and image preprocessing are not modelled. What they return
is an input:
- for every variant and Tesseract configuration, `None` when the call raised,
  else its text;
- the EasyOCR text, or `None`;
- whether the image could be read.

`datetime.now().year` is the parameter `currentYear`. The Chinese messages of
`verify_id` are the constructors of `Reason`.

Two facts about the test data came out of the model:
- The third extraction sample, `51010219890101001X` (test_verifier.py:108),
  is extracted but fails its checksum. Its weighted sum is 159, which
  calls for `7`.
- The second sample (test_verifier.py:107) has birth year 1880, which the
  birth-date check rejects.

Neither case is asserted to be valid by the tests, which only check
extraction there.

Files:
- `wrappers.dfy`: `Option`.
- `text.dfy`: character classes, Python-style slicing, `int()` on digits,
  `upper()`, `'\n'.join`.
- `id_verifier.dfy`.
- `id_extraction.dfy`.
- `ocr_pipeline.dfy`.
- `debug_ocr.dfy`.
- `test_vectors.dfy`.
- `extraction_vectors.dfy`.

## Model

| member | source | states |
|---|---|---|
| `Text.IsDigit` | id_card_verifier.py:71 | `\d` and `str.isdigit` on one character, on ASCII: `0` to `9` |
| `Text.IsWordChar` | id_card_verifier.py:71 | the word characters behind `\b`: ASCII letters and digits, `_`, and the CJK ideographs U+3400-U+4DBF and U+4E00-U+9FFF |
| `Text.IsDigitString` | id_card_verifier.py:83 | `str.isdigit()` of a whole string (as at id_card_verifier.py:83, :90 and :116): non-empty, and every character a digit |
| `Text.DigitStringOfSlice` | id_card_verifier.py:82-83 | `s[lo:hi].isdigit()` holds iff the slice is non-empty and all its characters are digits |
| `Text.DigitValue` | id_card_verifier.py:127 | `int()` of one digit is between 0 and 9 |
| `Text.Slice` | id_card_verifier.py:82 | Python's clamped slicing: the slice is empty past the end, cut at the end, and otherwise the exact sub-sequence |
| `Text.UpperChar` | id_card_verifier.py:135 | `upper()` on one ASCII character moves a-z to A-Z and leaves every other ASCII character alone |
| `Text.Upper` | id_card_verifier.py:76 | `upper()` keeps the length and upper-cases each character |
| `Text.UpperKeepsUpperCase` | id_card_verifier.py:76 | a text without lower-case letters is unchanged by `upper()` |
| `Text.ParseDecimal` | id_card_verifier.py:94-96 | `int()` on a string of ASCII digits, the positional value read left to right; its values are stated by `Text.ParseTwoAndFourDigits` |
| `Text.ParseTwoAndFourDigits` | id_card_verifier.py:94-96 | `int()` of two and of four digits is the usual positional value |
| `Text.Join` | id_card_verifier.py:240 | `sep.join(parts)`: the parts with the separator between neighbours; `Text.JoinEmpty` and `IdExtraction.ExtractFromJoinedLines` state its properties |
| `Text.JoinEmpty` | id_card_verifier.py:240 | a newline-join of non-empty texts is empty iff there are no texts |
| `ChineseIdVerifier.WeightedSum` | id_card_verifier.py:125-128 | the `weighted_sum` after n steps: the sum over the first n characters of the digit value times `WEIGHTS[i]` (the table at id_card_verifier.py:62, the constant `Weights`); `IsoSumIsWeightedSum` ties it to the ISO sum |
| `ChineseIdVerifier.ChecksumResult` | id_card_verifier.py:119-136 | what `validate_checksum` returns, as `verify_id` calls it: `False` for a length other than 18, `ValueError` when `int()` meets a non-digit among the first 17, else whether the upper-cased 18th character is the mapped one; `ValidateChecksum` is proved to return the same and `ChecksumIsIso7064` characterises it |
| `ChineseIdVerifier.ValidateChecksum` | id_card_verifier.py:119-136 | the loop returns what `validate_checksum` returns: `False` for a wrong length, a `ValueError` exactly when one of the first 17 characters is not a digit, and `True` exactly when the number satisfies ISO/IEC 7064 MOD 11-2 |
| `ChineseIdVerifier.WeightsArePowersOfTwo` | id_card_verifier.py:62 | `WEIGHTS` (the constant `Weights`): each weight is 2^(17-i) mod 11, the ISO/IEC 7064 MOD 11-2 weight of position i |
| `ChineseIdVerifier.IsoSumIsWeightedSum` | id_card_verifier.py:125-128 | the table-weighted sum equals the ISO weighted sum |
| `ChineseIdVerifier.CheckCharacterOfRemainder` | id_card_verifier.py:65 | `CHECKSUM_MAP` (the constant `ChecksumMap`): the mapped character for remainder m is exactly the character (X = 10) that brings the ISO sum to 1 mod 11 |
| `ChineseIdVerifier.ChecksumIsIso7064` | id_card_verifier.py:119-136 | the table-based checksum passes iff the ISO/IEC 7064 MOD 11-2 check passes |
| `ChineseIdVerifier.ChecksumCharacterization` | id_card_verifier.py:131-136 | for 17 leading digits: the checksum passes iff the upper-cased 18th character is `CHECKSUM_MAP[sum % 11]`, and the index is in range |
| `ChineseIdVerifier.ValidateAddressCode` | id_card_verifier.py:80-83 | true iff the first six characters (or the whole text, if shorter and non-empty) are digits |
| `ChineseIdVerifier.ValidateSequenceCode` | id_card_verifier.py:113-116 | true iff positions 15-17 (those present, at least one) are digits |
| `ChineseIdVerifier.DaysInMonth` | id_card_verifier.py:107 | a month has 28 to 31 days |
| `ChineseIdVerifier.IsCalendarDate` | id_card_verifier.py:107 | `datetime(y, m, d)` does not raise: year 1 to 9999, month 1 to 12, day within the Gregorian month; pinned by the April and leap-day vectors |
| `ChineseIdVerifier.ValidateBirthDate` | id_card_verifier.py:86-110 | true only for at least 13 characters; for 14 or more, true iff positions 7-14 are digits and form a calendar date from 1900 to the current year |
| `ChineseIdVerifier.BirthDateFields` | id_card_verifier.py:88-96 | when the slices pass, the text has at least 13 characters; from 14 on, the year, month and day slices are `id[6:10]`, `id[10:12]` and `id[12:14]` |
| `ChineseIdVerifier.DayPreFilterIsRedundant` | id_card_verifier.py:103-107 | every calendar date already has a day in [1, 31], so the explicit bound adds nothing to `datetime()` |
| `ChineseIdVerifier.VerifyId` | id_card_verifier.py:139-167 | never raises; valid iff the reason is the success message; not found iff missing or empty; a length error iff the length is not 18, carrying the observed length; valid only for well-formed numbers |
| `ChineseIdVerifier.ChecksumStepSeesDigits` | id_card_verifier.py:151-164 | once the address, birth-date and sequence checks pass, the first 17 characters are digits and the checksum cannot raise |
| `ChineseIdVerifier.VerifyIdAcceptsExactlyWellFormed` | id_card_verifier.py:139-167 | `verify_id` says valid iff the number is well-formed: 18 characters, 17 digits, a real birth date from 1900 to now, and the ISO check |
| `ChineseIdVerifier.VerifyIdReportsFirstFailure` | id_card_verifier.py:151-165 | for 18 characters, each failure message appears iff its check is the first one to fail |
| `ChineseIdVerifier.BirthFieldsExpanded` | id_card_verifier.py:94-96 | the year, month and day are the positional values of their digits |
| `IdExtraction.MatchAt` | id_card_verifier.py:71 | `\b\d{17}[\dXx]\b` matches at i: a word boundary before, 17 digits and a digit, `X` or `x`, a word boundary after |
| `IdExtraction.WordRunEnd` | id_card_verifier.py:71 | the end of the maximal run of word characters from k |
| `IdExtraction.FindMatch` | id_card_verifier.py:71-72 | the scan returns the leftmost position at or after k where the pattern matches, or none when there is none |
| `IdExtraction.RunMatches` | id_card_verifier.py:71 | inside one word run the pattern can only match at the run's start, and only when the run is exactly the 18 characters |
| `IdExtraction.ExtractIdNumber` | id_card_verifier.py:68-77 | `None` iff the pattern matches nowhere; otherwise the upper-cased leftmost match, which is 17 digits and a digit or `X` |
| `IdExtraction.NoMatchAcross` | id_card_verifier.py:71 | no match spans a non-word character |
| `IdExtraction.FirstMatchUnique` | id_card_verifier.py:74-76 | the leftmost match is unique |
| `IdExtraction.MatchAcrossNewline` | id_card_verifier.py:541-542 | a match in `a + "\n" + b` is a match of a, or of b shifted, and never straddles the newline |
| `IdExtraction.ExtractAcrossNewline` | id_card_verifier.py:541-542 | extracting from `a + "\n" + b` gives a's candidate if there is one, else b's |
| `IdExtraction.NewlineKeepsFirstOfA` | id_card_verifier.py:541-542 | a's candidate survives appending a newline and b |
| `IdExtraction.NewlineDefersToB` | id_card_verifier.py:541-542 | if a has no candidate, `a + "\n" + b` yields b's |
| `IdExtraction.LeftmostMatch` | id_card_verifier.py:72-76 | any text with a match has a leftmost one |
| `IdExtraction.ExtractFromJoinedLines` | id_card_verifier.py:540-542 | extracting from the newline-joined texts equals the first successful per-text extraction |
| `IdExtraction.CombinedPassFindsNothingNew` | id_card_verifier.py:538-542 | when every collected text yielded nothing, the combined pass yields nothing |
| `IdExtraction.NoFirstExtraction` | id_card_verifier.py:517-533 | texts that each yield nothing yield nothing in order |
| `OcrPipeline.SuccessfulTexts` | id_card_verifier.py:230-237 | the collected outputs are non-empty and no more than the calls made |
| `OcrPipeline.ExtractTextPytesseract` | id_card_verifier.py:216-240 | `None` iff Tesseract is unavailable; otherwise the newline-join of the outputs of the four configurations of id_card_verifier.py:223-228 (the constant `TesseractConfigs`, one output each) that neither raised nor were empty, in configuration order |
| `OcrPipeline.NoSuccessfulTexts` | id_card_verifier.py:230-237 | nothing is collected iff every configuration raised or returned "" |
| `OcrPipeline.TesseractTextEmpty` | id_card_verifier.py:230-240 | the combined text is empty iff every configuration raised or returned "" |
| `OcrPipeline.TesseractTextCandidate` | id_card_verifier.py:240 | the combined text's candidate is the first successful configuration's candidate |
| `OcrPipeline.TesseractText` | id_card_verifier.py:240 | the text Tesseract returns for one image, the newline-join of the successful outputs; `TesseractTextEmpty` and `TesseractTextCandidate` state its properties |
| `OcrPipeline.VariantTexts` | id_card_verifier.py:517-518 | one Tesseract text per preprocessing variant, in variant order |
| `OcrPipeline.NonEmptyTexts` | id_card_verifier.py:519-520 | the collected texts are the non-empty ones, in order |
| `OcrPipeline.ExtractAndVerify` | id_card_verifier.py:505-546 | the result equals `PrioritySearch`: unreadable image, else no text at all, else the first candidate among the variants' texts and then the EasyOCR text, with its verdict; Tesseract runs on the variants up to and including the first that yields a candidate (all four when none does, none when Tesseract is unavailable); EasyOCR is called iff it is available and no variant yielded a candidate |
| `OcrPipeline.TesseractPhase` | id_card_verifier.py:514-535 | after the variant loop: a found candidate decides the search, and otherwise only the EasyOCR text can add a candidate or any text at all |
| `OcrPipeline.SearchVariants` | id_card_verifier.py:514-525 | the variant loop finds the first candidate among the variants' texts; it finds none iff no variant yields one, and then it has collected exactly the non-empty texts, each with no candidate; it stops after the first variant that yields a candidate |
| `OcrPipeline.FirstHitIndex` | id_card_verifier.py:517-525 | the index of the first text that yields a candidate: every earlier text yields none, and the text there (if any) yields one |
| `OcrPipeline.HitStep` | id_card_verifier.py:521-525 | a variant reached with no earlier hit is the first hit exactly when it yields a candidate |
| `OcrPipeline.FirstHitAt` | id_card_verifier.py:517-525 | the first hit is the one position with no hit before and a hit at it |
| `OcrPipeline.FirstHitDecides` | id_card_verifier.py:517-525 | the search's candidate is that of the first hit, and there is none iff no text yields one |
| `OcrPipeline.SearchStep` | id_card_verifier.py:517-525 | one more variant extends the collected texts by its text when non-empty; its candidate, if any, is the search's |
| `OcrPipeline.NonEmptyStep` | id_card_verifier.py:519-520 | collecting one more text appends it exactly when it is non-empty |
| `OcrPipeline.FirstExtractionAppend` | id_card_verifier.py:514-533 | the first candidate of two lists of attempts is the first list's if it has one, else the second's |
| `OcrPipeline.NothingFromEmptyText` | id_card_verifier.py:519 | an empty text has no candidate |
| `OcrPipeline.FoundInSomeText` | id_card_verifier.py:535 | if a candidate was found, some text was non-empty |
| `OcrPipeline.AllEmptyAppend` | id_card_verifier.py:535 | all attempts are empty iff both parts are |
| `OcrPipeline.NoNonEmptyTexts` | id_card_verifier.py:535 | nothing is collected iff every text is empty |
| `OcrPipeline.FirstVariantHitWins` | id_card_verifier.py:523-528 | the first variant with a candidate decides the result, whatever the EasyOCR text would be |
| `OcrPipeline.EasyOcrFallback` | id_card_verifier.py:528-533 | when no variant yields a candidate, a non-empty EasyOCR text decides the candidate |
| `OcrPipeline.NoTextIffNothingRecognized` | id_card_verifier.py:535-536 | the search fails for lack of text iff every Tesseract call raised or returned "" and EasyOCR gave nothing |
| `OcrPipeline.AnyCandidateIsFound` | id_card_verifier.py:514-542 | if any attempt has a candidate, the search reports one |
| `OcrPipeline.ValidImpliesWellFormed` | id_card_verifier.py:546 | a valid verdict comes with a well-formed candidate |
| `DebugOcr.DigitRunEnd` | debug_ocr.py:142 | the end of the maximal digit run from k |
| `DebugOcr.LongDigitRuns` | debug_ocr.py:142-143 | `re.findall(r'\d{10,}')` positions: each a maximal run of at least ten digits, strictly in order, and every such run is listed |
| `DebugOcr.PrependRun` | debug_ocr.py:142-143 | a run followed by the later runs stays sound and ordered |
| `DebugOcr.RunsOutsideFirst` | debug_ocr.py:142-143 | past k, a long run is the one starting at k or lies beyond its end |
| `DebugOcr.RunIsDigits` | debug_ocr.py:142 | a long run's text has at least ten digits |
| `DebugOcr.PartialMatches` | debug_ocr.py:142-145 | one partial per long run, each its text, of ten or more digits |
| `DebugOcr.DebugExtractIdNumber` | debug_ocr.py:129-145 | `None` iff the text is missing or empty; a candidate is upper-cased, leftmost and well-shaped; the partial list appears iff the text has no full match, and holds only long digit runs |
| `DebugOcr.DebugAgreesWithMain` | debug_ocr.py:129-139 | whenever the main extractor finds a candidate, the debug extractor returns the same one |
| `DebugOcr.EveryLongRunIsReported` | debug_ocr.py:142-145 | without a full match, every maximal run of ten or more digits is among the partials |
| `DebugOcr.EveryPartialIsALongRun` | debug_ocr.py:142-145 | every partial is such a run |
| `DebugOcr.NineteenDigitsArePartial` | debug_ocr.py:135-145 | 19 digits are not a candidate and are reported whole |
| `DebugOcr.DigitsGluedToWordCharArePartial` | debug_ocr.py:135-145 | 18 digits glued to a word character that is not a digit (a letter, `_` or an ideograph) are not a candidate, and the digits are the partial |
| `DebugOcr.AllOfTheDigits` | debug_ocr.py:142-145 | an all-digit text of ten or more digits is its own single partial |
| `DebugOcr.OnlyRun` | debug_ocr.py:142-145 | a text with one long run has that run as its only partial |
| `DebugOcr.TwoRunsDiffer` | debug_ocr.py:142-143 | two reported runs are distinct |
| `TestVectors.ValidBeijing` | test_verifier.py:20 | `11010519491231002X` is valid |
| `TestVectors.ValidGuangdong` | test_verifier.py:21 | `440524198001010013` is valid |
| `TestVectors.ValidSichuan` | test_verifier.py:22 | `510102198901010017` is valid |
| `TestVectors.ShapeCases` | test_verifier.py:23-28 | 17 and 19 characters are length errors carrying the length, letters in the address code are reported, and a missing number is not found |
| `TestVectors.WrongCheckCharacter` | test_verifier.py:25 | `11010519491231002Y` fails only its checksum |
| `TestVectors.MonthThirteen` | test_verifier.py:26 | month 13 is a birth-date error |
| `TestVectors.DayThirtyTwo` | test_verifier.py:27 | day 32 is a birth-date error |
| `TestVectors.LettersInSequenceCode` | test_verifier.py:29 | letters in the sequence code are reported as such |
| `TestVectors.GuangdongEighteenEighty` | test_verifier.py:107 | the extraction sample born in 1880 is a birth-date error |
| `TestVectors.SichuanSampleChecksum` | test_verifier.py:108 | the extraction sample `51010219890101001X` fails its checksum |
| `TestVectors.SumBeijing1949` | test_verifier.py:73-82 | the weighted sum of `11010519491231002` is 167, i.e. remainder 2, i.e. `X` |
| `TestVectors.SumGuangdong1980` | test_verifier.py:21 | the weighted sum of `44052419800101001` is 196 |
| `TestVectors.SumSichuan1989` | test_verifier.py:22 | the weighted sum of `51010219890101001` is 159 |
| `TestVectors.AprilThirtieth` | id_card_verifier.py:107 | 30 April is accepted |
| `TestVectors.AprilThirtyFirst` | id_card_verifier.py:107 | 31 April is rejected |
| `TestVectors.LeapDayInTwoThousand` | id_card_verifier.py:107 | 29 February 2000 is accepted |
| `TestVectors.NoLeapDayInNineteenHundred` | id_card_verifier.py:107 | 29 February 1900 is rejected |
| `TestVectors.NoLeapDayInNinetyNine` | id_card_verifier.py:107 | 29 February 1999 is rejected |
| `TestVectors.BornBeforeNineteenHundred` | id_card_verifier.py:99-100 | a year before 1900 is rejected |
| `TestVectors.BornInTheFuture` | id_card_verifier.py:99-100 | a year after the current year is rejected |
| `ExtractionVectors.ExtractsBetween` | id_card_verifier.py:71-76 | a well-shaped number after a prefix that has no match and is empty or ends in a separator, and before a suffix that is empty or starts with a separator, is what is extracted |
| `ExtractionVectors.ExtractAfterLabel` | test_verifier.py:106 | the number after `身份证号：` is extracted |
| `ExtractionVectors.ExtractAfterSpace` | test_verifier.py:107 | the number after `ID: ` is extracted |
| `ExtractionVectors.ExtractBetweenSpaces` | test_verifier.py:108 | the number between spaces is extracted |
| `ExtractionVectors.ExtractNothing` | test_verifier.py:109-110 | a text without digits, and one with only 17 digits, yield nothing |
| `ExtractionVectors.GluedToIdeograph` | id_card_verifier.py:71 | a number glued to a Chinese character has no word boundary and is not extracted |
| `ExtractionVectors.LowerCaseCheckCharacter` | id_card_verifier.py:76 | a lower-case `x` is returned as `X` |

## Left out

- The GUI (`IDCardVerifierGUI`): image upload and display, status updates,
  the result panel, the `image_path` guard at id_card_verifier.py:498, and
  the stored `extracted_id`. These are user-interface state.
- CSV saving. This is file I/O.
- Image preprocessing with OpenCV: grayscale, denoising, thresholds, CLAHE.
  It appears only as the boolean "the image could be read" and the fixed
  count of four variants.
- The OCR engines (`image_to_string`, `easyocr.Reader`): their outputs are
  inputs. This includes EasyOCR's `' '.join` of its detections, which arrives
  as one text.
- The Tesseract executable path probing and the import-time availability
  flags. The flags are inputs (`available`, `tesseractAvailable`,
  `easyOcrAvailable`).
- The whole of debug_ocr.py except `extract_id_number`. That is the script
  harness that prints OCR results.
- `datetime.now()`: replaced by the `currentYear` parameter.
- The Chinese message texts: one `Reason` constructor each.
- Text.IsDigit: `\d`, `str.isdigit` and `int()` are modelled on ASCII digits
  only. Python also accepts other Unicode decimal digits, such as fullwidth
  `１`. Moreover `str.isdigit` accepts characters such as superscript `²`
  that `int()` rejects. Such a character in the address code or the
  sequence code passes their `isdigit()` tests, and `int()` at
  id_card_verifier.py:127 then raises a `ValueError` out of `verify_id`.
  In the birth date the `ValueError` is caught and `validate_birth_date`
  returns `False`. That `VerifyId` never raises holds for the ASCII model
  only.
- Text.UpperChar: `str.upper` is modelled on ASCII only; Python also
  upper-cases other letters (`é` to `É`, `ß` to `SS`). This cannot change a
  result: `upper()` is applied to a matched number, whose characters are
  digits and `X`/`x`, and, in `validate_checksum`, to the 18th character,
  whose upper-case form is compared with a digit or `X`. No character other
  than `x` upper-cases to `X`, and none upper-cases to an ASCII digit.
- Text.IsWordChar: `\w` for `\b` covers ASCII letters, digits, `_` and the
  CJK ideographs (U+3400-U+4DBF, U+4E00-U+9FFF). Other non-ASCII letters,
  such as kana and accented Latin, count as separators here.
- ChineseIdVerifier.ValidateBirthDate: modelled for every length with
  Python's clamped slicing. At 13 characters the day is a single digit
  and can pass. `verify_id` only calls it at length 18, so that case never
  reaches a verdict.
- OcrPipeline.ExtractTextPytesseract: the outer `except` at
  id_card_verifier.py:241-243 is not modelled. Nothing inside the `try`
  other than the per-configuration calls can raise, and those are modelled.
