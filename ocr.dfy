/** The normalisation step of `extract_text_from_image` (app.py): what the
    application makes of whatever the OCR engine returned. */
module Ocr {
  import opened Wrappers
  import opened Strings

  /** The literal the application substitutes for an empty OCR result. */
  const NoTextDetected := "No text detected"

  /** What the OCR call did: it raised an exception (its message is only
      shown to the user), or it returned a value that may be `None`. */
  datatype OcrOutput = Raised(message: string) | Returned(text: Option<string>)

  /** The value `extract_text_from_image` returns: `None` after an exception,
      the placeholder for an empty or absent result, the stripped text
      otherwise. */
  function Normalise(ocr: OcrOutput): (r: Option<string>)
    ensures r.None? <==> ocr.Raised?
    ensures r.Some? ==> Trimmed(r.value)
  {
    match ocr
    case Raised(_) => None
    case Returned(text) =>
      if Truthy(text) then Some(Strip(text.value))
      else Some(NoTextDetected)
  }

  /** Text without surrounding whitespace comes back unchanged. */
  lemma NormaliseTrimmed(text: string)
    requires Trimmed(text) && text != ""
    ensures Normalise(Returned(Some(text))) == Some(text)
  {
    assert "" + text + "" == text;
    NormaliseStrips("", text, "");
  }

  /** A non-empty OCR text comes back as the part of it between its leading
      and trailing whitespace. */
  lemma NormaliseStrips(a: string, m: string, b: string)
    requires AllSpace(a) && AllSpace(b) && Trimmed(m)
    requires a + m + b != ""
    ensures Normalise(Returned(Some(a + m + b))) == Some(m)
  {
    StripUnique(a, m, b);
  }

  /** Non-empty OCR text made only of whitespace normalises to "", which the
      extraction page then treats as no result at all. */
  lemma NormaliseWhitespaceOnly(text: string)
    requires text != "" && AllSpace(text)
    ensures Normalise(Returned(Some(text))) == Some("")
  {
    StripAllSpace(text);
  }

  /** An empty or absent OCR output yields exactly the placeholder. */
  lemma NormaliseEmpty(text: Option<string>)
    requires !Truthy(text)
    ensures Normalise(Returned(text)) == Some(NoTextDetected)
  {
  }

  /** The extraction page offers its follow-on actions exactly when the
      normalised result is truthy: the OCR call returned, and it returned
      either nothing or some non-whitespace character. */
  lemma OfferedIff(ocr: OcrOutput)
    ensures Truthy(Normalise(ocr)) <==>
      ocr.Returned? &&
      (!Truthy(ocr.text) || exists k :: 0 <= k < |ocr.text.value| && !IsSpace(ocr.text.value[k]))
  {
    if ocr.Returned? && Truthy(ocr.text) {
      var t := ocr.text.value;
      if exists k :: 0 <= k < |t| && !IsSpace(t[k]) {
        var k :| 0 <= k < |t| && !IsSpace(t[k]);
        StripKeepsNonSpace(t, k);
      } else {
        StripAllSpace(t);
      }
    }
  }
}
