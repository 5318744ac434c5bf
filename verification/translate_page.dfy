/** The translation page of app/translate/page.tsx: the concept pre-filled
    from the URL, the `$translate` round trip against the NAMASTE-to-ICD-11
    concept map, and re-opening an earlier translation from the history.
    The server's answer arrives through `TranslateSucceeded` (the body of
    a 2xx reply) or `TranslateFailed` (a thrown error's message, if it was
    an `Error`). */
module TranslatePage {
  import opened Base
  import opened Types
  import FhirService

  const NamasteToIcd11 := "https://namaste.ayush.gov.in/fhir/ConceptMap/namaste-to-icd11"
  const TranslationFailedMessage := "Translation failed"

  datatype Page = Page(
    selected: Option<Concept>,
    result: Option<TranslationResult>,
    loading: bool,
    error: Option<string>)

  const InitialPage := Page(None, None, false, None)

  /** A query parameter as `searchParams.get` returns it is truthy when it
      is present and not the empty string. */
  predicate Present(v: Option<string>) {
    v.Some? && v.value != ""
  }

  /** The URL effect: the concept is pre-filled only when `system`, `code`
      and `display` are all present; otherwise the page is left alone. */
  function Prefill(p: Page, system: Option<string>, code: Option<string>, display: Option<string>): (r: Page)
    ensures Present(system) && Present(code) && Present(display) ==>
              r == p.(selected := Some(Concept(system.value, code.value, display.value, None)))
    ensures !(Present(system) && Present(code) && Present(display)) ==> r == p
  {
    if Present(system) && Present(code) && Present(display) then
      p.(selected := Some(Concept(system.value, code.value, display.value, None)))
    else p
  }

  /** The start of `handleTranslate`: loading, with the previous result and
      error cleared, and a `$translate` request for the concept's system and
      code against the NAMASTE-to-ICD-11 map. */
  function BeginTranslate(p: Page, concept: Concept): (r: (Page, FhirService.Request))
    ensures r.0 == p.(loading := true, error := None, result := None)
    ensures r.1 == FhirService.TranslateConcept(NamasteToIcd11, concept.system, concept.code)
  {
    (p.(loading := true, error := None, result := None),
     FhirService.TranslateConcept(NamasteToIcd11, concept.system, concept.code))
  }

  /** The reply was parsed: the result is the parsed one with its
      `originalCode` replaced by the concept that was translated. */
  function TranslateSucceeded(p: Page, concept: Concept, response: Parameters): (r: Page)
    ensures r.result.Some? && r.result.value.originalCode == concept
    ensures var parsed := FhirService.ParseTranslationResult(response);
            r.result.value == parsed.(originalCode := concept)
    ensures !r.loading && r.error == p.error && r.selected == p.selected
  {
    var parsed := FhirService.ParseTranslationResult(response);
    p.(result := Some(parsed.(originalCode := concept)), loading := false)
  }

  /** The call threw: the error's message, or "Translation failed" for a
      thrown non-`Error`; the result is left as it was. */
  function TranslateFailed(p: Page, errorMessage: Option<string>): (r: Page)
    ensures r.error == Some(errorMessage.GetOr(TranslationFailedMessage))
    ensures !r.loading && r.result == p.result && r.selected == p.selected
  {
    p.(error := Some(errorMessage.GetOr(TranslationFailedMessage)), loading := false)
  }

  /** `handleSelectFromHistory`: both the concept and the shown result come
      from the history entry. */
  function SelectFromHistory(p: Page, t: TranslationResult): (r: Page)
    ensures r.selected == Some(t.originalCode) && r.result == Some(t)
    ensures r.loading == p.loading && r.error == p.error
  {
    p.(selected := Some(t.originalCode), result := Some(t))
  }

  // ---------------------------------------------------------------------
  // Properties
  // ---------------------------------------------------------------------

  /** The URL pre-fill happens exactly when all three parameters are present,
      and then the selected concept is the one they name. */
  lemma PrefillIff(p: Page, system: Option<string>, code: Option<string>, display: Option<string>)
    requires p.selected.None?
    ensures Prefill(p, system, code, display).selected.Some? <==>
              Present(system) && Present(code) && Present(display)
    ensures Prefill(p, system, code, display).selected.Some? ==>
              var c := Prefill(p, system, code, display).selected.value;
              c.system == system.value && c.code == code.value && c.display == display.value
  {
  }

  /** A successful translation shows a result about the concept that was
      asked for, with the codes and verdict the server sent, and no error. */
  lemma SuccessfulTranslation(p: Page, concept: Concept, response: Parameters)
    ensures var r := TranslateSucceeded(BeginTranslate(p, concept).0, concept, response);
            var parsed := FhirService.ParseTranslationResult(response);
            && r.error.None? && !r.loading
            && r.result.Some?
            && r.result.value.originalCode == concept
            && r.result.value.mappedCodes == parsed.mappedCodes
            && r.result.value.success == parsed.success
            && r.result.value.message == parsed.message
  {
  }

  /** A failed translation shows an error and no result, whatever was shown
      before. */
  lemma FailedTranslation(p: Page, concept: Concept, errorMessage: Option<string>)
    ensures var r := TranslateFailed(BeginTranslate(p, concept).0, errorMessage);
            && r.result.None? && !r.loading
            && r.error == Some(errorMessage.GetOr(TranslationFailedMessage))
            && (errorMessage.None? ==> r.error.value != "")
  {
  }

  /** Translating a concept re-opened from the history asks the server about
      that entry's original code. */
  lemma HistoryThenTranslate(p: Page, t: TranslationResult)
    ensures var q := SelectFromHistory(p, t);
            var req := BeginTranslate(q, q.selected.value).1;
            var ps := req.body.parameters.parameter.value;
            && FhirService.FindString(ps, "system") == Some(t.originalCode.system)
            && FhirService.FindString(ps, "code") == Some(t.originalCode.code)
            && FhirService.FindString(ps, "url") == Some(NamasteToIcd11)
  {
  }
}
