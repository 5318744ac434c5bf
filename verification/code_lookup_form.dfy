/** The lookup form of components/lookup/code-lookup-form.tsx: a chosen
    code system, a typed code and an error line. Submitting validates the
    two fields in a fixed order; the quick-lookup buttons bypass validation. */
module CodeLookupForm {
  import opened Base
  import opened Text
  import FhirService

  const NoSystemError := "Please select a code system"
  const NoCodeError := "Please enter a code"

  const NamasteCodeSystems := "https://namaste.ayush.gov.in/fhir/CodeSystem/"

  /** The values of the code-system selector, in display order. */
  const SystemOptions := [
    NamasteCodeSystems + "ayurveda",
    NamasteCodeSystems + "siddha",
    NamasteCodeSystems + "unani",
    FhirService.IcdTm2Uri,
    FhirService.IcdMmsUri
  ]

  datatype Form = Form(system: string, code: string, error: Option<string>)

  const InitialForm := Form("", "", None)

  /** `handleSubmit`: the error is cleared, then a missing system is reported
      before a blank code; a valid form sends the system and the trimmed code
      and leaves the error cleared. */
  function Submit(f: Form): (r: (Form, Option<(string, string)>))
    ensures r.0.system == f.system && r.0.code == f.code
    ensures f.system == "" ==> r.0.error == Some(NoSystemError) && r.1.None?
    ensures f.system != "" && Trim(f.code) == "" ==> r.0.error == Some(NoCodeError) && r.1.None?
    ensures r.1.Some? <==> f.system != "" && Trim(f.code) != ""
    ensures r.1.Some? ==> r.0.error.None? && r.1.value == (f.system, Trim(f.code))
  {
    var cleared := f.(error := None);
    if f.system == "" then (cleared.(error := Some(NoSystemError)), None)
    else if Trim(f.code) == "" then (cleared.(error := Some(NoCodeError)), None)
    else (cleared, Some((f.system, Trim(f.code))))
  }

  /** `handleQuickLookup`: both fields are set and the pair is sent as is,
      without validation and without touching the error line. */
  function QuickLookup(f: Form, system: string, code: string): (r: (Form, Option<(string, string)>))
    ensures r.0 == Form(system, code, f.error) && r.1 == Some((system, code))
  {
    (Form(system, code, f.error), Some((system, code)))
  }

  /** The submit button is disabled while loading or while either field is unusable. */
  predicate SubmitDisabled(f: Form, loading: bool) {
    loading || f.system == "" || Trim(f.code) == ""
  }

  // ---------------------------------------------------------------------
  // Properties
  // ---------------------------------------------------------------------

  /** The button's state agrees with the validation: an enabled button always
      submits, and a disabled one (when not loading) always reports an error. */
  lemma ButtonAgreesWithValidation(f: Form, loading: bool)
    ensures !SubmitDisabled(f, loading) ==> Submit(f).1.Some?
    ensures SubmitDisabled(f, false) ==> Submit(f).1.None? && Submit(f).0.error.Some?
  {
  }

  /** A code made only of whitespace is rejected whenever a system is chosen. */
  lemma BlankCodeRejected(f: Form)
    requires f.system != "" && forall k :: 0 <= k < |f.code| ==> IsSpace(f.code[k])
    ensures Submit(f).0.error == Some(NoCodeError)
  {
    TrimEmptyIff(f.code);
  }

  /** What is sent is never padded: the code is non-empty and neither starts
      nor ends with whitespace. */
  lemma SentCodeIsTrimmed(f: Form)
    requires Submit(f).1.Some?
    ensures var c := Submit(f).1.value.1; c != "" && !IsSpace(c[0]) && !IsSpace(c[|c| - 1])
  {
    assert Submit(f).1.value.1 == Trim(f.code);
  }

  /** Submitting is idempotent on the form: a second submit of the same
      fields gives the same outcome. */
  lemma SubmitTwiceSame(f: Form)
    ensures Submit(Submit(f).0) == Submit(f)
  {
  }

  /** How the selector's entries are labelled: the Ayurveda code system is
      recognised, the two ICD-11 entries are not. */
  lemma OptionLabels()
    ensures FhirService.GetSystemLabel(SystemOptions[0]) == "Ayurveda"
    ensures FhirService.GetSystemLabel(SystemOptions[3]) == FhirService.UnknownLabel
    ensures FhirService.GetSystemLabel(SystemOptions[4]) == FhirService.UnknownLabel
  {
    var s := NamasteCodeSystems + "ayurveda";
    assert s[|NamasteCodeSystems|..|NamasteCodeSystems| + 8] == "ayurveda";
    OccurrenceGivesContains(s, "ayurveda", |NamasteCodeSystems|);
    FhirService.IcdUrisAreUnknown();
  }
}
