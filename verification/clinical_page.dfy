/** The clinical documentation page of app/clinical/page.tsx: the selected
    patient, the diagnosis list and the submission status, with the handlers
    that change them. The simulated two-second upload and the three-second
    reset timer are split into separate steps. */
module ClinicalPage {
  import opened Base
  import opened Text
  import opened Types
  import opened DiagnosisEntry

  /** The banner shown after a submission. */
  datatype SubmitResult = SubmitResult(success: bool, message: string)

  datatype Page = Page(
    patient: Option<Patient>,
    diagnoses: seq<ClinicalDiagnosis>,
    submitting: bool,
    submitResult: Option<SubmitResult>)

  const InitialPage := Page(None, [], false, None)

  /** `handlePatientSelect`: the patient is replaced; choosing no patient also
      empties the diagnosis list, choosing one keeps it. */
  function PatientSelect(s: Page, patient: Option<Patient>): (r: Page)
    ensures r.patient == patient
    ensures patient.None? ==> r.diagnoses == []
    ensures patient.Some? ==> r.diagnoses == s.diagnoses
    ensures r.submitting == s.submitting && r.submitResult == s.submitResult
  {
    if patient.None? then s.(patient := None, diagnoses := []) else s.(patient := patient)
  }

  /** `handleDiagnosisAdd`: appended at the end. */
  function DiagnosisAdd(s: Page, d: ClinicalDiagnosis): (r: Page)
    ensures |r.diagnoses| == |s.diagnoses| + 1 && r.diagnoses[|s.diagnoses|] == d
    ensures r.diagnoses[..|s.diagnoses|] == s.diagnoses
    ensures r.patient == s.patient && r.submitting == s.submitting && r.submitResult == s.submitResult
  {
    s.(diagnoses := s.diagnoses + [d])
  }

  /** `xs.filter((_, i) => i !== index)`, scanning positions in order. */
  function RemoveIndex<T>(xs: seq<T>, index: int): (r: seq<T>)
    ensures 0 <= index < |xs| ==> r == xs[..index] + xs[index + 1..]
    ensures !(0 <= index < |xs|) ==> r == xs
    decreases |xs|
  {
    if |xs| == 0 then []
    else
      var last := |xs| - 1;
      RemoveIndex(xs[..last], index) + (if last != index then [xs[last]] else [])
  }

  /** `handleDiagnosisRemove`. */
  function DiagnosisRemove(s: Page, index: int): (r: Page)
    ensures 0 <= index < |s.diagnoses| ==>
              |r.diagnoses| == |s.diagnoses| - 1
              && (forall k :: 0 <= k < index ==> r.diagnoses[k] == s.diagnoses[k])
              && (forall k :: index <= k < |r.diagnoses| ==> r.diagnoses[k] == s.diagnoses[k + 1])
    ensures !(0 <= index < |s.diagnoses|) ==> r == s
    ensures r.patient == s.patient && r.submitting == s.submitting && r.submitResult == s.submitResult
  {
    s.(diagnoses := RemoveIndex(s.diagnoses, index))
  }

  /** The start of `handleBundleSubmit`: submitting, with the old banner cleared. */
  function BeginSubmit(s: Page): (r: Page)
    ensures r.submitting && r.submitResult.None?
    ensures r.patient == s.patient && r.diagnoses == s.diagnoses
  {
    s.(submitting := true, submitResult := None)
  }

  const SubmittedPrefix := "Bundle successfully submitted to EMR. Bundle ID: "

  /** A bundle id as a template literal renders it; an absent id prints "undefined". */
  function IdText(id: Option<string>): string {
    id.GetOr("undefined")
  }

  /** The end of the simulated upload: a success banner naming the bundle id,
      and no longer submitting. */
  function CompleteSubmit(s: Page, bundle: Bundle): (r: Page)
    ensures !r.submitting && r.submitResult.Some? && r.submitResult.value.success
    ensures r.submitResult.value.message == SubmittedPrefix + IdText(bundle.id)
    ensures r.patient == s.patient && r.diagnoses == s.diagnoses
  {
    s.(submitting := false, submitResult := Some(SubmitResult(true, SubmittedPrefix + IdText(bundle.id))))
  }

  /** The timer three seconds after a success: patient, diagnoses and banner cleared. */
  function ResetAfterSubmit(s: Page): (r: Page)
    ensures r.patient.None? && r.diagnoses == [] && r.submitResult.None?
    ensures r.submitting == s.submitting
  {
    s.(patient := None, diagnoses := [], submitResult := None)
  }

  // ---------------------------------------------------------------------
  // Properties across handlers
  // ---------------------------------------------------------------------

  /** Removing the diagnosis just added restores the list, and removing at an
      index past the end, or a negative one, changes nothing. */
  lemma AddThenRemoveLast(s: Page, d: ClinicalDiagnosis)
    ensures DiagnosisRemove(DiagnosisAdd(s, d), |s.diagnoses|) == s
    ensures DiagnosisRemove(s, |s.diagnoses|) == s && DiagnosisRemove(s, -1) == s
  {
    var xs := s.diagnoses + [d];
    assert xs[..|s.diagnoses|] + xs[|s.diagnoses| + 1..] == s.diagnoses;
  }

  /** Removal deletes one occurrence of the element at `index` and nothing
      else: the multiset of diagnoses loses exactly that one. */
  lemma RemoveIsOneDeletion(s: Page, index: int)
    requires 0 <= index < |s.diagnoses|
    ensures multiset(DiagnosisRemove(s, index).diagnoses) + multiset{s.diagnoses[index]} == multiset(s.diagnoses)
  {
    var xs := s.diagnoses;
    assert xs == xs[..index] + [xs[index]] + xs[index + 1..];
  }

  /** The success banner names the submitted bundle's id. */
  lemma SubmittedMessageNamesBundle(s: Page, bundle: Bundle)
    requires bundle.id.Some?
    ensures Contains(CompleteSubmit(s, bundle).submitResult.value.message, bundle.id.value)
  {
    var m := CompleteSubmit(s, bundle).submitResult.value.message;
    assert m[|SubmittedPrefix|..|SubmittedPrefix| + |bundle.id.value|] == bundle.id.value;
    OccurrenceGivesContains(m, bundle.id.value, |SubmittedPrefix|);
  }

  /** A whole successful submission returns the page to its initial state,
      and deselecting the patient at any time leaves no diagnoses behind. */
  lemma SubmissionCycleResets(s: Page, bundle: Bundle)
    ensures ResetAfterSubmit(CompleteSubmit(BeginSubmit(s), bundle)) == InitialPage
    ensures PatientSelect(s, None).diagnoses == []
  {
  }
}
