/** The bundle assembler of components/clinical/bundle-preview.tsx: a patient
    and its diagnoses become a FHIR `collection` Bundle holding one Patient
    entry followed by one Condition per diagnosis. `Date.now()` is the
    parameter `now`; the birth date is kept as the instant it is computed
    from, before its ISO rendering. */
module BundlePreview {
  import opened Base
  import opened Text
  import opened Types
  import opened DiagnosisEntry

  const MrnSystem := "http://hospital.example.org/mrn"
  const ConditionClinicalSystem := "http://terminology.hl7.org/CodeSystem/condition-clinical"
  const SnomedSystem := "http://snomed.info/sct"
  const PatientRequired := "Patient is required"

  /** The approximate length of a year the birth date is derived with: 365 days, in milliseconds. */
  const MsPerYear := 365 * 24 * 60 * 60 * 1000

  /** The largest distance from the epoch a `Date` can hold (section 21.4.1.1
      of ECMA-262); beyond it, or for `NaN`, `toISOString` throws a RangeError. */
  const MaxTimeMs := 8_640_000_000_000_000
  const InvalidTimeValue := "Invalid time value"

  /** `Date.now() - age * 365 * 24 * 60 * 60 * 1000`, or nothing when the age is `NaN`. */
  function BirthInstant(now: int, age: Option<int>): (t: Option<int>)
    ensures t.Some? <==> age.Some?
    ensures t.Some? ==> now - t.value == age.value * MsPerYear
  {
    match age
    case Some(a) => Some(now - a * MsPerYear)
    case None => None
  }

  /** The instant renders as a date exactly when it is a number within range. */
  predicate RenderableDate(t: Option<int>) {
    t.Some? && -MaxTimeMs <= t.value <= MaxTimeMs
  }

  /** The SNOMED CT code of a severity: mild and moderate have their own
      codes, anything else is the code for severe. */
  function SeverityCode(s: Severity): string {
    if s == Mild then "255604002"
    else if s == Moderate then "6736007"
    else "24484000"
  }

  /** `patient.name.split(" ")`: the last token is the family name, the ones
      before it the given names. */
  function PersonName(name: string): (h: HumanName)
    ensures ' ' !in h.family && forall k :: 0 <= k < |h.given| ==> ' ' !in h.given[k]
    ensures h.given + [h.family] == Split(name, ' ')
  {
    var tokens := Split(name, ' ');
    assert tokens[..|tokens| - 1] + [tokens[|tokens| - 1]] == tokens;
    HumanName(tokens[|tokens| - 1], tokens[..|tokens| - 1])
  }

  /** The Patient entry: id, MRN identifier, split name, lower-cased gender
      and the birth instant. */
  function PatientEntry(p: Patient, birthMs: int): (r: Resource)
    ensures r.PatientResource? && r.id == p.id
    ensures r.identifier == [Identifier(MrnSystem, p.mrn)]
    ensures r.name == [PersonName(p.name)]
    ensures |r.gender| == |p.gender| && forall k :: 0 <= k < |p.gender| ==> r.gender[k] == LowerChar(p.gender[k])
    ensures r.birthDateMs == birthMs
  {
    PatientResource(p.id, [Identifier(MrnSystem, p.mrn)], [PersonName(p.name)], ToLower(p.gender), birthMs)
  }

  /** An ICD-11 code as a Coding: its equivalence is dropped. */
  function IcdCoding(c: Icd11Code): Coding {
    Coding(c.system, c.code, c.display)
  }

  /** The Condition's `code.coding`: the NAMASTE code first, then the ICD-11
      codes in order. */
  function ConditionCoding(d: ClinicalDiagnosis): (r: seq<Coding>)
    ensures |r| == |d.icd11Codes| + 1
    ensures r[0] == Coding(d.namasteCode.system, d.namasteCode.code, d.namasteCode.display)
    ensures forall j :: 0 <= j < |d.icd11Codes| ==>
              r[j + 1].system == d.icd11Codes[j].system && r[j + 1].code == d.icd11Codes[j].code
              && r[j + 1].display == d.icd11Codes[j].display
  {
    [Coding(d.namasteCode.system, d.namasteCode.code, d.namasteCode.display)]
      + seq(|d.icd11Codes|, j requires 0 <= j < |d.icd11Codes| => IcdCoding(d.icd11Codes[j]))
  }

  /** The Condition for the diagnosis at position `index` (0-based). */
  function ConditionEntry(patientId: string, d: ClinicalDiagnosis, index: nat): (r: Resource)
    ensures r.ConditionResource?
    ensures r.id == "condition-" + NatToString(index + 1)
    ensures r.subject == Reference("Patient/" + patientId)
    ensures r.code.coding == ConditionCoding(d)
    ensures r.clinicalStatus.coding == [Coding(ConditionClinicalSystem, StatusLiteral(d.status), Capitalize(StatusLiteral(d.status)))]
    ensures r.severity.None? <==> d.severity.None?
    ensures d.severity.Some? ==>
              r.severity.value.coding == [Coding(SnomedSystem, SeverityCode(d.severity.value), Capitalize(SeverityLiteral(d.severity.value)))]
    ensures r.recordedDate == d.recordedDate
    ensures r.note.Some? <==> d.notes.Some? && d.notes.value != ""
    ensures r.note.Some? ==> r.note.value == [Annotation(d.notes.value)]
  {
    var status := StatusLiteral(d.status);
    ConditionResource(
      "condition-" + NatToString(index + 1),
      Reference("Patient/" + patientId),
      CodeableConcept(ConditionCoding(d)),
      CodeableConcept([Coding(ConditionClinicalSystem, status, Capitalize(status))]),
      match d.severity
      case Some(s) => Some(CodeableConcept([Coding(SnomedSystem, SeverityCode(s), Capitalize(SeverityLiteral(s)))]))
      case None => None,
      d.recordedDate,
      if d.notes.Some? && d.notes.value != "" then Some([Annotation(d.notes.value)]) else None)
  }

  /** `diagnoses.map((diagnosis, index) => ...)`: one Condition entry per
      diagnosis, in order. */
  function ConditionEntries(patientId: string, diagnoses: seq<ClinicalDiagnosis>): (r: seq<Entry>)
    ensures |r| == |diagnoses|
    ensures forall k :: 0 <= k < |diagnoses| ==> r[k].resource == ConditionEntry(patientId, diagnoses[k], k)
  {
    seq(|diagnoses|, k requires 0 <= k < |diagnoses| => Entry(ConditionEntry(patientId, diagnoses[k], k)))
  }

  /** The bundle a patient yields once its birth instant is known: a
      `collection` with id `bundle-<now>`, the Patient entry first and then
      the diagnoses' Conditions in order. */
  function AssembleBundle(p: Patient, birthMs: int, diagnoses: seq<ClinicalDiagnosis>, now: int): (b: Bundle)
    ensures b.bundleType == Collection
    ensures b.id == Some("bundle-" + IntToString(now))
    ensures b.entry.Some? && |b.entry.value| == 1 + |diagnoses|
    ensures b.entry.value[0].resource == PatientEntry(p, birthMs)
    ensures b.entry.value[1..] == ConditionEntries(p.id, diagnoses)
  {
    var conditions := ConditionEntries(p.id, diagnoses);
    var entries := [Entry(PatientEntry(p, birthMs))] + conditions;
    Bundle(Some("bundle-" + IntToString(now)), Collection, Some(entries))
  }

  /** `generateBundle`: without a patient it throws "Patient is required";
      a patient whose birth instant is not a renderable date (a `NaN` age, or
      one reaching outside the `Date` range) makes the date rendering throw;
      otherwise the assembled bundle. */
  function GenerateBundle(patient: Option<Patient>, diagnoses: seq<ClinicalDiagnosis>, now: int): (r: Result<Bundle, string>)
    ensures patient.None? ==> r == Failure(PatientRequired)
    ensures patient.Some? && !RenderableDate(BirthInstant(now, patient.value.age)) ==> r == Failure(InvalidTimeValue)
    ensures patient.Some? && RenderableDate(BirthInstant(now, patient.value.age)) ==>
              r == Success(AssembleBundle(patient.value, BirthInstant(now, patient.value.age).value, diagnoses, now))
  {
    match patient
    case None => Failure(PatientRequired)
    case Some(p) =>
      var birth := BirthInstant(now, p.age);
      if !RenderableDate(birth) then Failure(InvalidTimeValue)
      else Success(AssembleBundle(p, birth.value, diagnoses, now))
  }

  /** `canGenerateBundle`: a patient is selected and there is a diagnosis. */
  predicate CanGenerateBundle(patient: Option<Patient>, diagnoses: seq<ClinicalDiagnosis>) {
    patient.Some? && |diagnoses| > 0
  }

  // ---------------------------------------------------------------------
  // Properties of the assembled bundle
  // ---------------------------------------------------------------------

  /** When the guard lets generation through and the age renders as a date,
      it succeeds, with the Patient entry followed by one Condition per
      diagnosis (so at least one), all of whose subjects are that patient. */
  lemma GuardedGenerationSucceeds(patient: Option<Patient>, diagnoses: seq<ClinicalDiagnosis>, now: int)
    requires CanGenerateBundle(patient, diagnoses) && RenderableDate(BirthInstant(now, patient.value.age))
    ensures var r := GenerateBundle(patient, diagnoses, now);
            && r.Success? && |r.value.entry.value| == 1 + |diagnoses| >= 2
            && r.value.entry.value[0].resource.PatientResource?
            && forall k :: 1 <= k < |r.value.entry.value| ==>
                 r.value.entry.value[k].resource.ConditionResource?
                 && r.value.entry.value[k].resource.subject.reference == "Patient/" + patient.value.id
  {
    var entries := GenerateBundle(patient, diagnoses, now).value.entry.value;
    forall k | 1 <= k < |entries|
      ensures entries[k].resource.ConditionResource?
      ensures entries[k].resource.subject.reference == "Patient/" + patient.value.id
    {
      assert entries[(k - 1) + 1].resource == ConditionEntry(patient.value.id, diagnoses[k - 1], k - 1);
    }
  }

  /** Entry `k + 1` of a generated bundle is the Condition of diagnosis `k`:
      one Condition per diagnosis, in the diagnoses' order, numbered from 1. */
  lemma ConditionsFollowDiagnoses(patient: Option<Patient>, diagnoses: seq<ClinicalDiagnosis>, now: int, k: nat)
    requires GenerateBundle(patient, diagnoses, now).Success? && k < |diagnoses|
    ensures var entries := GenerateBundle(patient, diagnoses, now).value.entry.value;
            && |entries| == |diagnoses| + 1
            && entries[k + 1].resource == ConditionEntry(patient.value.id, diagnoses[k], k)
            && entries[k + 1].resource.id == "condition-" + NatToString(k + 1)
  {
    var entries := GenerateBundle(patient, diagnoses, now).value.entry.value;
    assert entries[1..][k] == entries[k + 1];
  }

  /** The guard does not look at the age: a patient whose age text did not
      parse passes it, and generation then throws. */
  lemma GuardIgnoresAge(p: Patient, diagnoses: seq<ClinicalDiagnosis>, now: int)
    requires p.age.None? && |diagnoses| > 0
    ensures CanGenerateBundle(Some(p), diagnoses)
    ensures GenerateBundle(Some(p), diagnoses, now) == Failure(InvalidTimeValue)
  {
  }

  /** Any age between 0 and 200 years renders for any present-day clock
      (the first two hundred thousand years after 1970, say). */
  lemma PlausibleAgesRender(now: int, age: int)
    requires 0 <= now <= 200_000 * MsPerYear && 0 <= age <= 200
    ensures RenderableDate(BirthInstant(now, Some(age)))
  {
  }

  /** Condition ids are `condition-1` … `condition-k` and no two coincide. */
  lemma ConditionIdsDistinct(patientId: string, d: ClinicalDiagnosis, e: ClinicalDiagnosis, i: nat, j: nat)
    requires i != j
    ensures ConditionEntry(patientId, d, i).id != ConditionEntry(patientId, e, j).id
  {
    NatToStringInjective(i + 1, j + 1);
    var p := "condition-";
    assert (p + NatToString(i + 1))[|p|..] == NatToString(i + 1);
    assert (p + NatToString(j + 1))[|p|..] == NatToString(j + 1);
  }

  /** The name split loses nothing: given names then the family name, joined by
      spaces, give back the patient's name; a one-word name is all family. */
  lemma PersonNameRoundTrip(name: string)
    ensures var h := PersonName(name); Join(h.given + [h.family], ' ') == name
    ensures ' ' !in name ==> PersonName(name) == HumanName(name, [])
  {
    JoinSplit(name, ' ');
    if ' ' !in name {
      SplitWithoutSeparator(name, ' ');
    }
  }

  /** Whatever the given names, a space-free family name written after the
      last space is the family name read back. */
  lemma FamilyIsLastToken(given: string, family: string)
    requires ' ' !in family
    ensures PersonName(given + " " + family).family == family
  {
    SplitLastPiece(given, family, ' ');
    assert given + " " + family == given + [' '] + family;
  }

  /** The SNOMED table: three distinct codes, each displayed as its severity
      with a capital initial. */
  lemma SeverityTable()
    ensures SeverityCode(Mild) == "255604002" && Capitalize(SeverityLiteral(Mild)) == "Mild"
    ensures SeverityCode(Moderate) == "6736007" && Capitalize(SeverityLiteral(Moderate)) == "Moderate"
    ensures SeverityCode(Severe) == "24484000" && Capitalize(SeverityLiteral(Severe)) == "Severe"
    ensures forall s, t :: s != t ==> SeverityCode(s) != SeverityCode(t)
  {
  }

  /** A diagnosis added through the form carries a note in the bundle exactly
      when the notes box held something other than whitespace. */
  lemma NoteIffNotesEntered(f: Form, now: int, isoNow: string, patientId: string, index: nat)
    requires f.selected.Some?
    ensures var d := AddDiagnosis(f, now, isoNow).1.value;
            (ConditionEntry(patientId, d, index).note.Some? <==> exists k :: 0 <= k < |f.notes| && !IsSpace(f.notes[k]))
  {
  }
}
