/** The diagnosis form of components/clinical/diagnosis-entry.tsx: the
    `ClinicalDiagnosis` record, the form's state and its handlers, and the
    mock translation table the form uses in place of a `$translate` call.
    The clock (`Date.now()`) and its ISO rendering are parameters. */
module DiagnosisEntry {
  import opened Base
  import opened Text
  import opened Types

  /** One ICD-11 code attached to a diagnosis; `equivalence` is optional. */
  datatype Icd11Code = Icd11Code(system: string, code: string, display: string, equivalence: Option<string>)

  datatype Severity = Mild | Moderate | Severe

  function SeverityLiteral(s: Severity): string {
    match s
    case Mild => "mild"
    case Moderate => "moderate"
    case Severe => "severe"
  }

  datatype Status = Active | Resolved | Inactive

  function StatusLiteral(s: Status): string {
    match s
    case Active => "active"
    case Resolved => "resolved"
    case Inactive => "inactive"
  }

  /** `ClinicalDiagnosis`: a NAMASTE code with its ICD-11 codes, optional notes
      and severity, a status, and the instant it was recorded (ISO text). */
  datatype ClinicalDiagnosis = ClinicalDiagnosis(
    id: string,
    namasteCode: Concept,
    icd11Codes: seq<Icd11Code>,
    notes: Option<string>,
    severity: Option<Severity>,
    status: Status,
    recordedDate: string)

  /** The form's state: the selected concept, the codes the last translation
      produced, the notes text and the chosen severity. */
  datatype Form = Form(selected: Option<Concept>, translated: seq<Icd11Code>, notes: string, severity: Option<Severity>)

  /** The form when first shown and after every addition. */
  const InitialForm := Form(None, [], "", Some(Moderate))

  // ---------------------------------------------------------------------
  // The mock translation table
  // ---------------------------------------------------------------------

  const Tm2System := "https://icd.who.int/browse11/l-m/en#/http://id.who.int/icd/entity/tm2"
  const MmsSystem := "https://icd.who.int/browse11/l-m/en#/http://id.who.int/icd/entity/mms"

  /** `getMockTranslations`: three NAMASTE codes have canned ICD-11 codes,
      every other code has none. */
  function MockTranslations(code: string): (r: seq<Icd11Code>)
    ensures code !in {"AY001", "SI045", "UN123"} ==> r == []
    ensures code in {"AY001", "SI045", "UN123"} ==> |r| >= 1 && r[0].system == Tm2System
    ensures forall k :: 0 <= k < |r| ==> r[k].equivalence.Some?
  {
    if code == "AY001" then
      [ Icd11Code(Tm2System, "TM2.001", "Constitutional imbalance - Wind element", Some("equivalent")),
        Icd11Code(MmsSystem, "MMS.Z73.0", "Burn-out", Some("wider")) ]
    else if code == "SI045" then
      [ Icd11Code(Tm2System, "TM2.003", "Constitutional imbalance - Water element", Some("equivalent")) ]
    else if code == "UN123" then
      [ Icd11Code(Tm2System, "TM2.005", "Temperamental imbalance", Some("equivalent")) ]
    else
      []
  }

  /** The table's contents code by code: AY001 maps to TM2.001 (equivalent)
      then MMS.Z73.0 (wider); SI045 and UN123 map to one TM2 code each. */
  lemma MockTranslationTable()
    ensures |MockTranslations("AY001")| == 2
    ensures MockTranslations("AY001")[0].code == "TM2.001" && MockTranslations("AY001")[0].equivalence == Some("equivalent")
    ensures MockTranslations("AY001")[1].code == "MMS.Z73.0" && MockTranslations("AY001")[1].equivalence == Some("wider")
    ensures MockTranslations("AY001")[1].system == MmsSystem
    ensures MockTranslations("SI045") == [Icd11Code(Tm2System, "TM2.003", "Constitutional imbalance - Water element", Some("equivalent"))]
    ensures MockTranslations("UN123") == [Icd11Code(Tm2System, "TM2.005", "Temperamental imbalance", Some("equivalent"))]
  {
  }

  // ---------------------------------------------------------------------
  // Handlers
  // ---------------------------------------------------------------------

  /** `handleConceptSelect`: the new concept is selected and the codes of any
      earlier translation are dropped; notes and severity are kept. */
  function ConceptSelect(f: Form, c: Concept): (r: Form)
    ensures r.selected == Some(c) && r.translated == []
    ensures r.notes == f.notes && r.severity == f.severity
  {
    f.(selected := Some(c), translated := [])
  }

  /** The cross beside the selected concept: deselects it, nothing else. */
  function Deselect(f: Form): (r: Form)
    ensures r.selected.None? && r.translated == f.translated && r.notes == f.notes && r.severity == f.severity
  {
    f.(selected := None)
  }

  /** The "Re-translate" button under the translation list: empties it. */
  function ClearTranslations(f: Form): (r: Form)
    ensures r.translated == [] && r.selected == f.selected && r.notes == f.notes && r.severity == f.severity
  {
    f.(translated := [])
  }

  /** The severity buttons and the notes box: each sets its own field only. */
  function SetSeverity(f: Form, s: Severity): (r: Form)
    ensures r.severity == Some(s) && r.selected == f.selected && r.translated == f.translated && r.notes == f.notes
  {
    f.(severity := Some(s))
  }

  function SetNotes(f: Form, notes: string): (r: Form)
    ensures r.notes == notes && r.selected == f.selected && r.translated == f.translated && r.severity == f.severity
  {
    f.(notes := notes)
  }

  /** `handleTranslate`: without a selected concept nothing happens; otherwise
      the translated codes become the table's codes for the selected code. */
  function Translate(f: Form): (r: Form)
    ensures f.selected.None? ==> r == f
    ensures f.selected.Some? ==>
              && r.translated == MockTranslations(f.selected.value.code)
              && r.selected == f.selected && r.notes == f.notes && r.severity == f.severity
  {
    match f.selected
    case None => f
    case Some(c) => f.(translated := MockTranslations(c.code))
  }

  /** `notes.trim() || undefined`. */
  function NotesField(notes: string): (r: Option<string>)
    ensures r.None? <==> forall k :: 0 <= k < |notes| ==> IsSpace(notes[k])
    ensures r.Some? ==> r.value == Trim(notes) && r.value != ""
  {
    TrimEmptyIff(notes);
    if Trim(notes) == "" then None else Some(Trim(notes))
  }

  /** `handleAddDiagnosis`: without a selected concept nothing happens.
      Otherwise the diagnosis handed to the parent is built from the form
      (id `diag-<now>`, trimmed notes, status "active", recorded at `isoNow`)
      and the form returns to its initial state. */
  function AddDiagnosis(f: Form, now: int, isoNow: string): (r: (Form, Option<ClinicalDiagnosis>))
    ensures f.selected.None? ==> r == (f, None)
    ensures f.selected.Some? ==>
              && r.0 == InitialForm
              && r.1.Some?
              && r.1.value.id == "diag-" + IntToString(now)
              && r.1.value.namasteCode == f.selected.value
              && r.1.value.icd11Codes == f.translated
              && r.1.value.notes == NotesField(f.notes)
              && r.1.value.severity == f.severity
              && r.1.value.status == Active
              && r.1.value.recordedDate == isoNow
  {
    match f.selected
    case None => (f, None)
    case Some(c) =>
      var d := ClinicalDiagnosis("diag-" + IntToString(now), c, f.translated, NotesField(f.notes), f.severity, Active, isoNow);
      (InitialForm, Some(d))
  }

  // ---------------------------------------------------------------------
  // Properties across handlers
  // ---------------------------------------------------------------------

  /** Notes on an added diagnosis are never blank and never padded: what is
      kept is non-empty and neither starts nor ends with whitespace, and a
      whitespace-only entry is dropped. */
  lemma AddedNotesAreTrimmed(f: Form, now: int, isoNow: string)
    requires f.selected.Some?
    ensures var d := AddDiagnosis(f, now, isoNow).1.value;
            && (d.notes.None? <==> forall k :: 0 <= k < |f.notes| ==> IsSpace(f.notes[k]))
            && (d.notes.Some? ==> d.notes.value != "" && !IsSpace(d.notes.value[0])
                                  && !IsSpace(d.notes.value[|d.notes.value| - 1]))
  {
  }

  /** Select, translate, add: the recorded diagnosis carries the selected
      concept and exactly the table's codes for it, whatever was translated
      before the selection. */
  lemma SelectTranslateAdd(f: Form, c: Concept, now: int, isoNow: string)
    ensures var d := AddDiagnosis(Translate(ConceptSelect(f, c)), now, isoNow).1;
            d.Some? && d.value.namasteCode == c && d.value.icd11Codes == MockTranslations(c.code)
  {
  }

  /** The add handler on its own, called straight after a selection, would
      record no ICD-11 codes, since selecting empties the code list. The page
      never offers that call: see `AddHiddenAfterSelect`. */
  lemma SelectThenAddHasNoCodes(f: Form, c: Concept, now: int, isoNow: string)
    ensures AddDiagnosis(ConceptSelect(f, c), now, isoNow).1.value.icd11Codes == []
  {
  }

  /** Translating twice is translating once, and every added diagnosis leaves
      the form ready for the next: nothing selected, so a second add in a row
      does nothing. */
  lemma TranslateIdempotentAndAddResets(f: Form, now: int, later: int, isoNow: string)
    ensures Translate(Translate(f)) == Translate(f)
    ensures var after := AddDiagnosis(f, now, isoNow).0;
            f.selected.Some? ==> AddDiagnosis(after, later, isoNow) == (InitialForm, None)
  {
  }

  // ---------------------------------------------------------------------
  // The controls the page shows
  // ---------------------------------------------------------------------

  /** A user action on the form. Each names the control it comes from. */
  datatype Event =
    | SelectConcept(concept: Concept)   // the search box of step 1
    | DeselectClick                     // the cross beside the selected concept
    | TranslateClick                    // "Auto-translate to ICD-11"
    | RetranslateClick                  // "Re-translate"
    | SeverityClick(level: Severity)    // the severity buttons of step 3
    | NotesInput(text: string)          // the notes box of step 3
    | AddClick(now: int, isoNow: string) // "Add Diagnosis"

  /** Whether the control an event comes from is on the page. The search box
      shows only while nothing is selected; the cross, and step 2, only while
      a concept is selected; step 2 offers "Auto-translate" while the code
      list is empty and "Re-translate" once it is not; step 3 (severity,
      notes, "Add Diagnosis") shows whenever the code list is non-empty. */
  predicate Enabled(f: Form, e: Event) {
    match e
    case SelectConcept(_) => f.selected.None?
    case DeselectClick => f.selected.Some?
    case TranslateClick => f.selected.Some? && |f.translated| == 0
    case RetranslateClick => f.selected.Some? && |f.translated| > 0
    case SeverityClick(_) => |f.translated| > 0
    case NotesInput(_) => |f.translated| > 0
    case AddClick(_, _) => |f.translated| > 0
  }

  /** An event on a shown control runs its handler; a hidden control cannot
      be used, so the form stays as it is. The second component is the
      diagnosis handed to the parent, if any. */
  function Click(f: Form, e: Event): (r: (Form, Option<ClinicalDiagnosis>))
    ensures !Enabled(f, e) ==> r == (f, None)
    ensures r.1.Some? ==> e.AddClick? && f.selected.Some? && |r.1.value.icd11Codes| >= 1
    ensures r.1.Some? ==> r.1.value.namasteCode == f.selected.value && r.1.value.icd11Codes == f.translated
  {
    if !Enabled(f, e) then (f, None)
    else
      match e
      case SelectConcept(c) => (ConceptSelect(f, c), None)
      case DeselectClick => (Deselect(f), None)
      case TranslateClick => (Translate(f), None)
      case RetranslateClick => (ClearTranslations(f), None)
      case SeverityClick(level) => (SetSeverity(f, level), None)
      case NotesInput(text) => (SetNotes(f, text), None)
      case AddClick(now, isoNow) => AddDiagnosis(f, now, isoNow)
  }

  /** A sequence of events from `f`: the final form and the diagnoses handed
      to the parent, in order. */
  function Run(f: Form, es: seq<Event>): (Form, seq<ClinicalDiagnosis>)
    decreases |es|
  {
    if es == [] then (f, [])
    else
      var step := Click(f, es[0]);
      var rest := Run(step.0, es[1..]);
      (rest.0, (if step.1.Some? then [step.1.value] else []) + rest.1)
  }

  /** The form's codes, when a concept is selected, are either none yet or
      exactly the table's row for that concept. */
  predicate Consistent(f: Form) {
    f.selected.Some? ==> f.translated == [] || f.translated == MockTranslations(f.selected.value.code)
  }

  /** Right after a selection the "Add Diagnosis" button is not on the page. */
  lemma AddHiddenAfterSelect(f: Form, c: Concept, now: int, isoNow: string)
    ensures !Enabled(ConceptSelect(f, c), AddClick(now, isoNow))
    ensures Click(ConceptSelect(f, c), AddClick(now, isoNow)) == (ConceptSelect(f, c), None)
  {
  }

  /** The cross hides step 2 but not step 3: after translating and then
      deselecting, "Add Diagnosis" is still shown, and clicking it hands
      nothing to the parent and leaves the form as it is. */
  lemma AddShownWithoutSelection(f: Form, now: int, isoNow: string)
    requires f.selected.Some? && MockTranslations(f.selected.value.code) != []
    ensures var g := Deselect(Translate(f));
            Enabled(g, AddClick(now, isoNow)) && Click(g, AddClick(now, isoNow)) == (g, None)
  {
  }

  /** Every click on a shown control keeps the form consistent. */
  lemma ClickKeepsConsistent(f: Form, e: Event)
    requires Consistent(f)
    ensures Consistent(Click(f, e).0)
  {
  }

  /** A recorded diagnosis carries at least one ICD-11 code, and exactly the
      table's row for its NAMASTE code. */
  predicate CarriesTableCodes(d: ClinicalDiagnosis) {
    |d.icd11Codes| >= 1 && d.icd11Codes == MockTranslations(d.namasteCode.code)
  }

  /** From the initial form (or any consistent one), every diagnosis the page
      hands to its parent carries at least one ICD-11 code, and exactly the
      table's row for its NAMASTE code. */
  lemma {:induction false} RecordedDiagnosesCarryCodes(f: Form, es: seq<Event>)
    requires Consistent(f)
    ensures Consistent(Run(f, es).0)
    ensures forall k :: 0 <= k < |Run(f, es).1| ==> CarriesTableCodes(Run(f, es).1[k])
    decreases |es|
  {
    if es != [] {
      var step := Click(f, es[0]);
      ClickKeepsConsistent(f, es[0]);
      RecordedDiagnosesCarryCodes(step.0, es[1..]);
      var head := if step.1.Some? then [step.1.value] else [];
      var tail := Run(step.0, es[1..]).1;
      assert Run(f, es).1 == head + tail;
      if step.1.Some? {
        assert step.1.value.icd11Codes == f.translated;
        assert CarriesTableCodes(step.1.value);
      }
      forall k | 0 <= k < |head + tail|
        ensures CarriesTableCodes((head + tail)[k])
      {
        if k >= |head| {
          assert (head + tail)[k] == tail[k - |head|];
        }
      }
    }
  }

  /** The page starts consistent, so the lemma above covers every session. */
  lemma InitialFormConsistent()
    ensures Consistent(InitialForm)
    ensures forall e :: !Click(InitialForm, e).1.Some?
  {
  }
}
