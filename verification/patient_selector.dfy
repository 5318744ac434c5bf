/** The patient picker of components/clinical/patient-selector.tsx: the
    case-insensitive search over the mock patient list, and the new-patient
    form whose guard decides whether a patient is created. The clock is the
    parameter `now`. */
module PatientSelector {
  import opened Base
  import opened Text
  import opened Types

  /** The three demonstration patients, in display order. */
  const MockPatients := [
    Patient("P001", "Rajesh Kumar", Some(45), "Male", "MRN001", Some("2024-01-15")),
    Patient("P002", "Priya Sharma", Some(32), "Female", "MRN002", Some("2024-01-10")),
    Patient("P003", "Arjun Patel", Some(28), "Male", "MRN003", Some("2024-01-08"))
  ]

  /** A patient matches when the lower-cased term occurs in its lower-cased
      name or lower-cased MRN. */
  predicate Matches(p: Patient, term: string) {
    Contains(ToLower(p.name), ToLower(term)) || Contains(ToLower(p.mrn), ToLower(term))
  }

  /** `patients.filter(...)`: the matching patients, in order. */
  function FilterPatients(patients: seq<Patient>, term: string): (r: seq<Patient>)
    ensures |r| <= |patients|
    ensures forall k :: 0 <= k < |r| ==> r[k] in patients && Matches(r[k], term)
    ensures forall p :: p in patients && Matches(p, term) ==> p in r
    decreases |patients|
  {
    if |patients| == 0 then []
    else (if Matches(patients[0], term) then [patients[0]] else []) + FilterPatients(patients[1..], term)
  }

  /** The new-patient form's four text boxes and whether it is shown. */
  datatype NewPatientForm = NewPatientForm(name: string, age: string, gender: string, mrn: string, shown: bool)

  const EmptyForm := NewPatientForm("", "", "", "", false)

  /** `handleNewPatient`: when every box is filled, a patient with id
      `P<now>` and the age read by `parseInt` is handed to the parent and the
      form is emptied and hidden; otherwise nothing happens. */
  function HandleNewPatient(f: NewPatientForm, now: int): (r: (NewPatientForm, Option<Patient>))
    ensures (f.name == "" || f.age == "" || f.gender == "" || f.mrn == "") ==> r == (f, None)
    ensures f.name != "" && f.age != "" && f.gender != "" && f.mrn != "" ==>
              && r.0 == EmptyForm
              && r.1 == Some(Patient("P" + IntToString(now), f.name, ParseInt(f.age), f.gender, f.mrn, None))
  {
    if f.name != "" && f.age != "" && f.gender != "" && f.mrn != "" then
      (EmptyForm, Some(Patient("P" + IntToString(now), f.name, ParseInt(f.age), f.gender, f.mrn, None)))
    else
      (f, None)
  }

  /** The "New Patient" button toggles the form. */
  function ToggleForm(f: NewPatientForm): (r: NewPatientForm)
    ensures r.shown == !f.shown && r.(shown := f.shown) == f
  {
    f.(shown := !f.shown)
  }

  // ---------------------------------------------------------------------
  // Properties
  // ---------------------------------------------------------------------

  /** The filter keeps the list's order: it distributes over concatenation. */
  lemma {:induction false} FilterDistributes(a: seq<Patient>, b: seq<Patient>, term: string)
    ensures FilterPatients(a + b, term) == FilterPatients(a, term) + FilterPatients(b, term)
    decreases |a|
  {
    if |a| == 0 {
      assert a + b == b;
    } else {
      assert (a + b)[1..] == a[1..] + b;
      FilterDistributes(a[1..], b, term);
    }
  }

  /** An empty search term shows every patient. */
  lemma {:induction false} EmptyTermKeepsAll(patients: seq<Patient>)
    ensures FilterPatients(patients, "") == patients
    decreases |patients|
  {
    if |patients| > 0 {
      ContainsEmpty(ToLower(patients[0].name));
      EmptyTermKeepsAll(patients[1..]);
      assert [patients[0]] + patients[1..] == patients;
    }
  }

  /** Matching ignores ASCII case in the term: a term and its lower-cased
      form find the same patients. */
  lemma TermCaseIgnored(patients: seq<Patient>, term: string)
    ensures FilterPatients(patients, ToLower(term)) == FilterPatients(patients, term)
  {
    ToLowerIdempotent(term);
    forall p ensures Matches(p, ToLower(term)) == Matches(p, term) {
    }
    FilterSameMatches(patients, ToLower(term), term);
  }

  /** Two terms that match the same patients filter alike. */
  lemma {:induction false} FilterSameMatches(patients: seq<Patient>, t: string, u: string)
    requires forall p :: Matches(p, t) == Matches(p, u)
    ensures FilterPatients(patients, t) == FilterPatients(patients, u)
    decreases |patients|
  {
    if |patients| > 0 {
      FilterSameMatches(patients[1..], t, u);
    }
  }

  /** A digit of the term that occurs in neither the name nor the MRN rules
      the patient out (lower-casing leaves digits alone). */
  lemma DigitRulesOut(p: Patient, term: string, c: char)
    requires IsDigit(c) && c in term && c !in p.name && c !in p.mrn
    ensures !Matches(p, term)
  {
    var k :| 0 <= k < |term| && term[k] == c;
    assert ToLower(term)[k] == c;
    MissingCharNotContained(ToLower(p.name), ToLower(term), c);
    MissingCharNotContained(ToLower(p.mrn), ToLower(term), c);
  }

  /** Filtering three patients of whom only the middle one matches. */
  lemma {:induction false} FilterMiddleOfThree(p0: Patient, p1: Patient, p2: Patient, term: string)
    requires !Matches(p0, term) && Matches(p1, term) && !Matches(p2, term)
    ensures FilterPatients([p0, p1, p2], term) == [p1]
  {
    var ps := [p0, p1, p2];
    assert ps[1..] == [p1, p2] && ps[1..][1..] == [p2] && ps[1..][1..][1..] == [];
    assert FilterPatients([p2], term) == [];
    assert FilterPatients([p1, p2], term) == [p1];
  }

  /** A patient's own MRN, typed in lower case, finds it. */
  lemma MrnMatchesItself(p: Patient)
    ensures Matches(p, ToLower(p.mrn))
  {
    ToLowerIdempotent(p.mrn);
    assert IsPrefix(ToLower(p.mrn), ToLower(p.mrn));
  }

  /** The MRN search: "mrn002" finds exactly Priya Sharma. */
  lemma MrnSearchFindsOne(term: string)
    requires term == "mrn002"
    ensures FilterPatients(MockPatients, term) == [MockPatients[1]]
  {
    var p0, p1, p2 := MockPatients[0], MockPatients[1], MockPatients[2];
    assert term[5] == '2';
    assert '2' !in p0.name && '2' !in p0.mrn;
    assert '2' !in p2.name && '2' !in p2.mrn;
    DigitRulesOut(p0, term, '2');
    DigitRulesOut(p2, term, '2');
    assert ToLower(p1.mrn) == term;
    MrnMatchesItself(p1);
    FilterMiddleOfThree(p0, p1, p2, term);
  }

  /** A filled form always yields a patient, whose id starts with "P", and
      whose age is the number typed when the age box holds only digits. */
  lemma NewPatientCreated(f: NewPatientForm, now: int, age: nat)
    requires f.name != "" && f.gender != "" && f.mrn != "" && f.age == NatToString(age)
    ensures var r := HandleNewPatient(f, now);
            r.1.Some? && r.1.value.id[0] == 'P' && r.1.value.age == Some(age) && !r.0.shown
  {
    ParseIntOfIntToString(age);
  }
}
