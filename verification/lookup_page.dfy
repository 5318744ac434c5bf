/** The lookup page of app/lookup/page.tsx: the join of the parallel
    `$lookup` and `$validate-code` calls, and the mock details and validation
    records the page shows in place of the servers' answers. The instant of
    a validation (`new Date().toISOString()`) is a parameter. */
module LookupPage {
  import opened Base
  import opened Text
  import FhirService
  import Types

  // ---------------------------------------------------------------------
  // Mock code details
  // ---------------------------------------------------------------------

  datatype Property = Property(name: string, value: string, description: string)
  datatype Relationship = Relationship(relType: string, target: Types.Coding)

  /** One row of the mock table: the fields it may supply. */
  datatype MockEntry = MockEntry(
    display: string,
    definition: string,
    properties: seq<Property>,
    relationships: Option<seq<Relationship>>)

  /** The details record `createMockCodeDetails` returns. */
  datatype CodeDetails = CodeDetails(
    system: string,
    code: string,
    display: string,
    definition: Option<string>,
    status: string,
    version: string,
    publisher: string,
    lastUpdated: string,
    properties: seq<Property>,
    relationships: seq<Relationship>,
    validationValid: bool,
    validationMessage: string)

  const KnownCodes := ["AY001", "SI045", "UN123"]
  const MockVersion := "1.0.0"
  const MockPublisher := "Ministry of AYUSH, Government of India"
  const MockLastUpdated := "2024-01-15T10:30:00Z"
  const DetailsValidMessage := "Code exists and is active in the system"

  /** The three rows of the mock table. */
  const Ay001Row := MockEntry(
    "Vata Dosha Imbalance",
    "Constitutional imbalance characterized by excess Vata dosha, leading to symptoms of dryness, coldness, and irregular functions.",
    [ Property("Dosha", "Vata", "Primary dosha involved"),
      Property("Severity", "Moderate", "Clinical severity level"),
      Property("Category", "Constitutional", "Type of disorder") ],
    Some([Relationship("parent", Types.Coding("https://namaste.ayush.gov.in/fhir/CodeSystem/ayurveda", "AY000", "Dosha Imbalances"))]))
  const Si045Row := MockEntry(
    "Kabam Excess",
    "Excess of Kabam (phlegm) humor in Siddha medicine, causing symptoms of heaviness, sluggishness, and excessive mucus production.",
    [ Property("Humor", "Kabam", "Primary humor involved"),
      Property("Manifestation", "Excess", "Type of imbalance") ],
    None)
  const Un123Row := MockEntry(
    "Mizaj Imbalance",
    "Temperamental imbalance in Unani medicine affecting the natural constitution and physiological functions.",
    [ Property("Temperament", "Cold & Moist", "Affected temperament"),
      Property("Organ", "Brain", "Primary organ affected") ],
    None)

  /** The mock table, by code; other codes have no row. */
  function MockData(code: string): (r: Option<MockEntry>)
    ensures r.Some? <==> code == "AY001" || code == "SI045" || code == "UN123"
  {
    if code == "AY001" then Some(Ay001Row)
    else if code == "SI045" then Some(Si045Row)
    else if code == "UN123" then Some(Un123Row)
    else None
  }

  /** The codes the validation accepts are exactly the rows of the table. */
  lemma KnownCodesAreRows(code: string)
    ensures code in KnownCodes <==> MockData(code).Some?
  {
  }

  /** `createMockCodeDetails`: the table's display, or "<label> Code <code>"
      when the code has no row; the table's definition, properties and
      relationships (empty lists when absent); always active, version 1.0.0,
      and always reported valid. */
  function CreateMockCodeDetails(system: string, code: string): (d: CodeDetails)
    ensures d.system == system && d.code == code
    ensures MockData(code).Some? ==> d.display == MockData(code).value.display
    ensures MockData(code).None? ==> d.display == FhirService.GetSystemLabel(system) + " Code " + code
    ensures d.definition.Some? <==> MockData(code).Some?
    ensures MockData(code).None? ==> d.properties == [] && d.relationships == []
    ensures d.status == "active" && d.version == MockVersion && d.publisher == MockPublisher
    ensures d.lastUpdated == MockLastUpdated
    ensures d.validationValid && d.validationMessage == DetailsValidMessage
  {
    var entry := MockData(code);
    CodeDetails(
      system, code,
      if entry.Some? && entry.value.display != "" then entry.value.display
      else FhirService.GetSystemLabel(system) + " Code " + code,
      if entry.Some? then Some(entry.value.definition) else None,
      "active", MockVersion, MockPublisher, MockLastUpdated,
      if entry.Some? then entry.value.properties else [],
      if entry.Some? && entry.value.relationships.Some? then entry.value.relationships.value else [],
      true, DetailsValidMessage)
  }

  // ---------------------------------------------------------------------
  // Mock validation
  // ---------------------------------------------------------------------

  datatype Issue = Issue(severity: string, code: string, details: string)
  datatype Metadata = Metadata(checkedAt: string, version: string, source: string)

  datatype ValidationResult = ValidationResult(
    isValid: bool,
    system: string,
    code: string,
    display: Option<string>,
    message: string,
    issues: seq<Issue>,
    metadata: Metadata)

  const ValidMessage := "Code is valid and active in the specified system"
  const NotFoundMessage := "Code not found in the specified system"
  const NotFoundIssue := Issue("error", "not-found", "The specified code does not exist in the given code system")
  const MockSource := "NAMASTE FHIR Terminology Server"

  /** `createMockValidationResult`: valid exactly for the three known codes. */
  function CreateMockValidationResult(system: string, code: string, checkedAt: string): (v: ValidationResult)
    ensures v.isValid <==> code in KnownCodes
    ensures v.system == system && v.code == code
    ensures v.isValid ==> v.issues == [] && v.message == ValidMessage
    ensures !v.isValid ==> v.issues == [NotFoundIssue] && v.message == NotFoundMessage
    ensures v.display.Some? <==> v.isValid
    ensures v.metadata == Metadata(checkedAt, MockVersion, MockSource)
  {
    var known := code in KnownCodes;
    ValidationResult(
      known, system, code,
      if known then Some(CreateMockCodeDetails(system, code).display) else None,
      if known then ValidMessage else NotFoundMessage,
      if known then [] else [NotFoundIssue],
      Metadata(checkedAt, MockVersion, MockSource))
  }

  // ---------------------------------------------------------------------
  // The page: `handleLookup` and the URL effect
  // ---------------------------------------------------------------------

  datatype Page = Page(
    details: Option<CodeDetails>,
    validation: Option<ValidationResult>,
    loading: bool,
    error: Option<string>)

  /** How one of the two parallel calls settled. */
  datatype Settled = Fulfilled | Rejected

  const BothFailedMessage := "Both lookup and validation failed"

  /** The start of `handleLookup`: loading, with error, details and
      validation all cleared. */
  function BeginLookup(s: Page): (r: Page)
    ensures r == Page(None, None, true, None)
  {
    Page(None, None, true, None)
  }

  /** The end of `handleLookup`: each fulfilled call fills its panel with
      the mock record; the error is set only when both calls were rejected. */
  function CompleteLookup(s: Page, system: string, code: string, lookup: Settled, validation: Settled, checkedAt: string): (r: Page)
    ensures !r.loading
    ensures lookup == Fulfilled ==> r.details == Some(CreateMockCodeDetails(system, code))
    ensures validation == Fulfilled ==> r.validation == Some(CreateMockValidationResult(system, code, checkedAt))
    ensures lookup == Rejected && validation == Rejected ==> r.error == Some(BothFailedMessage)
    ensures !(lookup == Rejected && validation == Rejected) ==> r.error == s.error
    ensures lookup == Rejected ==> r.details == s.details
    ensures validation == Rejected ==> r.validation == s.validation
  {
    var details := if lookup == Fulfilled then Some(CreateMockCodeDetails(system, code)) else s.details;
    var checked := if validation == Fulfilled then Some(CreateMockValidationResult(system, code, checkedAt)) else s.validation;
    var error := if lookup == Rejected && validation == Rejected then Some(BothFailedMessage) else s.error;
    Page(details, checked, false, error)
  }

  /** The URL effect: a lookup starts only when both `system` and `code`
      query parameters are present and non-empty. */
  function UrlLookup(system: Option<string>, code: Option<string>): (r: Option<(string, string)>)
    ensures r.Some? <==> system.Some? && system.value != "" && code.Some? && code.value != ""
    ensures r.Some? ==> r.value == (system.value, code.value)
  {
    if system.Some? && system.value != "" && code.Some? && code.value != "" then Some((system.value, code.value))
    else None
  }

  // ---------------------------------------------------------------------
  // Properties
  // ---------------------------------------------------------------------

  /** A whole lookup: the error appears exactly when both calls fail, and
      each panel shows exactly when its own call succeeded. */
  lemma LookupJoin(s: Page, system: string, code: string, lookup: Settled, validation: Settled, checkedAt: string)
    ensures var r := CompleteLookup(BeginLookup(s), system, code, lookup, validation, checkedAt);
            && (r.error.Some? <==> lookup == Rejected && validation == Rejected)
            && (r.details.Some? <==> lookup == Fulfilled)
            && (r.validation.Some? <==> validation == Fulfilled)
            && !r.loading
  {
  }

  /** For a known code the two mock records agree on the display, and the
      display is the table's; an unknown code gets a non-empty made-up display. */
  lemma DisplaysAgree(system: string, code: string, checkedAt: string)
    ensures code in KnownCodes ==>
              CreateMockValidationResult(system, code, checkedAt).display == Some(CreateMockCodeDetails(system, code).display)
    ensures code !in KnownCodes ==> CreateMockCodeDetails(system, code).display != ""
  {
  }

  /** The table's displays for the three known codes. */
  lemma KnownDisplays(system: string)
    ensures CreateMockCodeDetails(system, "AY001").display == "Vata Dosha Imbalance"
    ensures CreateMockCodeDetails(system, "SI045").display == "Kabam Excess"
    ensures CreateMockCodeDetails(system, "UN123").display == "Mizaj Imbalance"
  {
  }

  /** As written, the two mock records disagree on unknown codes: the details
      panel says the code is valid while the validation panel says it is not. */
  lemma UnknownCodeContradiction(system: string, code: string, checkedAt: string)
    requires code !in KnownCodes
    ensures CreateMockCodeDetails(system, code).validationValid
    ensures !CreateMockValidationResult(system, code, checkedAt).isValid
  {
  }
}
