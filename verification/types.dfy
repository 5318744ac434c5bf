/** The record shapes of types/fhir.ts, plus the `Patient` record that three
    components declare identically. Optional TypeScript fields are `Option`s. */
module Types {
  import opened Base

  /** `NAMASTEConcept`: a code in a code system, with an optional definition. */
  datatype Concept = Concept(system: string, code: string, display: string, definition: Option<string>)

  /** A FHIR Coding: system, code and display, all required. */
  datatype Coding = Coding(system: string, code: string, display: string)

  /** The concept with every field empty, used as a placeholder `originalCode`. */
  const EmptyConcept := Concept("", "", "", None)

  /** One entry of `TranslationResult.mappedCodes`: `equivalence` is required,
      `score` optional. */
  datatype MappedCode = MappedCode(system: string, code: string, display: string, equivalence: string, score: Option<real>)

  /** `TranslationResult`: `mappedCodes` required, `message` optional. */
  datatype TranslationResult = TranslationResult(
    success: bool,
    originalCode: Concept,
    mappedCodes: seq<MappedCode>,
    message: Option<string>)

  /** `AuthResponse`: the token endpoint's reply; `expires_in` (seconds) is optional. */
  datatype AuthResponse = AuthResponse(accessToken: string, tokenType: string, expiresIn: Option<int>)

  /** The typed value fields shared by a `Parameters` entry and its parts. */
  datatype Values = Values(
    valueString: Option<string>,
    valueBoolean: Option<bool>,
    valueDecimal: Option<real>,
    valueCode: Option<string>,
    valueCoding: Option<Coding>)

  const NoValues := Values(None, None, None, None, None)

  /** One element of a parameter's `part` list: a name and values, nothing nested. */
  datatype Part = Part(name: string, values: Values)

  /** One element of `Parameters.parameter`: a name, values, and an optional
      one-level `part` list. */
  datatype Parameter = Parameter(name: string, values: Values, part: Option<seq<Part>>)

  /** A FHIR `Parameters` resource; the entry list itself is optional. */
  datatype Parameters = Parameters(parameter: Option<seq<Parameter>>)

  /** A `ValueSet` as returned by `$expand`. */
  datatype Expansion = Expansion(contains: Option<seq<Concept>>, total: Option<int>, offset: Option<int>)
  datatype ValueSet = ValueSet(id: Option<string>, url: Option<string>, expansion: Option<Expansion>)

  /** The minimal patient record of the clinical screens. The age is a
      JavaScript number read with `parseInt`, so it may be `NaN` (`None`). */
  datatype Patient = Patient(id: string, name: string, age: Option<int>, gender: string, mrn: string, lastVisit: Option<string>)

  /** `Bundle.type`: one of nine fixed literals. */
  datatype BundleType =
    | Collection | Document | Message | Transaction | TransactionResponse
    | Batch | BatchResponse | History | Searchset

  /** The wire literal of a bundle type. */
  function BundleTypeLiteral(t: BundleType): string {
    match t
    case Collection => "collection"
    case Document => "document"
    case Message => "message"
    case Transaction => "transaction"
    case TransactionResponse => "transaction-response"
    case Batch => "batch"
    case BatchResponse => "batch-response"
    case History => "history"
    case Searchset => "searchset"
  }

  /** Reading a wire literal back; anything outside the nine literals is rejected. */
  function ParseBundleType(s: string): (r: Option<BundleType>)
    ensures r.Some? ==> BundleTypeLiteral(r.value) == s
  {
    if s == "collection" then Some(Collection)
    else if s == "document" then Some(Document)
    else if s == "message" then Some(Message)
    else if s == "transaction" then Some(Transaction)
    else if s == "transaction-response" then Some(TransactionResponse)
    else if s == "batch" then Some(Batch)
    else if s == "batch-response" then Some(BatchResponse)
    else if s == "history" then Some(History)
    else if s == "searchset" then Some(Searchset)
    else None
  }

  /** Every bundle type reads back from its literal, so the nine literals are distinct. */
  lemma BundleTypeRoundTrip(t: BundleType)
    ensures ParseBundleType(BundleTypeLiteral(t)) == Some(t)
  {
  }

  // FHIR resources the clinical bundle carries.

  datatype Identifier = Identifier(system: string, value: string)
  datatype HumanName = HumanName(family: string, given: seq<string>)
  datatype CodeableConcept = CodeableConcept(coding: seq<Coding>)
  datatype Reference = Reference(reference: string)
  datatype Annotation = Annotation(text: string)

  datatype Resource =
    | PatientResource(
        id: string,
        identifier: seq<Identifier>,
        name: seq<HumanName>,
        gender: string,
        birthDateMs: int)
    | ConditionResource(
        id: string,
        subject: Reference,
        code: CodeableConcept,
        clinicalStatus: CodeableConcept,
        severity: Option<CodeableConcept>,
        recordedDate: string,
        note: Option<seq<Annotation>>)

  datatype Entry = Entry(resource: Resource)

  /** A FHIR `Bundle`: optional id, a type, an optional entry list. */
  datatype Bundle = Bundle(id: Option<string>, bundleType: BundleType, entry: Option<seq<Entry>>)
}
