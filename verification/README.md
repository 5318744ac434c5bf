# NAMASTE FHIR terminology front end — a Dafny model

This project models the logic inside a React front end for a FHIR
terminology server that serves India's NAMASTE codes (Ayurveda, Siddha,
Unani) and their ICD-11 mappings. Most of the program is markup. The
model covers the parts that hold rules:

- the token holder of the auth service;
- the request builders and outcome policy of the FHIR service;
- the normaliser that flattens a `$translate` response;
- the code-system label classifier;
- the clinical FHIR `Bundle` assembler;
- the state machines of the clinical, search, lookup and translate screens;
- the CSV export of the search page.

Everything is immutable datatypes and pure functions. Each screen is a
state record, and each handler is a function from the old record (plus the
event) to the new one. Where a handler also calls a parent callback or
issues a request, it returns a pair whose second component is that callback
argument or request. Clocks (`Date.now()`, `new Date().toISOString()`) and
server replies are parameters.

Files and modules:

- `base.dfy` (`Base`): `Option` and `Result`.
- `text.dfy` (`Text`): the JavaScript string built-ins the code relies on:
  - `includes`;
  - ASCII `toLowerCase`;
  - `trim` with the ECMAScript white-space set;
  - `split` and `join` on one character;
  - `parseInt` in radix 10, with `None` for `NaN`;
  - integer `toString`.
- `types.dfy` (`Types`): the shapes of types/fhir.ts and the FHIR resources of the bundle.
- `auth_service.dfy` (`AuthService`): services/auth.service.ts.
- `fhir_service.dfy` (`FhirService`): services/fhir.service.ts.
- `diagnosis_entry.dfy` (`DiagnosisEntry`): components/clinical/diagnosis-entry.tsx.
- `bundle_preview.dfy` (`BundlePreview`): components/clinical/bundle-preview.tsx.
- `clinical_page.dfy` (`ClinicalPage`): app/clinical/page.tsx.
- `patient_selector.dfy` (`PatientSelector`): components/clinical/patient-selector.tsx.
- `search_input.dfy` (`SearchInput`): components/search/search-input.tsx.
- `search_filters.dfy` (`SearchFilters`): components/search/search-filters.tsx.
- `search_page.dfy` (`SearchPage`): app/search/page.tsx.
- `code_lookup_form.dfy` (`CodeLookupForm`): components/lookup/code-lookup-form.tsx.
- `lookup_page.dfy` (`LookupPage`): app/lookup/page.tsx.
- `translate_page.dfy` (`TranslatePage`): app/translate/page.tsx.

### Behaviour of the code worth knowing

- **System labels are case-sensitive.** `getSystemLabel` tests `includes` case-sensitively and has no "icd.who.int" token. So the two ICD-11 browser URIs that the lookup form offers are labelled "Unknown" (`FhirService.IcdUrisAreUnknown`).
- **A failed translation keeps its matches.** `result = false` does not empty `mappedCodes` (`FhirService.FailureKeepsMatches`).
- **The birth date uses 365-day years.** The age is multiplied by 365 days, so leap days are ignored.
- **The name is split on a single space character.** Tabs and other white space stay inside a name part, and two spaces in a row give an empty part, which is kept.
- **The CSV export quotes every field but does not double embedded quotes.** Section 2, rule 7 of RFC 4180 asks for that doubling. As a result, two different results can export to the same line (`SearchPage.ExportIsAmbiguous`).
- **A non-numeric age passes the bundle guard.** The guard `canGenerateBundle` looks only at the patient and the diagnosis count. A patient whose age is `NaN` passes it, and generation then fails on the invalid date (`BundlePreview.GuardIgnoresAge`).
- **Unknown codes on the lookup page get contradictory panels.** The mock details report every code as valid, while the mock validation rejects unknown codes (`LookupPage.UnknownCodeContradiction`).

## Model

| member | source | states |
|---|---|---|
| Types.ParseBundleType | types/fhir.ts:80-89 | only the nine literals are accepted, each read as the type whose literal it is |
| Types.BundleTypeRoundTrip | types/fhir.ts:80-89 | every bundle type reads back from its literal, so the nine literals are distinct |
| Text.Trim | components/clinical/diagnosis-entry.tsx:71 | the result is a contiguous slice of the input that neither starts nor ends with ECMAScript white space, and every character cut away before or after it is white space |
| Text.TrimEmptyIff | components/lookup/code-lookup-form.tsx:56 | a string trims to "" exactly when every character is white space |
| Text.ToLower | components/clinical/patient-selector.tsx:64-68 | lower-casing maps each character on its own, so length and non-letters are kept |
| Text.JoinSplit | components/clinical/bundle-preview.tsx:55-56 | joining the pieces of a split with the same separator gives the original string back |
| Text.SplitJoin | app/search/page.tsx:42-43 | splitting a join of separator-free pieces gives those pieces back |
| Text.ParseInt | services/auth.service.ts:22 | after leading white space and one optional sign, a number is read exactly when a digit follows (otherwise `NaN`); only text starting with a minus sign reads as negative |
| Text.ParseIgnoresTail | components/clinical/patient-selector.tsx:79 | digits followed by anything that does not start with a digit (such as "45 years" or "45.5") read as the value of the digits alone |
| Text.ParseIntOfIntToString | services/auth.service.ts:22 | `parseInt` reads back the decimal text of any integer, including negative ones |
| AuthService.Fresh | services/auth.service.ts:8-9 | before loading, the service holds no token and no expiry, over the given store |
| AuthService.ClearToken | services/auth.service.ts:40-45 | both fields become null and both keys are removed; every other key and its value is kept |
| AuthService.SaveTokenToStorage | services/auth.service.ts:32-38 | the expiry is now + expiresIn·1000 ms; the token and the expiry's decimal text are stored, and the stored text parses back to the held expiry; other keys are untouched |
| AuthService.LoadTokenFromStorage | services/auth.service.ts:17-30 | with both keys truthy, an unexpired parsed expiry adopts the stored pair and an expired or unparsable one clears; otherwise nothing changes |
| AuthService.EffectiveExpiresIn | services/auth.service.ts:62-63 | an absent or zero `expires_in` means 3600 seconds; any other value is used as is |
| AuthService.Login | services/auth.service.ts:47-67 | a non-OK reply fails with "Authentication failed" and changes nothing; a failed fetch or body read fails with its own message and changes nothing; an accepted one returns the body and holds its token until now + lifetime |
| AuthService.Logout | services/auth.service.ts:69-71 | logout leaves no token, no expiry and neither storage key |
| AuthService.RefreshToken | services/auth.service.ts:81-92 | a null or zero expiry is left alone; less than 300 000 ms left clears the token; otherwise nothing changes |
| AuthService.ConsistencyPreserved | services/auth.service.ts:17-45 | every operation keeps "token is null iff expiry is null" |
| AuthService.AuthenticatedUntilExpiry | services/auth.service.ts:77-79 | a just-saved token is authenticated at a later instant exactly when that instant is before its expiry |
| AuthService.LogoutDeauthenticates | services/auth.service.ts:69-79 | after logout nobody is authenticated and `getToken` yields null |
| AuthService.ExpiryIsFinal | services/auth.service.ts:77-79 | an unauthenticated state stays unauthenticated as time advances |
| AuthService.RefreshNeverAuthenticates | services/auth.service.ts:81-92 | the refresh check never makes a state authenticated that was not |
| AuthService.RefreshLeavesMargin | services/auth.service.ts:84-91 | a token that survives the refresh check has at least five minutes left (or the falsy expiry 0) |
| AuthService.LoadAfterSave | services/auth.service.ts:17-38 | a reload after a save adopts the same pair while unexpired, clears once expired, and ignores a token saved as "" |
| FhirService.ExpandValueSet | services/fhir.service.ts:36-47 | a GET to the `$expand` path carrying `url`, `count` and, only when the filter is truthy, `filter` |
| FhirService.TranslateConcept | services/fhir.service.ts:49-63 | a POST to `$translate` whose body holds exactly `url`, `system`, `code`, in that order, with the given strings |
| FhirService.LookupCode | services/fhir.service.ts:65-72 | a GET to `$lookup` carrying `system` then `code` |
| FhirService.ValidateCode | services/fhir.service.ts:74-81 | a GET to `$validate-code` carrying `system` then `code` |
| FhirService.UploadBundle | services/fhir.service.ts:83-88 | a POST of the bundle itself to the Bundle path |
| FhirService.MakeRequest | services/fhir.service.ts:8-34 | no token fails before sending; otherwise a Bearer header is sent, 2xx yields the body, 401 logs out and fails as expired, any other status fails with its text, a transport error passes through |
| FhirService.UnauthorizedEndsSession | services/fhir.service.ts:25-29 | only a 401 changes the token holder, after a 401 nobody is authenticated, and consistency is kept |
| FhirService.FindParameter | services/fhir.service.ts:93 | the result is the first entry with that name (every earlier entry has another name), and none means no entry has it |
| FhirService.FirstIndexOf | services/fhir.service.ts:93 | the index found holds the name and no earlier index does; none means no index holds it |
| FhirService.FindPart | services/fhir.service.ts:103-105 | the part found is the first part with that name (every earlier part has another name); none means no part has it |
| FhirService.StringOr | services/fhir.service.ts:97 | a present, non-empty value wins, otherwise the fallback (JavaScript `or` on strings) |
| FhirService.MatchParameters | services/fhir.service.ts:99 | only entries named "match" are kept, each from the input |
| FhirService.MatchParametersOrder | services/fhir.service.ts:99 | the filter distributes over concatenation, so matches keep the server's order |
| FhirService.ParseMatch | services/fhir.service.ts:100-116 | equivalence from the first `equivalence` part or "relatedto"; system, code and display from the first `concept` coding or empty; a zero or missing score is absent |
| FhirService.ParseTranslationResult | services/fhir.service.ts:91-128 | success iff the `result` entry's boolean is true; message is the truthy `message` string or the success/failure default; one mapped code per `match`, in order; empty `originalCode` |
| FhirService.ParsedIsNormal | services/fhir.service.ts:91-128 | every parse has the empty original code, a non-empty message, non-empty equivalences and no zero score |
| FhirService.ParseEncodeMatch | services/fhir.service.ts:100-116 | a `match` entry encoding a mapped code parses back to that code |
| FhirService.AllMatchesKept | services/fhir.service.ts:99 | a list made only of `match` entries passes the filter unchanged |
| FhirService.EncodedTranslationHead | services/fhir.service.ts:93-97 | in an encoded response the `result` and `message` entries found are the first two |
| FhirService.EncodedTranslationMatches | services/fhir.service.ts:99 | the filter keeps exactly the encoded matches |
| FhirService.ParseEncodeTranslation | services/fhir.service.ts:91-128 | parsing the encoding of any normal-form result gives it back, so the normaliser loses nothing |
| FhirService.FailureKeepsMatches | services/fhir.service.ts:94-100 | a response with a match and no `result` parses as a failure that still has one mapped code |
| FhirService.SingleMatchResponse | services/fhir.service.ts:91-128 | a response with `result = true`, one well-formed match and no message parses to exactly that mapped code under the default success message |
| FhirService.TranslateScenario | services/fhir.service.ts:91-128 | scenario, one instance of SingleMatchResponse: a one-match response under `result = true` parses to the expected mapped code and the default success message |
| FhirService.GetSystemLabel | services/fhir.service.ts:131-137 | the label is one of five, and "Unknown" exactly when no token occurs in the URI |
| FhirService.SystemLabelFirstMatch | services/fhir.service.ts:131-137 | the label is that of the first token, in table order, that occurs in the URI |
| FhirService.IcdBrowserUriIsUnknown | services/fhir.service.ts:131-137 | URIs under "https://icd.who.int/browse11" with tails lacking `a` and `1` get "Unknown" |
| FhirService.IcdUrisAreUnknown | components/lookup/code-lookup-form.tsx:32-38 | both ICD-11 browser URIs the lookup form offers are labelled "Unknown" |
| FhirService.UpperCaseIsUnknown | services/fhir.service.ts:131-137 | matching is case-sensitive: a URI without lower-case ASCII letters gets "Unknown" |
| DiagnosisEntry.MockTranslations | components/clinical/diagnosis-entry.tsx:86-121 | codes outside AY001, SI045 and UN123 map to nothing; the known ones lead with a TM2 code; every code carries an equivalence |
| DiagnosisEntry.MockTranslationTable | components/clinical/diagnosis-entry.tsx:86-121 | AY001 gives TM2.001 equivalent then MMS.Z73.0 wider; SI045 and UN123 give one TM2 code each |
| DiagnosisEntry.ConceptSelect | components/clinical/diagnosis-entry.tsx:44-47 | selecting a concept clears the translated codes and keeps notes and severity |
| DiagnosisEntry.Deselect | components/clinical/diagnosis-entry.tsx:175 | the selection is dropped and nothing else changes |
| DiagnosisEntry.ClearTranslations | components/clinical/diagnosis-entry.tsx:219 | "Re-translate" empties the codes and nothing else changes |
| DiagnosisEntry.SetSeverity | components/clinical/diagnosis-entry.tsx:242 | only the severity changes |
| DiagnosisEntry.SetNotes | components/clinical/diagnosis-entry.tsx:258 | only the notes change |
| DiagnosisEntry.Translate | components/clinical/diagnosis-entry.tsx:49-62 | no selection changes nothing; otherwise the codes become the mock table's row for the selected code |
| DiagnosisEntry.NotesField | components/clinical/diagnosis-entry.tsx:71 | absent exactly when the notes are all white space; otherwise the trimmed, non-empty notes |
| DiagnosisEntry.AddDiagnosis | components/clinical/diagnosis-entry.tsx:64-84 | no selection does nothing; otherwise a record with id "diag-<now>", the concept, the codes, the trimmed notes, the severity and status active, and the form reset |
| DiagnosisEntry.AddedNotesAreTrimmed | components/clinical/diagnosis-entry.tsx:71 | recorded notes are non-empty and neither start nor end with white space |
| DiagnosisEntry.SelectTranslateAdd | components/clinical/diagnosis-entry.tsx:44-75 | select, translate, add records the concept with exactly its mock codes |
| DiagnosisEntry.SelectThenAddHasNoCodes | components/clinical/diagnosis-entry.tsx:44-47 | the add handler by itself, called right after a selection, would record no ICD-11 codes; the page never offers that call (see AddHiddenAfterSelect) |
| DiagnosisEntry.Click | components/clinical/diagnosis-entry.tsx:158-266 | a control the page does not show changes nothing; only "Add Diagnosis" hands a diagnosis to the parent, and then with the selected concept and the form's non-empty code list |
| DiagnosisEntry.AddHiddenAfterSelect | components/clinical/diagnosis-entry.tsx:228-266 | right after a selection "Add Diagnosis" is not shown, so clicking it changes nothing |
| DiagnosisEntry.AddShownWithoutSelection | components/clinical/diagnosis-entry.tsx:175-228 | after translating and then deselecting, "Add Diagnosis" is still shown and a click on it records nothing |
| DiagnosisEntry.ClickKeepsConsistent | components/clinical/diagnosis-entry.tsx:44-84 | with a concept selected, the code list is always empty or exactly the mock table's row for that concept |
| DiagnosisEntry.RecordedDiagnosesCarryCodes | components/clinical/diagnosis-entry.tsx:228-266 | over any sequence of clicks from a consistent form, every diagnosis handed to the parent carries at least one ICD-11 code, exactly the mock row for its NAMASTE code |
| DiagnosisEntry.InitialFormConsistent | components/clinical/diagnosis-entry.tsx:38-41 | the form starts consistent, and no single click on it records a diagnosis |
| DiagnosisEntry.TranslateIdempotentAndAddResets | components/clinical/diagnosis-entry.tsx:41 | translating twice is translating once, and after an add a second add does nothing and the form is the initial one (severity moderate) |
| BundlePreview.BirthInstant | components/clinical/bundle-preview.tsx:60 | the birth instant is now minus age 365-day years, and absent for a NaN age |
| BundlePreview.PersonName | components/clinical/bundle-preview.tsx:55-56 | the given names followed by the family name are exactly the pieces of the name split on spaces |
| BundlePreview.PatientEntry | components/clinical/bundle-preview.tsx:43-62 | a Patient with the id, an MRN identifier, the split name, the lower-cased gender and the birth instant |
| BundlePreview.ConditionCoding | components/clinical/bundle-preview.tsx:71-86 | the NAMASTE coding first, then one coding per ICD-11 code, in order |
| BundlePreview.ConditionEntry | components/clinical/bundle-preview.tsx:64-121 | id "condition-<index+1>", the patient reference, the codings, status with capitalised display, SNOMED severity exactly when one is set, and a note exactly when notes are non-empty |
| BundlePreview.ConditionEntries | components/clinical/bundle-preview.tsx:64 | one Condition per diagnosis, in order, numbered by position |
| BundlePreview.AssembleBundle | components/clinical/bundle-preview.tsx:37-123 | a collection with id "bundle-<now>" whose first entry is the Patient and whose remaining entries are the Conditions |
| BundlePreview.GenerateBundle | components/clinical/bundle-preview.tsx:32-126 | no patient fails with "Patient is required"; a birth instant outside the date range fails with "Invalid time value"; otherwise the assembled bundle |
| BundlePreview.GuardedGenerationSucceeds | components/clinical/bundle-preview.tsx:152 | when the guard holds and the date renders, generation succeeds with exactly 1 + n entries (so at least two), the Patient first and every later entry a Condition about that patient |
| BundlePreview.ConditionsFollowDiagnoses | components/clinical/bundle-preview.tsx:64-85 | entry k+1 is the Condition of diagnosis k, and its first coding is the diagnosis's NAMASTE code |
| BundlePreview.GuardIgnoresAge | components/clinical/bundle-preview.tsx:60 | a NaN age passes the guard and then generation fails |
| BundlePreview.PlausibleAgesRender | components/clinical/bundle-preview.tsx:60 | ages 0 to 200 at any instant from the epoch to 200 000 years render |
| BundlePreview.ConditionIdsDistinct | components/clinical/bundle-preview.tsx:67 | Conditions at different positions have different ids |
| BundlePreview.PersonNameRoundTrip | components/clinical/bundle-preview.tsx:55-56 | joining given and family names with spaces gives the name back; a one-word name is all family |
| BundlePreview.FamilyIsLastToken | components/clinical/bundle-preview.tsx:55 | the family name is the text after the last space |
| BundlePreview.SeverityTable | components/clinical/bundle-preview.tsx:101-107 | mild, moderate, severe map to 255604002, 6736007, 24484000 with capitalised displays, and the codes are distinct |
| BundlePreview.NoteIffNotesEntered | components/clinical/bundle-preview.tsx:113-119 | a Condition built from an added diagnosis has a note exactly when the notes box held something other than white space |
| ClinicalPage.PatientSelect | app/clinical/page.tsx:29-34 | selecting nobody empties the diagnosis list; selecting a patient keeps it |
| ClinicalPage.DiagnosisAdd | app/clinical/page.tsx:36-38 | the diagnosis is appended and nothing else changes |
| ClinicalPage.RemoveIndex | app/clinical/page.tsx:41 | an in-range index deletes exactly that element keeping order; an out-of-range index changes nothing |
| ClinicalPage.DiagnosisRemove | app/clinical/page.tsx:40-42 | removal by index on the page, nothing else changing |
| ClinicalPage.BeginSubmit | app/clinical/page.tsx:45-46 | submitting starts and the previous result is cleared |
| ClinicalPage.CompleteSubmit | app/clinical/page.tsx:53-56 | a success whose message is the fixed prefix followed by the bundle id, submitting ended |
| ClinicalPage.ResetAfterSubmit | app/clinical/page.tsx:59-63 | patient, diagnoses and result are cleared |
| ClinicalPage.AddThenRemoveLast | app/clinical/page.tsx:36-42 | removing what was just appended restores the page; out-of-range removals do nothing |
| ClinicalPage.RemoveIsOneDeletion | app/clinical/page.tsx:41 | removal takes out exactly one copy of the indexed diagnosis |
| ClinicalPage.SubmittedMessageNamesBundle | app/clinical/page.tsx:55 | the success message contains the bundle id |
| ClinicalPage.SubmissionCycleResets | app/clinical/page.tsx:44-63 | begin, complete and reset return the page to its initial state |
| PatientSelector.FilterPatients | components/clinical/patient-selector.tsx:64-68 | a patient is kept exactly when it matches, and only patients from the list are kept |
| PatientSelector.FilterDistributes | components/clinical/patient-selector.tsx:64-68 | filtering distributes over concatenation, so order is kept |
| PatientSelector.EmptyTermKeepsAll | components/clinical/patient-selector.tsx:64-68 | an empty term keeps every patient |
| PatientSelector.TermCaseIgnored | components/clinical/patient-selector.tsx:66-67 | a term and its lower-cased form find the same patients |
| PatientSelector.FilterSameMatches | components/clinical/patient-selector.tsx:64-68 | terms that match the same patients filter alike |
| PatientSelector.DigitRulesOut | components/clinical/patient-selector.tsx:66-67 | a digit of the term found in neither the name nor the MRN rules the patient out |
| PatientSelector.FilterMiddleOfThree | components/clinical/patient-selector.tsx:64-68 | scenario step for MrnSearchFindsOne: of three patients with only the middle one matching, exactly that one is kept |
| PatientSelector.MrnMatchesItself | components/clinical/patient-selector.tsx:67 | a patient's lower-cased MRN finds that patient |
| PatientSelector.MrnSearchFindsOne | components/clinical/patient-selector.tsx:27-68 | scenario over the mock list: searching "mrn002" finds exactly Priya Sharma |
| PatientSelector.HandleNewPatient | components/clinical/patient-selector.tsx:74-87 | any empty box does nothing; otherwise a patient "P<now>" with the entered name, gender, MRN and parsed age, and an empty hidden form |
| PatientSelector.ToggleForm | components/clinical/patient-selector.tsx:97 | only the form's visibility flips |
| PatientSelector.NewPatientCreated | components/clinical/patient-selector.tsx:74-87 | a filled form with a numeric age creates a patient whose id starts with P and whose age is that number |
| SearchInput.SetQuery | components/search/search-input.tsx:124 | only the query changes |
| SearchInput.SearchStart | components/search/search-input.tsx:36-50 | a query under two characters empties and hides the list with no request; otherwise loading starts, the error clears and `$expand` is asked for ten matches |
| SearchInput.SearchSucceeded | components/search/search-input.tsx:52-55 | the results are the expansion's concepts or none, shown, with nothing highlighted |
| SearchInput.SearchFailed | components/search/search-input.tsx:56-61 | the error is the message or "Search failed"; the list is emptied and hidden |
| SearchInput.Focus | components/search/search-input.tsx:126 | focus re-opens a held list only for a query of two or more characters |
| SearchInput.Select | components/search/search-input.tsx:93-98 | the query becomes the concept's display, the list hides, the highlight drops, and the concept is handed on |
| SearchInput.Clear | components/search/search-input.tsx:100-106 | query and results emptied, list hidden, highlight dropped |
| SearchInput.KeyDown | components/search/search-input.tsx:68-91 | nothing happens on a hidden or empty list; on a shown list Down steps the highlight forward unless it is on the last entry, Up steps it back unless it is at the first entry or at none, Enter on a highlighted entry selects exactly that entry (and nothing else selects), Escape hides the list and drops the highlight, and other keys do nothing |
| SearchInput.ValidPreserved | components/search/search-input.tsx:34-106 | every handler keeps the highlight within -1 and the last index |
| SearchInput.GateDecidesRequest | components/search/search-input.tsx:36-50 | a request is made exactly for queries of two or more characters, and it filters by the query |
| SearchInput.NavigationIsBounded | components/search/search-input.tsx:72-79 | Down stops at the last entry, Up stops at the first (or at none), and Up undoes Down inside the list |
| SearchInput.DownThenEnterSelects | components/search/search-input.tsx:72-84 | Down then Enter selects the next entry |
| SearchFilters.Without | components/search/search-filters.tsx:33 | removal keeps exactly the other ids |
| SearchFilters.SystemChange | components/search/search-filters.tsx:32-38 | checking appends the id, even again; unchecking removes every copy; the same value is stored and reported |
| SearchFilters.DefinitionChange | components/search/search-filters.tsx:40-44 | only the flag changes, stored and reported alike |
| SearchFilters.ClearFilters | components/search/search-filters.tsx:46-50 | no systems and no flag, stored and reported alike |
| SearchFilters.WithoutDistributes | components/search/search-filters.tsx:33 | removal distributes over concatenation, so the rest keep their order |
| SearchFilters.WithoutAbsent | components/search/search-filters.tsx:33 | removing an id that is not listed changes nothing |
| SearchFilters.CheckThenUncheck | components/search/search-filters.tsx:32-38 | checking then unchecking an unchecked box restores the filters |
| SearchFilters.OtherBoxesUnchanged | components/search/search-filters.tsx:33 | a change to one box leaves every other box as it was |
| SearchFilters.ClearDeactivates | components/search/search-filters.tsx:46-52 | filters are active exactly when not empty, and none are active after clearing |
| SearchPage.HandleSearch | app/search/page.tsx:19-22 | the chosen concept becomes the only result |
| SearchPage.FiltersChange | app/search/page.tsx:54-58 | the filters are stored and the results are left as they were |
| SearchPage.Quoted | app/search/page.tsx:42 | the field between two quote characters, unchanged inside |
| SearchPage.ResultRow | app/search/page.tsx:40 | code, display, system, then the definition or "" |
| SearchPage.CsvRows | app/search/page.tsx:38-41 | the header row, then one row per result in order |
| SearchPage.ExportCsv | app/search/page.tsx:36-43 | the export is never empty and ends with the closing quote of its last field, so it has no trailing newline |
| SearchPage.UnquoteQuoted | app/search/page.tsx:42 | unquoting undoes quoting |
| SearchPage.LineRoundTrip | app/search/page.tsx:42 | a line reads back as its fields when none holds a comma or newline |
| SearchPage.ExportRoundTrip | app/search/page.tsx:36-43 | the export reads back as the header plus one row per result, so it has exactly n + 1 lines |
| SearchPage.ExportStartsWithHeader | app/search/page.tsx:39 | the export always begins with the quoted header line |
| SearchPage.ExportIsAmbiguous | app/search/page.tsx:42 | a code holding `","` exports to the same line as a different result |
| SearchPage.ViewDetailsLink | app/search/page.tsx:24-27 | the details link goes to /lookup with two parameters, whose system and code read back as the result's |
| SearchPage.TranslateLink | app/search/page.tsx:29-34 | the translate link goes to /translate with three parameters, whose system, code and display read back as the result's, and it carries no definition |
| SearchPage.GetParam | app/translate/page.tsx:26-28 | a value is found exactly when the name is present, and it is the value of the first pair with that name |
| SearchPage.DetailsLinkLooksUp | app/search/page.tsx:24-27 | following "view details" looks up exactly the result's system and code, unless either is empty |
| SearchPage.TranslateLinkPrefills | app/search/page.tsx:29-34 | following "translate" pre-fills the result without its definition, exactly when system, code and display are non-empty |
| CodeLookupForm.Submit | components/lookup/code-lookup-form.tsx:47-62 | no system is reported before a blank code; a lookup is sent exactly when both are usable, with the trimmed code and a cleared error |
| CodeLookupForm.QuickLookup | components/lookup/code-lookup-form.tsx:64-68 | both fields are set and the pair is sent without validation |
| CodeLookupForm.ButtonAgreesWithValidation | components/lookup/code-lookup-form.tsx:115 | an enabled button always submits; a disabled one (not loading) always reports an error |
| CodeLookupForm.BlankCodeRejected | components/lookup/code-lookup-form.tsx:56-61 | with a system chosen, a code made only of whitespace is rejected with the blank-code message |
| CodeLookupForm.SentCodeIsTrimmed | components/lookup/code-lookup-form.tsx:56-61 | a sent code is non-empty and neither starts nor ends with whitespace |
| CodeLookupForm.SubmitTwiceSame | components/lookup/code-lookup-form.tsx:47-62 | submitting the same fields twice gives the same outcome |
| CodeLookupForm.OptionLabels | components/lookup/code-lookup-form.tsx:19-40 | the Ayurveda option is labelled Ayurveda, the two ICD-11 options "Unknown" |
| LookupPage.MockData | app/lookup/page.tsx:80-121 | a table row exists exactly for AY001, SI045 and UN123 |
| LookupPage.KnownCodesAreRows | app/lookup/page.tsx:80-142 | the codes the validation accepts are exactly the rows of the details table |
| LookupPage.CreateMockCodeDetails | app/lookup/page.tsx:77-139 | the table's display or "<label> Code <code>"; definition exactly for table rows; empty lists otherwise; always active and valid |
| LookupPage.CreateMockValidationResult | app/lookup/page.tsx:141-167 | valid exactly for the three known codes; no issues and a display exactly when valid |
| LookupPage.BeginLookup | app/lookup/page.tsx:36-39 | loading, with details, validation and error cleared |
| LookupPage.CompleteLookup | app/lookup/page.tsx:43-67 | each fulfilled call fills its panel, a rejected one leaves it; the error is set only when both were rejected |
| LookupPage.UrlLookup | app/lookup/page.tsx:26-33 | a lookup starts exactly when both parameters are non-empty, with those values |
| LookupPage.LookupJoin | app/lookup/page.tsx:35-68 | after a lookup the error shows iff both calls failed, and each panel shows iff its own call succeeded |
| LookupPage.DisplaysAgree | app/lookup/page.tsx:126-148 | for known codes the two panels show the same display; an unknown code's display is non-empty |
| LookupPage.KnownDisplays | app/lookup/page.tsx:81-126 | scenario, the table's rows as CreateMockCodeDetails shows them: the displays of the three known codes |
| LookupPage.UnknownCodeContradiction | app/lookup/page.tsx:134-145 | for an unknown code the details say valid while the validation says not valid |
| TranslatePage.Prefill | app/translate/page.tsx:25-37 | the concept is pre-filled exactly when system, code and display are all present, and nothing else changes |
| TranslatePage.BeginTranslate | app/translate/page.tsx:39-49 | loading, with result and error cleared, and a `$translate` request for the concept against the NAMASTE-to-ICD-11 map |
| TranslatePage.TranslateSucceeded | app/translate/page.tsx:51-54 | the result is the parsed one with `originalCode` replaced by the translated concept |
| TranslatePage.TranslateFailed | app/translate/page.tsx:55-56 | the error is the message or "Translation failed"; the result is left as it was |
| TranslatePage.SelectFromHistory | app/translate/page.tsx:68-71 | both the concept and the result come from the history entry |
| TranslatePage.PrefillIff | app/translate/page.tsx:30-36 | pre-filling happens iff all three parameters are present, with their values |
| TranslatePage.SuccessfulTranslation | app/translate/page.tsx:39-60 | a successful round shows no error and a result about the asked concept carrying the server's codes, verdict and message |
| TranslatePage.FailedTranslation | app/translate/page.tsx:39-60 | a failed round shows no result and the error message |
| TranslatePage.HistoryThenTranslate | app/translate/page.tsx:39-71 | translating an entry re-opened from the history asks about that entry's original code |

## Left out

- I/O and platform calls are not modelled: `fetch`, `AbortSignal.timeout`, `localStorage`, `Blob` and object URLs, `router.push`, `console` and the clipboard. Server replies and clocks are parameters, and the browser store is a `map`.
- Percent-encoding (`URLSearchParams`, `encodeURIComponent`) is out of scope. Links are modelled as their decoded query pairs, assuming decoding inverts encoding.
- ISO date formatting and the date string of the birth date are not modelled. The model keeps the birth instant in milliseconds and models only the range check of `toISOString`.
- `generateBundle` reads `Date.now()` twice. The model uses a single `now` for both reads.
- Concurrency and timers are not modelled:
  - the 300 ms debounce (its hook is not part of this model);
  - the 2-second and 3-second delays of the submission;
  - the `Promise.allSettled` scheduling, of which only the two-outcome join is kept.
- The age box's `Number.parseInt` is called without a radix, so a value such as "0x1F" would be read as hexadecimal. The model reads every `parseInt` in radix 10, which gives 0 for that value.
- JavaScript numbers are unbounded integers here. Scores are `real`. Floating-point rounding in `expiresIn * 1000` and `age * 365 * 24 * 60 * 60 * 1000` is not modelled.
- Case mapping is ASCII-only. String lengths count characters, not UTF-16 units.
- The mock tables are looked up by plain equality. Prototype keys such as "constructor" are not modelled.
- The `catch` branch of `handleBundleSubmit` is not modelled. Nothing in its `try` can throw.
- The `translating` flag of the diagnosis entry is not modelled. It disables "Auto-translate" while a translation runs, and the mock translation finishes at once, so `DiagnosisEntry.Enabled` leaves it out.
- `handleTranslate` of the lookup page is not modelled. It is the same link as the search page's `TranslateLink`.
- The following are presentation only and not modelled:
  - `handleSaveMapping`;
  - `handleDownload`;
  - `handlePatientSelect` of the selector;
  - badge colours;
  - the JSON preview toggle;
  - the components that only render.
- CodeLookupForm.OptionLabels: states the labels of the Ayurveda and the two ICD-11 options only, not those of the Siddha and Unani options.
- `getToken`, `isAuthenticated` and `canGenerateBundle` are plain predicates. They are stated through the lemmas that use them rather than through rows of their own.
