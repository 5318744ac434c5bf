/** The search-as-you-type box of components/search/search-input.tsx: the
    query-length gate, the `$expand` call it issues, the result list with its
    keyboard highlight, and selection. The debounce is left to the caller:
    `SearchStart` receives the already-debounced query, and the server's
    answer arrives through `SearchSucceeded` or `SearchFailed`. */
module SearchInput {
  import opened Base
  import opened Types
  import FhirService

  const SearchValueSetUrl := "https://namaste.ayush.gov.in/fhir/ValueSet/ayush"
  const SearchCount := 10
  const MinQueryLength := 2
  const SearchFailedMessage := "Search failed"

  datatype Box = Box(
    query: string,
    results: seq<Concept>,
    loading: bool,
    showResults: bool,
    selectedIndex: int,
    error: Option<string>)

  const InitialBox := Box("", [], false, false, -1, None)

  /** The highlight is -1 (nothing) or, while there are results, one of them. */
  predicate Valid(s: Box) {
    -1 <= s.selectedIndex && (s.results == [] || s.selectedIndex < |s.results|)
  }

  /** Typing into the box. */
  function SetQuery(s: Box, text: string): (r: Box)
    ensures r.query == text && r.(query := s.query) == s
  {
    s.(query := text)
  }

  /** `searchCodes` on the debounced query: fewer than two characters empties
      and hides the list without a request; otherwise loading starts, the
      error is cleared and `$expand` is asked for ten matches of the query. */
  function SearchStart(s: Box, debounced: string): (r: (Box, Option<FhirService.Request>))
    ensures |debounced| < MinQueryLength ==>
              r.1.None? && r.0 == s.(results := [], showResults := false)
    ensures |debounced| >= MinQueryLength ==>
              && r.0 == s.(loading := true, error := None)
              && r.1 == Some(FhirService.ExpandValueSet(SearchValueSetUrl, Some(debounced), Some(SearchCount)))
  {
    if |debounced| < MinQueryLength then (s.(results := [], showResults := false), None)
    else (s.(loading := true, error := None),
          Some(FhirService.ExpandValueSet(SearchValueSetUrl, Some(debounced), Some(SearchCount))))
  }

  /** The expansion arrived: its concepts (none when it has no `contains`)
      are shown with nothing highlighted. */
  function SearchSucceeded(s: Box, response: ValueSet): (r: Box)
    ensures r.showResults && r.selectedIndex == -1 && !r.loading
    ensures response.expansion.Some? && response.expansion.value.contains.Some? ==>
              r.results == response.expansion.value.contains.value
    ensures response.expansion.None? || response.expansion.value.contains.None? ==> r.results == []
    ensures r.query == s.query && r.error == s.error
  {
    var concepts := if response.expansion.Some? then response.expansion.value.contains.GetOr([]) else [];
    s.(results := concepts, showResults := true, selectedIndex := -1, loading := false)
  }

  /** The call threw: the error's message (or "Search failed" for a thrown
      non-`Error`), and an empty, hidden list. */
  function SearchFailed(s: Box, errorMessage: Option<string>): (r: Box)
    ensures r.error == Some(errorMessage.GetOr(SearchFailedMessage))
    ensures r.results == [] && !r.showResults && !r.loading
    ensures r.query == s.query && r.selectedIndex == s.selectedIndex
  {
    s.(error := Some(errorMessage.GetOr(SearchFailedMessage)), results := [], showResults := false, loading := false)
  }

  /** Focusing the box re-opens a list it still holds for a long-enough query. */
  function Focus(s: Box): (r: Box)
    ensures (|s.query| >= MinQueryLength && |s.results| > 0) ==> r == s.(showResults := true)
    ensures !(|s.query| >= MinQueryLength && |s.results| > 0) ==> r == s
  {
    if |s.query| >= MinQueryLength && |s.results| > 0 then s.(showResults := true) else s
  }

  /** `handleSelect`: the query becomes the concept's display, the list is
      hidden and the highlight dropped; the concept goes to the parent. */
  function Select(s: Box, c: Concept): (r: (Box, Option<Concept>))
    ensures r.1 == Some(c)
    ensures r.0.query == c.display && !r.0.showResults && r.0.selectedIndex == -1
    ensures r.0.results == s.results && r.0.loading == s.loading && r.0.error == s.error
  {
    (s.(query := c.display, showResults := false, selectedIndex := -1), Some(c))
  }

  /** `clearSearch`: back to an empty box, the error aside. */
  function Clear(s: Box): (r: Box)
    ensures r.query == "" && r.results == [] && !r.showResults && r.selectedIndex == -1
    ensures r.loading == s.loading && r.error == s.error
  {
    s.(query := "", results := [], showResults := false, selectedIndex := -1)
  }

  datatype Key = ArrowDown | ArrowUp | Enter | Escape | OtherKey

  /** `handleKeyDown`: ignored unless a non-empty list is shown. Down and up
      move the highlight one step without leaving the list (up stops at the
      first entry, and from "nothing" stays there); Enter selects the
      highlighted entry if there is one; Escape hides the list. */
  function KeyDown(s: Box, key: Key): (r: (Box, Option<Concept>))
    ensures !s.showResults || |s.results| == 0 ==> r == (s, None)
    ensures r.1.Some? ==> key == Enter && 0 <= s.selectedIndex < |s.results| && r.1.value == s.results[s.selectedIndex]
    ensures r.0.results == s.results
    ensures s.showResults && |s.results| > 0 && key == ArrowDown ==>
              && r == (s.(selectedIndex := r.0.selectedIndex), None)
              && (s.selectedIndex < |s.results| - 1 ==> r.0.selectedIndex == s.selectedIndex + 1)
              && (s.selectedIndex >= |s.results| - 1 ==> r.0.selectedIndex == s.selectedIndex)
    ensures s.showResults && |s.results| > 0 && key == ArrowUp ==>
              && r == (s.(selectedIndex := r.0.selectedIndex), None)
              && (s.selectedIndex > 0 ==> r.0.selectedIndex == s.selectedIndex - 1)
              && (s.selectedIndex <= 0 ==> r.0.selectedIndex == s.selectedIndex)
    ensures s.showResults && |s.results| > 0 && key == Enter && 0 <= s.selectedIndex < |s.results| ==>
              r == Select(s, s.results[s.selectedIndex])
    ensures s.showResults && |s.results| > 0 && key == Escape ==>
              r == (s.(showResults := false, selectedIndex := -1), None)
    ensures key == OtherKey ==> r == (s, None)
  {
    if !s.showResults || |s.results| == 0 then (s, None)
    else match key
      case ArrowDown =>
        (s.(selectedIndex := if s.selectedIndex < |s.results| - 1 then s.selectedIndex + 1 else s.selectedIndex), None)
      case ArrowUp =>
        (s.(selectedIndex := if s.selectedIndex > 0 then s.selectedIndex - 1 else s.selectedIndex), None)
      case Enter =>
        if 0 <= s.selectedIndex < |s.results| then Select(s, s.results[s.selectedIndex]) else (s, None)
      case Escape => (s.(showResults := false, selectedIndex := -1), None)
      case OtherKey => (s, None)
  }

  // ---------------------------------------------------------------------
  // Properties across handlers
  // ---------------------------------------------------------------------

  /** Every handler keeps the highlight within `[-1, |results| - 1]`. */
  lemma ValidPreserved(s: Box, text: string, debounced: string, response: ValueSet,
                       errorMessage: Option<string>, c: Concept, key: Key)
    requires Valid(s)
    ensures Valid(InitialBox)
    ensures Valid(SetQuery(s, text)) && Valid(SearchStart(s, debounced).0)
    ensures Valid(SearchSucceeded(s, response)) && Valid(SearchFailed(s, errorMessage))
    ensures Valid(Focus(s)) && Valid(Select(s, c).0) && Valid(Clear(s))
    ensures Valid(KeyDown(s, key).0)
  {
  }

  /** Only queries of two characters or more reach the server, and what they
      send is the query itself as the `filter`, with `count` 10. */
  lemma GateDecidesRequest(s: Box, debounced: string)
    ensures SearchStart(s, debounced).1.Some? <==> |debounced| >= MinQueryLength
    ensures var req := SearchStart(s, debounced).1;
            req.Some? ==> |req.value.query| == 3 && req.value.query[2] == FhirService.QueryParam("filter", debounced)
  {
  }

  /** The highlight stops at both ends: Down from the last entry stays there,
      Up from the first stays there, and inside the list Up undoes Down. */
  lemma NavigationIsBounded(s: Box)
    requires s.showResults && |s.results| > 0 && Valid(s)
    ensures s.selectedIndex == |s.results| - 1 ==> KeyDown(s, ArrowDown).0 == s
    ensures s.selectedIndex <= 0 ==> KeyDown(s, ArrowUp).0 == s
    ensures 0 <= s.selectedIndex < |s.results| - 1 ==>
              KeyDown(KeyDown(s, ArrowDown).0, ArrowUp).0 == s
  {
  }

  /** Highlight then Enter: Down from the entry before position `n` (from
      "nothing" when `n` is 0) highlights `n`, and Enter then selects it. */
  lemma DownThenEnterSelects(s: Box, n: nat)
    requires s.showResults && s.selectedIndex == n - 1 && n < |s.results|
    ensures var moved := KeyDown(s, ArrowDown).0;
            moved.selectedIndex == n && KeyDown(moved, Enter).1 == Some(s.results[n])
  {
  }
}
