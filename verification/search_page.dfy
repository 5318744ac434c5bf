/** The search page of app/search/page.tsx: the result list fed by the
    search box, the CSV export of that list, and the links that carry a
    result to the lookup and translation pages. The download itself (a
    `Blob` behind a temporary object URL) is left out; `ExportCsv` is the
    text that would be downloaded. */
module SearchPage {
  import opened Base
  import opened Text
  import opened Types
  import SearchFilters
  import LookupPage
  import TranslatePage

  datatype Page = Page(results: seq<Concept>, loading: bool, filters: SearchFilters.Filters)

  const InitialPage := Page([], false, SearchFilters.NoFilters)

  /** `handleSearch`: the chosen concept becomes the whole result list. */
  function HandleSearch(p: Page, concept: Concept): (r: Page)
    ensures |r.results| == 1 && r.results[0] == concept
    ensures r.loading == p.loading && r.filters == p.filters
  {
    p.(results := [concept])
  }

  /** `handleFiltersChange`: the filters are stored; the results are not
      searched again. */
  function FiltersChange(p: Page, f: SearchFilters.Filters): (r: Page)
    ensures r.filters == f && r.results == p.results && r.loading == p.loading
  {
    p.(filters := f)
  }

  /** The export button is offered only while there are results. */
  predicate ExportOffered(p: Page) {
    |p.results| > 0
  }

  // ---------------------------------------------------------------------
  // CSV export
  // ---------------------------------------------------------------------

  const CsvHeader := ["Code", "Display", "System", "Definition"]

  /** A field between double quotes; quotes inside the field are not doubled. */
  function Quoted(field: string): (r: string)
    ensures |r| == |field| + 2 && r[0] == '"' && r[|r| - 1] == '"' && r[1..|r| - 1] == field
  {
    ['"'] + field + ['"']
  }

  function QuoteFields(fields: seq<string>): (r: seq<string>)
    ensures |r| == |fields| && forall k :: 0 <= k < |r| ==> r[k] == Quoted(fields[k])
  {
    seq(|fields|, k requires 0 <= k < |fields| => Quoted(fields[k]))
  }

  /** One CSV line: the quoted fields joined by commas. */
  function CsvLine(fields: seq<string>): string {
    Join(QuoteFields(fields), ',')
  }

  /** The row of one result: code, display, system, and the definition or
      the empty string when it is missing or empty. */
  function ResultRow(c: Concept): (row: seq<string>)
    ensures |row| == 4 && row[0] == c.code && row[1] == c.display && row[2] == c.system
    ensures row[3] == c.definition.GetOr("")
  {
    [c.code, c.display, c.system,
     if c.definition.Some? && c.definition.value != "" then c.definition.value else ""]
  }

  /** The header row followed by one row per result, in result order. */
  function CsvRows(results: seq<Concept>): (rows: seq<seq<string>>)
    ensures |rows| == |results| + 1 && rows[0] == CsvHeader
    ensures forall k :: 0 <= k < |results| ==> rows[k + 1] == ResultRow(results[k])
  {
    [CsvHeader] + seq(|results|, k requires 0 <= k < |results| => ResultRow(results[k]))
  }

  /** `handleExport`'s text: the lines of the rows joined by "\n". There is
      no trailing newline: the text ends with the closing quote of the last
      field. */
  function ExportCsv(results: seq<Concept>): (text: string)
    ensures |text| > 0 && text[|text| - 1] == '"'
  {
    var rows := CsvRows(results);
    var lines := seq(|rows|, k requires 0 <= k < |rows| => CsvLine(rows[k]));
    LineEndsWithQuote(rows[|rows| - 1]);
    JoinEndsWithLast(lines, '\n');
    Join(lines, '\n')
  }

  /** A line of at least one field ends with the closing quote of its last field. */
  lemma LineEndsWithQuote(fields: seq<string>)
    requires |fields| > 0
    ensures var line := CsvLine(fields); |line| > 0 && line[|line| - 1] == '"'
  {
    var q := QuoteFields(fields);
    JoinEndsWithLast(q, ',');
  }

  /** A naive reader of that text: split into lines at "\n", each line into
      fields at ",", and drop one pair of surrounding quotes from each field. */
  function Unquote(s: string): (r: string)
    ensures |s| >= 2 && s[0] == '"' && s[|s| - 1] == '"' ==> r == s[1..|s| - 1]
  {
    if |s| >= 2 && s[0] == '"' && s[|s| - 1] == '"' then s[1..|s| - 1] else s
  }

  function ReadLine(line: string): (r: seq<string>)
    ensures |r| == |Split(line, ',')|
  {
    var pieces := Split(line, ',');
    seq(|pieces|, k requires 0 <= k < |pieces| => Unquote(pieces[k]))
  }

  function ReadCsv(text: string): (r: seq<seq<string>>)
    ensures |r| == |Split(text, '\n')|
  {
    var lines := Split(text, '\n');
    seq(|lines|, k requires 0 <= k < |lines| => ReadLine(lines[k]))
  }

  /** A field the naive reader can take back: no comma and no newline. */
  predicate CleanField(f: string) {
    ',' !in f && '\n' !in f
  }

  predicate CleanConcept(c: Concept) {
    CleanField(c.code) && CleanField(c.display) && CleanField(c.system)
    && (c.definition.Some? ==> CleanField(c.definition.value))
  }

  // ---------------------------------------------------------------------
  // Properties of the export
  // ---------------------------------------------------------------------

  /** Unquoting undoes quoting. */
  lemma UnquoteQuoted(field: string)
    ensures Unquote(Quoted(field)) == field
  {
  }

  /** Quoting adds only quote characters. */
  lemma QuotedAvoids(field: string, c: char)
    requires c != '"' && c !in field
    ensures c !in Quoted(field)
  {
    var q := Quoted(field);
    forall i | 0 <= i < |q| ensures q[i] != c {
      if 0 < i < |q| - 1 {
        assert q[i] == q[1..|q| - 1][i - 1] == field[i - 1];
      }
    }
  }

  /** One line reads back as its fields when no field holds a comma or a
      newline; such a line holds no newline itself. */
  lemma LineRoundTrip(fields: seq<string>)
    requires |fields| >= 1
    requires forall k :: 0 <= k < |fields| ==> CleanField(fields[k])
    ensures '\n' !in CsvLine(fields)
    ensures ReadLine(CsvLine(fields)) == fields
  {
    var q := QuoteFields(fields);
    forall k | 0 <= k < |q| ensures ',' !in q[k] && '\n' !in q[k] {
      QuotedAvoids(fields[k], ',');
      QuotedAvoids(fields[k], '\n');
    }
    CharNotInJoin(q, ',', '\n');
    SplitJoin(q, ',');
    var r := ReadLine(CsvLine(fields));
    forall k | 0 <= k < |fields| ensures r[k] == fields[k] {
      UnquoteQuoted(fields[k]);
    }
  }

  lemma HeaderIsClean()
    ensures forall k :: 0 <= k < |CsvHeader| ==> CleanField(CsvHeader[k])
  {
    assert CleanField("Code") && CleanField("Display");
    assert CleanField("System") && CleanField("Definition");
  }

  /** The export reads back as the header and one row per result, in order,
      when no field holds a comma or a newline; so it has exactly one line
      more than there are results. */
  lemma ExportRoundTrip(results: seq<Concept>)
    requires forall k :: 0 <= k < |results| ==> CleanConcept(results[k])
    ensures ReadCsv(ExportCsv(results)) == CsvRows(results)
    ensures |Split(ExportCsv(results), '\n')| == |results| + 1
  {
    var rows := CsvRows(results);
    var lines := seq(|rows|, k requires 0 <= k < |rows| => CsvLine(rows[k]));
    HeaderIsClean();
    forall k | 0 <= k < |rows| ensures '\n' !in lines[k] && ReadLine(lines[k]) == rows[k] {
      if k > 0 {
        assert rows[k] == ResultRow(results[k - 1]);
      }
      LineRoundTrip(rows[k]);
    }
    SplitJoin(lines, '\n');
  }

  /** The first line of the export is always the quoted header. */
  lemma ExportStartsWithHeader(results: seq<Concept>)
    ensures var t := ExportCsv(results);
            |t| >= |CsvLine(CsvHeader)| && t[..|CsvLine(CsvHeader)|] == CsvLine(CsvHeader)
  {
    var rows := CsvRows(results);
    var lines := seq(|rows|, k requires 0 <= k < |rows| => CsvLine(rows[k]));
    assert lines[0] == CsvLine(CsvHeader);
    if |lines| > 1 {
      assert ExportCsv(results) == lines[0] + ['\n'] + Join(lines[1..], '\n');
    }
  }

  lemma JoinOfFour(parts: seq<string>, sep: char)
    requires |parts| == 4
    ensures Join(parts, sep) == parts[0] + [sep] + parts[1] + [sep] + parts[2] + [sep] + parts[3]
  {
    var rest := parts[1..];
    assert rest[1..] == parts[2..] && parts[2..][1..] == [parts[3]];
    assert Join(parts[2..], sep) == parts[2] + [sep] + parts[3];
    assert Join(rest, sep) == parts[1] + [sep] + Join(parts[2..], sep);
  }

  /** A four-field line splits after its second field. */
  lemma LineOfFour(a: string, b: string, c: string, d: string)
    ensures CsvLine([a, b, c, d]) == (Quoted(a) + [','] + Quoted(b)) + ([','] + Quoted(c) + [','] + Quoted(d))
  {
    var q := QuoteFields([a, b, c, d]);
    assert q == [Quoted(a), Quoted(b), Quoted(c), Quoted(d)];
    JoinOfFour(q, ',');
  }

  /** Two quoted fields side by side read as one field holding `","`. */
  lemma QuotedPair(a: string, b: string)
    ensures Quoted(a) + [','] + Quoted(b) == ['"'] + a + ['"', ',', '"'] + b + ['"']
  {
  }

  /** Where the `","` sits does not change the pair of quoted fields. */
  lemma PairsCoincide(x: string, y: string, z: string)
    ensures var sep := ['"', ',', '"'];
            Quoted(x + sep + y) + [','] + Quoted(z) == Quoted(x) + [','] + Quoted(y + sep + z)
  {
    var sep := ['"', ',', '"'];
    QuotedPair(x + sep + y, z);
    QuotedPair(x, y + sep + z);
    assert ['"'] + (x + sep + y) + sep + z + ['"'] == ['"'] + x + sep + (y + sep + z) + ['"'];
  }

  /** Because embedded quotes are not doubled (section 2, rule 7 of RFC 4180
      asks for that), two different results can export to the same line: a
      code holding `","` reads like two fields. */
  lemma ExportIsAmbiguous(x: string, y: string, z: string, w: string)
    ensures var sep := ['"', ',', '"'];
            var c1 := Concept(w, x + sep + y, z, None);
            var c2 := Concept(w, x, y + sep + z, None);
            c1 != c2 && CsvLine(ResultRow(c1)) == CsvLine(ResultRow(c2))
  {
    var sep := ['"', ',', '"'];
    var c1 := Concept(w, x + sep + y, z, None);
    var c2 := Concept(w, x, y + sep + z, None);
    assert |c1.code| != |c2.code|;
    assert ResultRow(c1) == [x + sep + y, z, w, ""];
    assert ResultRow(c2) == [x, y + sep + z, w, ""];
    LineOfFour(x + sep + y, z, w, "");
    LineOfFour(x, y + sep + z, w, "");
    PairsCoincide(x, y, z);
  }

  // ---------------------------------------------------------------------
  // Links to the other pages
  // ---------------------------------------------------------------------

  /** A navigation target: a path and its query parameters, before
      percent-encoding. */
  datatype Link = Link(path: string, query: seq<(string, string)>)

  /** `handleViewDetails`. */
  function ViewDetailsLink(c: Concept): (l: Link)
    ensures l.path == "/lookup" && |l.query| == 2
    ensures GetParam(l.query, "system") == Some(c.system) && GetParam(l.query, "code") == Some(c.code)
  {
    assert "code" != "system";
    Link("/lookup", [("system", c.system), ("code", c.code)])
  }

  /** `handleTranslate`: the definition is not carried over. */
  function TranslateLink(c: Concept): (l: Link)
    ensures l.path == "/translate" && |l.query| == 3
    ensures GetParam(l.query, "system") == Some(c.system) && GetParam(l.query, "code") == Some(c.code)
    ensures GetParam(l.query, "display") == Some(c.display) && GetParam(l.query, "definition").None?
  {
    var q := [("system", c.system), ("code", c.code), ("display", c.display)];
    assert q[1..][1..][0].0 == "display" && "display" != "code" && "display" != "system";
    assert "code" != "system";
    assert forall k :: 0 <= k < |q| ==> q[k].0 != "definition";
    Link("/translate", [("system", c.system), ("code", c.code), ("display", c.display)])
  }

  /** `searchParams.get(name)`: the first value under the name, if any. */
  function GetParam(query: seq<(string, string)>, name: string): (r: Option<string>)
    ensures r.Some? <==> exists k :: 0 <= k < |query| && query[k].0 == name
    ensures r.Some? ==> exists k :: 0 <= k < |query| && query[k] == (name, r.value)
                          && forall j :: 0 <= j < k ==> query[j].0 != name
    decreases |query|
  {
    if |query| == 0 then None
    else if query[0].0 == name then Some(query[0].1)
    else
      var r := GetParam(query[1..], name);
      assert r.Some? ==> query[1..][0].0 == query[1].0;
      r
  }

  /** Following "view details" starts a lookup of exactly the result's system
      and code, unless one of them is empty. */
  lemma DetailsLinkLooksUp(c: Concept)
    ensures var q := ViewDetailsLink(c).query;
            LookupPage.UrlLookup(GetParam(q, "system"), GetParam(q, "code"))
              == if c.system != "" && c.code != "" then Some((c.system, c.code)) else None
  {
    var q := ViewDetailsLink(c).query;
    assert GetParam(q, "system") == Some(c.system);
    assert GetParam(q, "code") == Some(c.code);
  }

  /** Following "translate" pre-fills the translation page with the result,
      minus its definition, exactly when system, code and display are all
      non-empty. */
  lemma TranslateLinkPrefills(c: Concept, p: TranslatePage.Page)
    ensures var q := TranslateLink(c).query;
            var r := TranslatePage.Prefill(p, GetParam(q, "system"), GetParam(q, "code"), GetParam(q, "display"));
            && (c.system != "" && c.code != "" && c.display != "" ==> r.selected == Some(c.(definition := None)))
            && (c.system == "" || c.code == "" || c.display == "" ==> r == p)
  {
    var q := TranslateLink(c).query;
    assert GetParam(q, "system") == Some(c.system);
    assert GetParam(q, "code") == Some(c.code);
    assert q[1..][1..][0].0 == "display" && "display" != "code" && "display" != "system";
    assert GetParam(q, "display") == Some(c.display);
  }
}
