/** The terminology client of services/fhir.service.ts: the request each
    operation builds, the outcome policy shared by every call (`makeRequest`),
    the `$translate` response normaliser and the code-system labeller.
    The network is a parameter: `MakeRequest` receives the server's reply. */
module FhirService {
  import opened Base
  import opened Text
  import opened Types
  import Auth = AuthService

  // ---------------------------------------------------------------------
  // Requests
  // ---------------------------------------------------------------------

  /** The per-request timeout handed to the fetch layer, in milliseconds. */
  const ApiTimeoutMs := 10000
  const DefaultExpandCount := 10

  const ExpandPath := "/fhir/ValueSet/$expand"
  const TranslatePath := "/fhir/ConceptMap/$translate"
  const LookupPath := "/fhir/CodeSystem/$lookup"
  const ValidatePath := "/fhir/CodeSystem/$validate-code"
  const BundlePath := "/fhir/Bundle"

  datatype QueryParam = QueryParam(name: string, value: string)
  datatype Body = ParametersBody(parameters: Parameters) | BundleBody(bundle: Bundle)

  /** What an operation asks the server for: a GET with query parameters in
      insertion order, or a POST with a JSON body. */
  datatype Request = Get(path: string, query: seq<QueryParam>) | Post(path: string, body: Body)

  /** `expandValueSet(url, filter?, count = 10)`: `url` and `count` always,
      `filter` appended only when it is a non-empty string. */
  function ExpandValueSet(url: string, filter: Option<string>, count: Option<int>): (r: Request)
    ensures r.Get? && r.path == ExpandPath
    ensures 2 <= |r.query| <= 3
    ensures r.query[0] == QueryParam("url", url)
    ensures r.query[1].name == "count" && ParseInt(r.query[1].value) == Some(count.GetOr(DefaultExpandCount))
    ensures |r.query| == 3 <==> filter.Some? && filter.value != ""
    ensures |r.query| == 3 ==> r.query[2] == QueryParam("filter", filter.value)
  {
    var n := count.GetOr(DefaultExpandCount);
    ParseIntOfIntToString(n);
    var base := [QueryParam("url", url), QueryParam("count", IntToString(n))];
    Get(ExpandPath, if filter.Some? && filter.value != "" then base + [QueryParam("filter", filter.value)] else base)
  }

  /** A parameter carrying only a `valueString`. */
  function StringParameter(name: string, value: string): Parameter {
    Parameter(name, NoValues.(valueString := Some(value)), None)
  }

  /** The name of every entry, in order. */
  function ParameterNames(ps: seq<Parameter>): (names: seq<string>)
    ensures |names| == |ps| && forall k :: 0 <= k < |ps| ==> names[k] == ps[k].name
  {
    seq(|ps|, k requires 0 <= k < |ps| => ps[k].name)
  }

  /** `translateConcept`: a POST whose `Parameters` body holds exactly `url`,
      `system` and `code`, in that order, each a plain string. */
  function TranslateConcept(conceptMap: string, system: string, code: string): (r: Request)
    ensures r.Post? && r.path == TranslatePath && r.body.ParametersBody?
    ensures r.body.parameters.parameter.Some?
    ensures var ps := r.body.parameters.parameter.value;
            && ParameterNames(ps) == ["url", "system", "code"]
            && FindString(ps, "url") == Some(conceptMap)
            && FindString(ps, "system") == Some(system)
            && FindString(ps, "code") == Some(code)
            && forall k :: 0 <= k < |ps| ==> ps[k].part.None?
  {
    var ps := [StringParameter("url", conceptMap), StringParameter("system", system), StringParameter("code", code)];
    assert ParameterNames(ps) == ["url", "system", "code"];
    assert FindParameter(ps, "url") == Some(ps[0]);
    assert FindParameter(ps, "system") == Some(ps[1]);
    assert FindParameter(ps, "code") == Some(ps[2]);
    Post(TranslatePath, ParametersBody(Parameters(Some(ps))))
  }

  /** `lookupCode`: a GET carrying `system` then `code`. */
  function LookupCode(system: string, code: string): (r: Request)
    ensures r.Get? && r.path == LookupPath
    ensures r.query == [QueryParam("system", system), QueryParam("code", code)]
  {
    Get(LookupPath, [QueryParam("system", system), QueryParam("code", code)])
  }

  /** `validateCode`: a GET carrying `system` then `code`. */
  function ValidateCode(system: string, code: string): (r: Request)
    ensures r.Get? && r.path == ValidatePath
    ensures r.query == [QueryParam("system", system), QueryParam("code", code)]
  {
    Get(ValidatePath, [QueryParam("system", system), QueryParam("code", code)])
  }

  /** `uploadBundle`: the bundle itself is the POST body. */
  function UploadBundle(bundle: Bundle): (r: Request)
    ensures r.Post? && r.path == BundlePath && r.body == BundleBody(bundle)
  {
    Post(BundlePath, BundleBody(bundle))
  }

  // ---------------------------------------------------------------------
  // Outcome policy of `makeRequest`
  // ---------------------------------------------------------------------

  /** What the fetch layer produced: a response with a status, or a thrown
      error (network failure or the 10-second timeout). */
  datatype HttpReply<T> = HttpReply(status: int, statusText: string, body: T) | NetworkFailure(message: string)

  datatype RequestError = NoToken | AuthExpired | RequestFailed(statusText: string) | Transport(message: string)

  /** The `Error` message each failure carries. */
  function ErrorMessage(e: RequestError): string {
    match e
    case NoToken => "No authentication token available"
    case AuthExpired => "Authentication expired"
    case RequestFailed(t) => "API request failed: " + t
    case Transport(m) => m
  }

  /** `response.ok`: a 2xx status. */
  predicate IsOk(status: int) { 200 <= status <= 299 }

  /** The token-holder state afterwards, the `Authorization` header of the
      request if one was sent, and the call's result. */
  datatype Outcome<T> = Outcome(auth: Auth.Service, authorization: Option<string>, result: Result<T, RequestError>)

  /** `makeRequest`: no (or an empty) token fails before anything is sent; a
      401 logs out and fails as expired; any other non-2xx fails and leaves the
      token alone; a 2xx yields the body. */
  function MakeRequest<T>(auth: Auth.Service, reply: HttpReply<T>): (r: Outcome<T>)
    ensures Auth.GetToken(auth).None? || Auth.GetToken(auth) == Some("") ==>
              r == Outcome(auth, None, Failure(NoToken))
    ensures Auth.GetToken(auth).Some? && Auth.GetToken(auth) != Some("") ==>
              && r.authorization == Some("Bearer " + auth.token.value)
              && (reply.NetworkFailure? ==> r.auth == auth && r.result == Failure(Transport(reply.message)))
              && (reply.HttpReply? && IsOk(reply.status) ==> r.auth == auth && r.result == Success(reply.body))
              && (reply.HttpReply? && reply.status == 401 ==> r.auth == Auth.Logout(auth) && r.result == Failure(AuthExpired))
              && (reply.HttpReply? && !IsOk(reply.status) && reply.status != 401 ==>
                    r.auth == auth && r.result == Failure(RequestFailed(reply.statusText)))
  {
    var token := Auth.GetToken(auth);
    if token.None? || token.value == "" then
      Outcome(auth, None, Failure(NoToken))
    else
      var header := Some("Bearer " + token.value);
      match reply
      case NetworkFailure(m) => Outcome(auth, header, Failure(Transport(m)))
      case HttpReply(status, text, body) =>
        if IsOk(status) then Outcome(auth, header, Success(body))
        else if status == 401 then Outcome(Auth.Logout(auth), header, Failure(AuthExpired))
        else Outcome(auth, header, Failure(RequestFailed(text)))
  }

  /** Only a 401 changes the token holder, and once a request has gone out a
      401 leaves nobody authenticated, whatever the earlier state. */
  lemma UnauthorizedEndsSession<T>(auth: Auth.Service, reply: HttpReply<T>, now: int)
    ensures var r := MakeRequest(auth, reply);
            && (r.auth != auth ==> reply.HttpReply? && reply.status == 401)
            && (r.authorization.Some? && reply.HttpReply? && reply.status == 401 ==> !Auth.IsAuthenticated(r.auth, now))
            && (Auth.Consistent(auth) ==> Auth.Consistent(r.auth))
  {
  }

  // ---------------------------------------------------------------------
  // `parseTranslationResult`
  // ---------------------------------------------------------------------

  /** The index of the first occurrence of `name`, as `Array.prototype.find` scans. */
  function FirstIndexOf(names: seq<string>, name: string): (r: Option<nat>)
    ensures r.Some? ==> r.value < |names| && names[r.value] == name
    ensures r.Some? ==> forall j :: 0 <= j < r.value ==> names[j] != name
    ensures r.None? ==> forall j :: 0 <= j < |names| ==> names[j] != name
    decreases |names|
  {
    if |names| == 0 then None
    else if names[0] == name then Some(0)
    else match FirstIndexOf(names[1..], name)
      case Some(i) => Some(i + 1)
      case None => None
  }

  /** `params.find((p) => p.name === name)`: the first entry with that name. */
  function FindParameter(ps: seq<Parameter>, name: string): (r: Option<Parameter>)
    ensures r.Some? ==> r.value in ps && r.value.name == name
    ensures r.Some? ==> exists i :: 0 <= i < |ps| && ps[i] == r.value && forall j :: 0 <= j < i ==> ps[j].name != name
    ensures r.None? ==> forall k :: 0 <= k < |ps| ==> ps[k].name != name
  {
    match FirstIndexOf(ParameterNames(ps), name)
    case Some(i) => Some(ps[i])
    case None => None
  }

  /** The name of every part, in order. */
  function PartNames(parts: seq<Part>): (names: seq<string>)
    ensures |names| == |parts| && forall k :: 0 <= k < |parts| ==> names[k] == parts[k].name
  {
    seq(|parts|, k requires 0 <= k < |parts| => parts[k].name)
  }

  /** `parts.find((p) => p.name === name)`: the first part with that name. */
  function FindPart(parts: seq<Part>, name: string): (r: Option<Part>)
    ensures r.Some? ==> r.value in parts && r.value.name == name
    ensures r.Some? ==> exists i :: 0 <= i < |parts| && parts[i] == r.value && forall j :: 0 <= j < i ==> parts[j].name != name
    ensures r.None? ==> forall k :: 0 <= k < |parts| ==> parts[k].name != name
  {
    match FirstIndexOf(PartNames(parts), name)
    case Some(i) => Some(parts[i])
    case None => None
  }

  /** The `valueString` of the first entry named `name`, if any. */
  function FindString(ps: seq<Parameter>, name: string): Option<string> {
    match FindParameter(ps, name)
    case Some(p) => p.values.valueString
    case None => None
  }

  /** JavaScript truthiness of an optional string. */
  predicate Truthy(o: Option<string>) {
    o.Some? && o.value != ""
  }

  /** `o || fallback` on an optional string. */
  function StringOr(o: Option<string>, fallback: string): (r: string)
    ensures Truthy(o) ==> r == o.value
    ensures !Truthy(o) ==> r == fallback
  {
    if Truthy(o) then o.value else fallback
  }

  /** `params.filter((p) => p.name === "match")`. */
  function MatchParameters(ps: seq<Parameter>): (r: seq<Parameter>)
    ensures |r| <= |ps|
    ensures forall k :: 0 <= k < |r| ==> r[k].name == "match" && r[k] in ps
    decreases |ps|
  {
    if |ps| == 0 then []
    else (if ps[0].name == "match" then [ps[0]] else []) + MatchParameters(ps[1..])
  }

  /** The filter keeps the server's order: it distributes over concatenation. */
  lemma {:induction false} MatchParametersOrder(a: seq<Parameter>, b: seq<Parameter>)
    ensures MatchParameters(a + b) == MatchParameters(a) + MatchParameters(b)
    decreases |a|
  {
    if |a| > 0 {
      var head := if a[0].name == "match" then [a[0]] else [];
      assert (a + b)[0] == a[0] && (a + b)[1..] == a[1..] + b;
      assert MatchParameters(a + b) == head + MatchParameters(a[1..] + b);
      MatchParametersOrder(a[1..], b);
      assert MatchParameters(a) == head + MatchParameters(a[1..]);
    } else {
      assert a + b == b;
    }
  }

  /** A single entry is kept exactly when it is named "match". */
  lemma MatchParametersSingle(p: Parameter)
    ensures MatchParameters([p]) == (if p.name == "match" then [p] else [])
  {
    assert [p][1..] == [];
  }

  const DefaultEquivalence := "relatedto"
  const SuccessMessage := "Translation successful"
  const FailureMessage := "Translation failed"

  /** One `match` entry flattened: the first `equivalence`, `concept` and
      `score` parts are read; a missing or empty equivalence becomes
      "relatedto", a missing concept gives empty strings, and a missing or zero
      score (`valueDecimal || undefined`) becomes absent. */
  function ParseMatch(m: Parameter): (r: MappedCode)
    ensures r.equivalence != ""
    ensures var eq := FindPart(m.part.GetOr([]), "equivalence");
            r.equivalence == (if eq.Some? && Truthy(eq.value.values.valueCode) then eq.value.values.valueCode.value else DefaultEquivalence)
    ensures var c := FindPart(m.part.GetOr([]), "concept");
            if c.Some? && c.value.values.valueCoding.Some?
            then Coding(r.system, r.code, r.display) == c.value.values.valueCoding.value
            else r.system == "" && r.code == "" && r.display == ""
    ensures var sc := FindPart(m.part.GetOr([]), "score");
            forall x :: r.score == Some(x) <==> sc.Some? && sc.value.values.valueDecimal == Some(x) && x != 0.0
  {
    var parts := m.part.GetOr([]);
    var equivalencePart := FindPart(parts, "equivalence");
    var conceptPart := FindPart(parts, "concept");
    var scorePart := FindPart(parts, "score");
    var coding := if conceptPart.Some? then conceptPart.value.values.valueCoding else None;
    var score := if scorePart.Some? then scorePart.value.values.valueDecimal else None;
    MappedCode(
      // `concept?.system || ""`: an empty system is "" either way
      if coding.Some? then coding.value.system else "",
      if coding.Some? then coding.value.code else "",
      if coding.Some? then coding.value.display else "",
      StringOr(if equivalencePart.Some? then equivalencePart.value.values.valueCode else None, DefaultEquivalence),
      if score.Some? && score.value != 0.0 then score else None)
  }

  /** `parseTranslationResult`. */
  function ParseTranslationResult(parameters: Parameters): (r: TranslationResult)
    ensures var ps := parameters.parameter.GetOr([]);
            var resultParam := FindParameter(ps, "result");
            && (r.success <==> resultParam.Some? && resultParam.value.values.valueBoolean == Some(true))
            && r.message.Some?
            && (Truthy(FindString(ps, "message")) ==> r.message == FindString(ps, "message"))
            && (!Truthy(FindString(ps, "message")) ==>
                  r.message == Some(if r.success then SuccessMessage else FailureMessage))
            && |r.mappedCodes| == |MatchParameters(ps)|
            && (forall k :: 0 <= k < |r.mappedCodes| ==> r.mappedCodes[k] == ParseMatch(MatchParameters(ps)[k]))
            && r.originalCode == EmptyConcept
  {
    var ps := parameters.parameter.GetOr([]);
    var resultParam := FindParameter(ps, "result");
    var success := resultParam.Some? && resultParam.value.values.valueBoolean == Some(true);
    var message := StringOr(FindString(ps, "message"), if success then SuccessMessage else FailureMessage);
    var matches := MatchParameters(ps);
    var mapped := seq(|matches|, k requires 0 <= k < |matches| => ParseMatch(matches[k]));
    TranslationResult(success, EmptyConcept, mapped, Some(message))
  }

  /** What every parsed result looks like: a placeholder `originalCode`, a
      non-empty message, and per code a non-empty equivalence and no zero score. */
  predicate NormalForm(t: TranslationResult) {
    && t.originalCode == EmptyConcept
    && Truthy(t.message)
    && forall k :: 0 <= k < |t.mappedCodes| ==>
         t.mappedCodes[k].equivalence != "" && t.mappedCodes[k].score != Some(0.0)
  }

  /** The server-side encoding of a mapped code as a `match` entry. */
  function EncodeMatch(c: MappedCode): Parameter {
    var scorePart := if c.score.Some? then [Part("score", NoValues.(valueDecimal := c.score))] else [];
    Parameter("match", NoValues, Some(
      [ Part("equivalence", NoValues.(valueCode := Some(c.equivalence))),
        Part("concept", NoValues.(valueCoding := Some(Coding(c.system, c.code, c.display))))
      ] + scorePart))
  }

  /** The `match` entries for a list of mapped codes, in order. */
  function EncodeMatches(codes: seq<MappedCode>): (ms: seq<Parameter>)
    ensures |ms| == |codes| && forall k :: 0 <= k < |codes| ==> ms[k] == EncodeMatch(codes[k])
  {
    seq(|codes|, k requires 0 <= k < |codes| => EncodeMatch(codes[k]))
  }

  /** The leading `result` and `message` entries of a `$translate` response. */
  function EncodeHead(t: TranslationResult): seq<Parameter> {
    [ Parameter("result", NoValues.(valueBoolean := Some(t.success)), None),
      Parameter("message", NoValues.(valueString := t.message), None) ]
  }

  /** The `$translate` response a server would send for a result. */
  function EncodeTranslation(t: TranslationResult): Parameters {
    Parameters(Some(EncodeHead(t) + EncodeMatches(t.mappedCodes)))
  }

  /** Every parse lands in the normal form. */
  lemma ParsedIsNormal(p: Parameters)
    ensures NormalForm(ParseTranslationResult(p))
  {
  }

  /** A `match` entry reads back as the code it encodes. */
  lemma ParseEncodeMatch(c: MappedCode)
    requires c.equivalence != "" && c.score != Some(0.0)
    ensures ParseMatch(EncodeMatch(c)) == c
  {
    var parts := EncodeMatch(c).part.value;
    assert FindPart(parts, "equivalence") == Some(parts[0]);
    assert FindPart(parts, "concept") == Some(parts[1]);
    if c.score.Some? {
      assert FindPart(parts, "score") == Some(parts[2]);
    } else {
      assert |parts| == 2;
    }
  }

  /** A sequence of `match` entries is kept whole by the filter. */
  lemma {:induction false} AllMatchesKept(ms: seq<Parameter>)
    requires forall k :: 0 <= k < |ms| ==> ms[k].name == "match"
    ensures MatchParameters(ms) == ms
    decreases |ms|
  {
    if |ms| > 0 {
      AllMatchesKept(ms[1..]);
      assert [ms[0]] + ms[1..] == ms;
    }
  }

  /** The encoded response leads with `result` and then `message`. */
  lemma EncodedTranslationHead(t: TranslationResult)
    ensures var ps := EncodeTranslation(t).parameter.value;
            && |ps| == 2 + |t.mappedCodes|
            && FindParameter(ps, "result") == Some(ps[0])
            && FindParameter(ps, "message") == Some(ps[1])
  {
    var ps := EncodeTranslation(t).parameter.value;
    var names := ParameterNames(ps);
    assert names[0] == "result" && names[1] == "message";
  }

  /** The filter keeps exactly the encoded matches that follow the head. */
  lemma EncodedTranslationMatches(t: TranslationResult)
    ensures MatchParameters(EncodeTranslation(t).parameter.value) == EncodeMatches(t.mappedCodes)
  {
    var head := EncodeHead(t);
    var matches := EncodeMatches(t.mappedCodes);
    assert EncodeTranslation(t).parameter.value == head + matches;
    MatchParametersOrder(head, matches);
    assert head == [head[0]] + [head[1]];
    MatchParametersOrder([head[0]], [head[1]]);
    MatchParametersSingle(head[0]);
    MatchParametersSingle(head[1]);
    assert MatchParameters(head) == [];
    AllMatchesKept(matches);
  }

  /** Round trip: parsing the encoding of a normal-form result gives it back,
      so the normaliser loses nothing on well-formed responses. */
  lemma ParseEncodeTranslation(t: TranslationResult)
    requires NormalForm(t)
    ensures ParseTranslationResult(EncodeTranslation(t)) == t
  {
    var ps := EncodeTranslation(t).parameter.value;
    EncodedTranslationHead(t);
    EncodedTranslationMatches(t);
    var r := ParseTranslationResult(EncodeTranslation(t));
    assert |r.mappedCodes| == |t.mappedCodes|;
    forall k | 0 <= k < |t.mappedCodes|
      ensures r.mappedCodes[k] == t.mappedCodes[k]
    {
      ParseEncodeMatch(t.mappedCodes[k]);
    }
  }

  /** As written, a failed translation still reports its matches: a response
      with a `match` entry and no `result` entry parses to `success == false`
      with one mapped code. */
  lemma FailureKeepsMatches()
    ensures var m := Parameter("match", NoValues, None);
            var r := ParseTranslationResult(Parameters(Some([m])));
            !r.success && |r.mappedCodes| == 1 && r.message == Some(FailureMessage)
  {
    var m := Parameter("match", NoValues, None);
    assert MatchParameters([m]) == [m];
  }

  /** The entries of a response holding `result = true` and one match. */
  lemma SingleMatchEntries(r0: Parameter, m: Parameter)
    requires r0.name == "result" && m.name == "match"
    ensures MatchParameters([r0, m]) == [m]
    ensures FindParameter([r0, m], "result") == Some(r0)
    ensures FindString([r0, m], "message") == None
  {
    assert [r0, m] == [r0] + [m];
    MatchParametersOrder([r0], [m]);
    MatchParametersSingle(r0);
    MatchParametersSingle(m);
    assert ParameterNames([r0, m]) == ["result", "match"];
  }

  /** A response holding `result = true` and one encoded match, without a
      message, parses to that match under the default success message. */
  lemma SingleMatchResponse(c: MappedCode)
    requires c.equivalence != "" && c.score != Some(0.0)
    ensures var r0 := Parameter("result", NoValues.(valueBoolean := Some(true)), None);
            ParseTranslationResult(Parameters(Some([r0, EncodeMatch(c)]))) ==
              TranslationResult(true, EmptyConcept, [c], Some(SuccessMessage))
  {
    var r0 := Parameter("result", NoValues.(valueBoolean := Some(true)), None);
    var m := EncodeMatch(c);
    var r := ParseTranslationResult(Parameters(Some([r0, m])));
    assert r.success && r.message == Some(SuccessMessage) by {
      SingleMatchEntries(r0, m);
    }
    assert r.mappedCodes == [c] by {
      SingleMatchEntries(r0, m);
      ParseEncodeMatch(c);
      assert |r.mappedCodes| == 1 && r.mappedCodes[0] == c;
    }
    assert r.originalCode == EmptyConcept;
  }

  /** The translate scenario: one `match` with equivalence "equivalent",
      concept TM2.001 and score 0.95 under `result = true`. */
  lemma TranslateScenario()
    ensures var coding := Coding("http://id.who.int/icd/entity/tm2", "TM2.001", "Constitutional imbalance - Wind element");
            var m := EncodeMatch(MappedCode(coding.system, coding.code, coding.display, "equivalent", Some(0.95)));
            var p := Parameters(Some([Parameter("result", NoValues.(valueBoolean := Some(true)), None), m]));
            ParseTranslationResult(p) == TranslationResult(
              true, EmptyConcept,
              [MappedCode(coding.system, coding.code, coding.display, "equivalent", Some(0.95))],
              Some(SuccessMessage))
  {
    var coding := Coding("http://id.who.int/icd/entity/tm2", "TM2.001", "Constitutional imbalance - Wind element");
    SingleMatchResponse(MappedCode(coding.system, coding.code, coding.display, "equivalent", Some(0.95)));
  }

  // ---------------------------------------------------------------------
  // `getSystemLabel`
  // ---------------------------------------------------------------------

  /** The substring tokens in the order they are tried, with their labels. */
  const SystemTokens: seq<(string, string)> :=
    [("ayurveda", "Ayurveda"), ("siddha", "Siddha"), ("unani", "Unani"), ("icd11", "ICD-11")]
  const UnknownLabel := "Unknown"

  /** `getSystemLabel`: the label of the first token the URI contains
      (case-sensitively), or "Unknown". */
  function GetSystemLabel(system: string): (l: string)
    ensures l in {"Ayurveda", "Siddha", "Unani", "ICD-11", UnknownLabel}
    ensures l == UnknownLabel <==> forall k :: 0 <= k < |SystemTokens| ==> !Contains(system, SystemTokens[k].0)
  {
    assert SystemTokens[0].0 == "ayurveda" && SystemTokens[1].0 == "siddha";
    assert SystemTokens[2].0 == "unani" && SystemTokens[3].0 == "icd11";
    if Contains(system, "ayurveda") then "Ayurveda"
    else if Contains(system, "siddha") then "Siddha"
    else if Contains(system, "unani") then "Unani"
    else if Contains(system, "icd11") then "ICD-11"
    else UnknownLabel
  }

  /** First match wins: the label is that of the earliest token in the table
      that the URI contains. */
  lemma SystemLabelFirstMatch(system: string, k: nat)
    requires k < |SystemTokens| && Contains(system, SystemTokens[k].0)
    requires forall j :: 0 <= j < k ==> !Contains(system, SystemTokens[j].0)
    ensures GetSystemLabel(system) == SystemTokens[k].1
  {
    assert SystemTokens[0] == ("ayurveda", "Ayurveda") && SystemTokens[1] == ("siddha", "Siddha");
    assert SystemTokens[2] == ("unani", "Unani") && SystemTokens[3] == ("icd11", "ICD-11");
    if k > 0 { assert !Contains(system, SystemTokens[0].0); }
    if k > 1 { assert !Contains(system, SystemTokens[1].0); }
    if k > 2 { assert !Contains(system, SystemTokens[2].0); }
  }

  /** The lookup form's ICD-11 URIs share the prefix "https://icd.who.int/browse11":
      neither it nor the tails contain an `a`, and its only `1`s are the two in
      "browse11", so the URI contains none of the tokens whatever the tail. */
  lemma {:induction false} IcdBrowserUriIsUnknown(tail: string)
    requires 'a' !in tail && '1' !in tail
    ensures GetSystemLabel("https://icd.who.int/browse11" + tail) == UnknownLabel
  {
    var root := "https://icd.who.int/browse";
    assert "https://icd.who.int/browse11" + tail == root + ['1', '1'] + tail;
    var uri := root + ['1', '1'] + tail;
    assert 'a' !in root && '1' !in root;
    assert 'a' !in uri;
    MissingCharNotContained(uri, "ayurveda", 'a');
    MissingCharNotContained(uri, "siddha", 'a');
    MissingCharNotContained(uri, "unani", 'a');
    assert root[|root| - 3] == 'w' && root[|root| - 2] == 's';
    NotContainedAtPair(root, tail, "icd11", '1');
  }

  /** The lookup form's ICD-11 URIs: the TM2 entity list and the MMS
      linearization under the ICD-11 browser. */
  const IcdTm2Uri := "https://icd.who.int/browse11" + "/l-m/en#/http://" + "id.who.int/icd/entity/tm2"
  const IcdMmsUri := "https://icd.who.int/browse11" + "/l-m/en#/http://" + "id.who.int/icd/entity/mms"

  /** The two ICD-11 URIs offered by the lookup form contain none of the
      tokens ("icd.who.int", not "icd11"), so they are labelled "Unknown". */
  lemma IcdUrisAreUnknown()
    ensures GetSystemLabel(IcdTm2Uri) == UnknownLabel
    ensures GetSystemLabel(IcdMmsUri) == UnknownLabel
  {
    var head, tm2, mms := "/l-m/en#/http://", "id.who.int/icd/entity/tm2", "id.who.int/icd/entity/mms";
    assert 'a' !in head && '1' !in head;
    assert 'a' !in tm2 && '1' !in tm2 && 'a' !in mms && '1' !in mms;
    assert IcdTm2Uri == "https://icd.who.int/browse11" + (head + tm2);
    assert IcdMmsUri == "https://icd.who.int/browse11" + (head + mms);
    IcdBrowserUriIsUnknown(head + tm2);
    IcdBrowserUriIsUnknown(head + mms);
  }

  /** Matching is case-sensitive: a URI without lower-case ASCII letters
      (an upper-cased "urn:AYURVEDA", say) is labelled "Unknown". */
  lemma UpperCaseIsUnknown(system: string)
    requires forall k :: 0 <= k < |system| ==> !IsLowerAscii(system[k])
    ensures GetSystemLabel(system) == UnknownLabel
  {
    MissingCharNotContained(system, "ayurveda", 'a');
    MissingCharNotContained(system, "siddha", 'i');
    MissingCharNotContained(system, "unani", 'a');
    MissingCharNotContained(system, "icd11", 'i');
  }
}
