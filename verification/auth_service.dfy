/** The bearer-token holder of services/auth.service.ts: an in-memory
    `(token, tokenExpiry)` pair mirrored into a string key-value store.
    The clock is the parameter `now` (milliseconds since the epoch) and the
    store is a `map`; the token endpoint's reply is a parameter of `Login`. */
module AuthService {
  import opened Base
  import opened Text
  import opened Types

  const TokenKey := "namaste_fhir_token"
  const ExpiryKey := "namaste_fhir_token_expiry"
  const RefreshThresholdMinutes := 5
  /** The default lifetime, in seconds, when the server omits `expires_in`. */
  const DefaultExpiresIn := 3600

  /** The service's fields together with the browser store it writes through. */
  datatype Service = Service(token: Option<string>, tokenExpiry: Option<int>, storage: map<string, string>)

  /** A token is held exactly when an expiry is held. */
  predicate Consistent(s: Service) {
    s.token.None? <==> s.tokenExpiry.None?
  }

  /** The fields before the constructor loads from the store. */
  function Fresh(storage: map<string, string>): (s: Service)
    ensures Consistent(s) && s.storage == storage
  {
    Service(None, None, storage)
  }

  /** JavaScript truthiness of a stored string (`null` and `""` are falsy). */
  predicate StoredTruthy(storage: map<string, string>, key: string) {
    key in storage && storage[key] != ""
  }

  /** `clearToken`: both fields null and both keys removed, other keys untouched. */
  function ClearToken(s: Service): (r: Service)
    ensures r.token.None? && r.tokenExpiry.None?
    ensures TokenKey !in r.storage && ExpiryKey !in r.storage
    ensures forall k :: k != TokenKey && k != ExpiryKey ==> (k in r.storage <==> k in s.storage)
    ensures forall k :: k in r.storage ==> r.storage[k] == s.storage[k]
  {
    Service(None, None, s.storage - {TokenKey, ExpiryKey})
  }

  /** `saveTokenToStorage`: expiry is `now + expiresIn * 1000`, written to both
      the fields and the store (the expiry as decimal text). */
  function SaveTokenToStorage(s: Service, token: string, expiresIn: int, now: int): (r: Service)
    ensures r.token == Some(token) && r.tokenExpiry == Some(now + expiresIn * 1000)
    ensures TokenKey in r.storage && r.storage[TokenKey] == token
    ensures ExpiryKey in r.storage && ParseInt(r.storage[ExpiryKey]) == r.tokenExpiry
    ensures forall k :: k != TokenKey && k != ExpiryKey ==>
              (k in r.storage <==> k in s.storage) && (k in r.storage ==> r.storage[k] == s.storage[k])
  {
    var expiry := now + expiresIn * 1000;
    ParseIntOfIntToString(expiry);
    Service(Some(token), Some(expiry), s.storage[TokenKey := token][ExpiryKey := IntToString(expiry)])
  }

  /** `loadTokenFromStorage`: when both keys hold non-empty text, an unexpired
      parsed expiry adopts the stored pair and anything else clears; when either
      is missing or empty, nothing changes. */
  function LoadTokenFromStorage(s: Service, now: int): (r: Service)
    ensures !(StoredTruthy(s.storage, TokenKey) && StoredTruthy(s.storage, ExpiryKey)) ==> r == s
    ensures StoredTruthy(s.storage, TokenKey) && StoredTruthy(s.storage, ExpiryKey) ==>
              match ParseInt(s.storage[ExpiryKey])
              case Some(e) =>
                if now < e then r == Service(Some(s.storage[TokenKey]), Some(e), s.storage)
                else r == ClearToken(s)
              case None => r == ClearToken(s)
  {
    if StoredTruthy(s.storage, TokenKey) && StoredTruthy(s.storage, ExpiryKey) then
      var parsed := ParseInt(s.storage[ExpiryKey]);
      if parsed.Some? && now < parsed.value then
        Service(Some(s.storage[TokenKey]), Some(parsed.value), s.storage)
      else
        ClearToken(s)
    else
      s
  }

  /** The token endpoint's answer: a non-OK response, a failure of `fetch`
      itself or of reading the body (with its own error message), or the
      parsed body. */
  datatype TokenReply = Rejected | TransportFailure(message: string) | Accepted(body: AuthResponse)

  /** The lifetime `login` uses: `expires_in || 3600`, so absent or zero means one hour. */
  function EffectiveExpiresIn(response: AuthResponse): (secs: int)
    ensures (response.expiresIn.None? || response.expiresIn == Some(0)) ==> secs == DefaultExpiresIn
    ensures response.expiresIn.Some? && response.expiresIn.value != 0 ==> secs == response.expiresIn.value
  {
    match response.expiresIn
    case Some(n) => if n != 0 then n else DefaultExpiresIn
    case None => DefaultExpiresIn
  }

  /** `login`: a rejected reply throws "Authentication failed" and changes
      nothing; a failed fetch or body read propagates its own error and
      changes nothing; an accepted one saves the token with the effective
      lifetime. */
  function Login(s: Service, reply: TokenReply, now: int): (r: (Service, Result<AuthResponse, string>))
    ensures reply.Rejected? ==> r.0 == s && r.1 == Failure("Authentication failed")
    ensures reply.TransportFailure? ==> r.0 == s && r.1 == Failure(reply.message)
    ensures reply.Accepted? ==>
              && r.1 == Success(reply.body)
              && r.0.token == Some(reply.body.accessToken)
              && r.0.tokenExpiry == Some(now + EffectiveExpiresIn(reply.body) * 1000)
  {
    match reply
    case Rejected => (s, Failure("Authentication failed"))
    case TransportFailure(m) => (s, Failure(m))
    case Accepted(body) =>
      (SaveTokenToStorage(s, body.accessToken, EffectiveExpiresIn(body), now), Success(body))
  }

  /** `logout`: unconditionally cleared. */
  function Logout(s: Service): (r: Service)
    ensures r.token.None? && r.tokenExpiry.None?
    ensures TokenKey !in r.storage && ExpiryKey !in r.storage
  {
    ClearToken(s)
  }

  /** `getToken`: the held token, expired or not. */
  function GetToken(s: Service): Option<string> {
    s.token
  }

  /** `isAuthenticated`: a token and an expiry are held and `now` is before the expiry. */
  predicate IsAuthenticated(s: Service, now: int) {
    s.token.Some? && s.tokenExpiry.Some? && now < s.tokenExpiry.value
  }

  /** The eviction window, in milliseconds. */
  const RefreshThresholdMs := RefreshThresholdMinutes * 60 * 1000

  /** `refreshToken`: a null or zero expiry (falsy) leaves the state alone;
      otherwise a remaining lifetime under five minutes clears the token. */
  function RefreshToken(s: Service, now: int): (r: Service)
    ensures (s.tokenExpiry.None? || s.tokenExpiry == Some(0)) ==> r == s
    ensures s.tokenExpiry.Some? && s.tokenExpiry.value != 0 ==>
              if s.tokenExpiry.value - now < 300000 then r == ClearToken(s) else r == s
  {
    match s.tokenExpiry
    case None => s
    case Some(e) =>
      if e == 0 then s
      else if e - now < RefreshThresholdMs then ClearToken(s)
      else s
  }

  // ---------------------------------------------------------------------
  // Properties across operations
  // ---------------------------------------------------------------------

  /** Token and expiry are held or dropped together, by every operation. */
  lemma ConsistencyPreserved(s: Service, token: string, expiresIn: int, reply: TokenReply, now: int)
    requires Consistent(s)
    ensures Consistent(SaveTokenToStorage(s, token, expiresIn, now))
    ensures Consistent(ClearToken(s)) && Consistent(Logout(s))
    ensures Consistent(LoadTokenFromStorage(s, now))
    ensures Consistent(Login(s, reply, now).0)
    ensures Consistent(RefreshToken(s, now))
  {
  }

  /** A freshly saved token with a positive lifetime is authenticated exactly
      until its expiry instant, with no logout needed afterwards. */
  lemma AuthenticatedUntilExpiry(s: Service, token: string, expiresIn: int, now: int, later: int)
    ensures (IsAuthenticated(SaveTokenToStorage(s, token, expiresIn, now), later)
             <==> later < now + expiresIn * 1000)
  {
  }

  /** After logout nobody is authenticated, and the token accessor yields nothing. */
  lemma LogoutDeauthenticates(s: Service, now: int)
    ensures !IsAuthenticated(Logout(s), now) && GetToken(Logout(s)).None?
  {
  }

  /** Being unauthenticated persists as time advances when nothing else happens. */
  lemma ExpiryIsFinal(s: Service, now: int, later: int)
    requires now <= later && !IsAuthenticated(s, now)
    ensures !IsAuthenticated(s, later)
  {
  }

  /** The refresh check never extends a session: whoever is authenticated
      after it was already authenticated before it. */
  lemma RefreshNeverAuthenticates(s: Service, now: int, at: int)
    ensures IsAuthenticated(RefreshToken(s, now), at) ==> IsAuthenticated(s, at)
  {
  }

  /** A token that survives the refresh check has at least five minutes left
      (or carries the falsy expiry 0, which the check skips). */
  lemma RefreshLeavesMargin(s: Service, now: int)
    requires RefreshToken(s, now).tokenExpiry.Some?
    ensures var e := RefreshToken(s, now).tokenExpiry.value; e == 0 || e - now >= RefreshThresholdMs
  {
  }

  /** What a reload sees after a save: the same pair while unexpired, a cleared
      store once expired. A token saved as the empty string is not adopted. */
  lemma {:induction false} LoadAfterSave(s: Service, token: string, expiresIn: int, now: int, later: int)
    ensures var saved := SaveTokenToStorage(s, token, expiresIn, now);
            var loaded := LoadTokenFromStorage(Fresh(saved.storage), later);
            && (token != "" && later < now + expiresIn * 1000 ==>
                  loaded.token == Some(token) && loaded.tokenExpiry == saved.tokenExpiry)
            && (token != "" && later >= now + expiresIn * 1000 ==>
                  loaded == ClearToken(Fresh(saved.storage)))
            && (token == "" ==> loaded == Fresh(saved.storage))
  {
    var expiry := now + expiresIn * 1000;
    var saved := SaveTokenToStorage(s, token, expiresIn, now);
    var reloaded := Fresh(saved.storage);
    assert ParseInt(reloaded.storage[ExpiryKey]) == Some(expiry) by {
      ParseIntOfIntToString(expiry);
    }
    assert StoredTruthy(reloaded.storage, ExpiryKey) by {
      assert saved.storage[ExpiryKey] == IntToString(expiry);
    }
    assert StoredTruthy(reloaded.storage, TokenKey) <==> token != "";
  }
}
