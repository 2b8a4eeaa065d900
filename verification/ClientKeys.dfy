/**
 * src/AuctoritasClient.ts: how options become scopes, audiences, cache keys and worker pairs. Scopes are normalised
 * again on every path; the lemmas show that all paths still meet at one key.
 */
module ClientKeys {
  import opened Wrappers
  import opened Strings
  import opened Scope
  import opened Colons
  import opened CacheKeys
  import opened KeyAmbiguity
  import opened CacheModel
  import Worker

  const DEFAULT_SCOPE := "openid profile email"

  /** The client options that take part in keys. */
  datatype Config = Config(
    clientId: string, defaultScope: Option<string>, scope: Option<string>, audience: Option<string>,
    useRefreshTokens: bool)

  /** An object may lack the member `audience`, or have it with the value `undefined`. */
  datatype AudienceMember = Absent | Present(value: Option<string>)

  datatype Options = Options(audience: AudienceMember, scope: Option<string>)

  /** `getTokenOptions` in `getTokenSilently`, and the authorize parameters: a scope and perhaps an audience. */
  datatype Request = Request(audience: Option<string>, scope: string)

  /** `this.defaultScope` */
  function ClientDefault(c: Config): string {
    UniqueScopes(["openid", c.defaultScope.GetOr(DEFAULT_SCOPE)])
  }

  /** `this.scope`; an undefined scope joins as the empty string. */
  function ClientScope(c: Config): string {
    if c.useRefreshTokens then UniqueScopes([c.scope.GetOr(""), "offline_access"]) else c.scope.GetOr("")
  }

  /** `{audience: this.options.audience, ...options}.audience` */
  function Audience(c: Config, o: Options): Option<string> {
    if o.audience.Present? then o.audience.value else c.audience
  }

  /** The options that `getTokenSilently` passes on. */
  function SilentRequest(c: Config, o: Options): Request {
    Request(Audience(c, o), UniqueScopes([ClientDefault(c), ClientScope(c), o.scope.GetOr("")]))
  }

  /** `_getParams`, for options that carry the member `audience`. */
  function Params(c: Config, r: Request): Request {
    Request(r.audience, UniqueScopes([ClientDefault(c), ClientScope(c), r.scope]))
  }

  /** `options` after `_getTokenUsingRefreshToken` has reassigned its scope, from `this.options.scope`. */
  function RefreshRequest(c: Config, r: Request): Request {
    r.(scope := UniqueScopes([ClientDefault(c), c.scope.GetOr(""), r.scope]))
  }

  function AudienceOrDefault(audience: Option<string>): string {
    Or(audience, "default")
  }

  /** The key of `_getAccessTokenFromCache`. */
  function LookupKey(c: Config, r: Request): CacheKey {
    CacheKey(PREFIX, c.clientId, AudienceOrDefault(r.audience), r.scope)
  }

  datatype Path = ViaIframe | ViaRefresh | ViaRefreshThenIframe

  /** The options that the exchange itself runs with. */
  function ExchangeRequest(c: Config, r: Request, path: Path): Request {
    if path.ViaIframe? then r else RefreshRequest(c, r)
  }

  /** What `_getTokenSilently` stores: `{client_id, ...authResult}`, so a response's own `client_id` wins. */
  function SilentEntry(c: Config, r: Request, path: Path, json: Worker.TokenJson, exp: real, user: string): CacheEntry {
    var sent := ExchangeRequest(c, r, path);
    var result := if path.ViaRefresh? then sent else Params(c, sent);
    CacheEntry(json.clientId.GetOr(c.clientId), AudienceOrDefault(result.audience), result.scope,
      json.accessToken, json.idToken, json.refreshToken, json.expiresIn, exp, user)
  }

  /** The pair under which the worker files the refresh token of that exchange. */
  function SilentPair(c: Config, r: Request, path: Path): (string, string) {
    var sent := ExchangeRequest(c, r, path);
    (AudienceOrDefault(sent.audience), sent.scope)
  }

  /** `_getParams` on login options. */
  function LoginParams(c: Config, o: Options): Request {
    Request(Audience(c, o), UniqueScopes([ClientDefault(c), ClientScope(c), o.scope.GetOr("")]))
  }

  /** What a login stores: here the client's own id comes last. */
  function LoginEntry(c: Config, o: Options, json: Worker.TokenJson, exp: real, user: string): CacheEntry {
    var params := LoginParams(c, o);
    CacheEntry(c.clientId, AudienceOrDefault(params.audience), params.scope,
      json.accessToken, json.idToken, json.refreshToken, json.expiresIn, exp, user)
  }

  function LoginPair(c: Config, o: Options): (string, string) {
    var params := LoginParams(c, o);
    (AudienceOrDefault(params.audience), params.scope)
  }

  /** The key of `getUser` and `getIdTokenClaims`. */
  function UserKey(c: Config, o: Options): CacheKey {
    var own := if o.audience.Present? then o.audience.value else None;
    CacheKey(PREFIX, c.clientId, if Truthy(own) then own.value else AudienceOrDefault(c.audience),
      UniqueScopes([ClientDefault(c), ClientScope(c), o.scope.GetOr("")]))
  }

  /** The key of the single flight; an undefined audience prints as "undefined". */
  function FlightKey(c: Config, r: Request): string {
    c.clientId + SEP + (AudienceText(r.audience) + SEP + r.scope)
  }

  function AudienceText(audience: Option<string>): string {
    audience.GetOr("undefined")
  }

  // ----- what the keys are made of -----

  function OfflineAccess(c: Config): seq<string> {
    if c.useRefreshTokens then ["offline_access"] else []
  }

  /** The scope of a silent call: the tokens of `openid`, the default, the client and the call itself, in order. */
  lemma SilentScopeIs(c: Config, o: Options)
    ensures SilentRequest(c, o).scope ==
            Join(Dedupe(["openid"] + Words(c.defaultScope.GetOr("openid profile email")) + Words(c.scope.GetOr("")) +
                        OfflineAccess(c) + Words(o.scope.GetOr(""))), " ")
  {
    var d, own := c.defaultScope.GetOr(DEFAULT_SCOPE), c.scope.GetOr("");
    DefaultWords(c);
    if c.useRefreshTokens {
      ExtendedWords(c);
      ExtendedScopes(ClientDefault(c), ClientScope(c), ["openid"], Words(d), Words(own), ["offline_access"],
        o.scope.GetOr(""));
    } else {
      PlainScopes(ClientDefault(c), ["openid"], Words(d), own, o.scope.GetOr(""));
      assert ["openid"] + Words(d) + Words(own) + [] == ["openid"] + Words(d) + Words(own);
    }
  }

  lemma DefaultWords(c: Config)
    ensures Words(ClientDefault(c)) == Dedupe(["openid"] + Words(c.defaultScope.GetOr(DEFAULT_SCOPE)))
  {
    WordsToken("openid");
    TwoWords("openid", c.defaultScope.GetOr(DEFAULT_SCOPE));
  }

  lemma ExtendedWords(c: Config)
    requires c.useRefreshTokens
    ensures Words(ClientScope(c)) == Dedupe(Words(c.scope.GetOr("")) + ["offline_access"])
  {
    WordsToken("offline_access");
    TwoWords(c.scope.GetOr(""), "offline_access");
  }

  lemma TwoWords(a: string, b: string)
    ensures Words(UniqueScopes([a, b])) == Dedupe(Words(a) + Words(b))
  {
    UniqueScopesTokens([a, b]);
    AllWordsOne(b);
    assert [a, b][1..] == [b];
  }

  lemma ThreeScopes(a: string, b: string, x: string)
    ensures UniqueScopes([a, b, x]) == Join(Dedupe(Words(a) + Words(b) + Words(x)), " ")
  {
    UniqueScopesIs([a, b, x]);
    AllWordsOne(x);
    assert [a, b, x][1..] == [b, x] && [b, x][1..] == [x];
    assert Words(a) + (Words(b) + Words(x)) == Words(a) + Words(b) + Words(x);
  }

  lemma PlainScopes(u: string, p: seq<string>, q: seq<string>, s: string, x: string)
    requires Words(u) == Dedupe(p + q)
    ensures UniqueScopes([u, s, x]) == Join(Dedupe(p + q + Words(s) + Words(x)), " ")
  {
    ThreeScopes(u, s, x);
    DedupeLead(p, q, Words(s), Words(x));
  }

  lemma ExtendedScopes(u: string, v: string, p: seq<string>, q: seq<string>, r: seq<string>, s: seq<string>, x: string)
    requires Words(u) == Dedupe(p + q) && Words(v) == Dedupe(r + s)
    ensures UniqueScopes([u, v, x]) == Join(Dedupe(p + q + r + s + Words(x)), " ")
  {
    PlainScopes(u, p, q, v, x);
    DedupeInner(p, q, r, s, Words(x));
  }

  /** The audience that a silent call asks for: its own, even an undefined one, before the client's. */
  function Wanted(c: Config, o: Options): Option<string> {
    match o.audience
    case Present(own) => own
    case Absent => c.audience
  }

  /** The key that a silent call looks up, in full. */
  lemma LookupKeyIs(c: Config, o: Options)
    ensures LookupKey(c, SilentRequest(c, o)) ==
            CacheKey("@@auth0spajs@@", c.clientId,
                     if Truthy(Wanted(c, o)) then Wanted(c, o).value else "default", SilentRequest(c, o).scope)
  {
  }

  // ----- normalising again changes nothing -----

  lemma ParamsScope(c: Config, o: Options)
    ensures Params(c, SilentRequest(c, o)) == SilentRequest(c, o)
  {
    var lead := [ClientDefault(c), ClientScope(c)];
    UniqueScopesReadd(lead, [o.scope.GetOr("")]);
    assert lead + [o.scope.GetOr("")] == [ClientDefault(c), ClientScope(c), o.scope.GetOr("")];
    assert lead + [UniqueScopes(lead + [o.scope.GetOr("")])] ==
           [ClientDefault(c), ClientScope(c), SilentRequest(c, o).scope];
  }

  /** Even though it starts from `this.options.scope`, not from `this.scope`. */
  lemma RefreshScope(c: Config, o: Options)
    ensures RefreshRequest(c, SilentRequest(c, o)) == SilentRequest(c, o)
  {
    if c.useRefreshTokens {
      UniqueScopesReaddPart(ClientDefault(c), c.scope.GetOr(""), "offline_access", o.scope.GetOr(""));
    } else {
      ParamsScope(c, o);
    }
  }

  // ----- coherence -----

  /** On every path the entry is stored under the key that was looked up, unless the response names another client. */
  lemma SilentKeyCoherent(c: Config, o: Options, path: Path, json: Worker.TokenJson, exp: real, user: string)
    ensures KeyOf(SilentEntry(c, SilentRequest(c, o), path, json, exp, user)) == LookupKey(c, SilentRequest(c, o)) <==>
            (json.clientId.Some? ==> json.clientId.value == c.clientId)
  {
    ParamsScope(c, o);
    RefreshScope(c, o);
  }

  /** The worker files and finds refresh tokens under the audience and scope of that same key. */
  lemma WorkerPairCoherent(c: Config, o: Options, path: Path)
    ensures SilentPair(c, SilentRequest(c, o), path) ==
            (LookupKey(c, SilentRequest(c, o)).audience, LookupKey(c, SilentRequest(c, o)).scope)
    ensures LoginPair(c, o) == SilentPair(c, SilentRequest(c, o), path)
  {
    RefreshScope(c, o);
  }

  /** A login with the same options stores under the key that a silent call looks up, and stores under. */
  lemma LoginKeyCoherent(c: Config, o: Options, json: Worker.TokenJson, path: Path, later: Worker.TokenJson,
                         exp: real, user: string)
    requires later.clientId.Some? ==> later.clientId.value == c.clientId
    ensures KeyOf(LoginEntry(c, o, json, exp, user)) == LookupKey(c, SilentRequest(c, o))
    ensures KeyOf(LoginEntry(c, o, json, exp, user)) ==
            KeyOf(SilentEntry(c, SilentRequest(c, o), path, later, exp, user))
  {
    SilentKeyCoherent(c, o, path, later, exp, user);
  }

  /** `getUser` reads that key too, unless an empty or undefined audience option overrides one set for the client. */
  lemma UserKeyCoherent(c: Config, o: Options)
    ensures UserKey(c, o) == LookupKey(c, SilentRequest(c, o)) <==>
            (o.audience.Present? && !Truthy(o.audience.value) ==> AudienceOrDefault(c.audience) == "default")
  {
  }

  // ----- flights -----

  /** Requests of one client share a flight exactly when what follows the client id is the same text. */
  lemma FlightTail(c: Config, r: Request, s: Request)
    ensures FlightKey(c, s) == FlightKey(c, r) <==>
            AudienceText(s.audience) + SEP + s.scope == AudienceText(r.audience) + SEP + r.scope
  {
    var n := |c.clientId + SEP|;
    assert FlightKey(c, r)[n..] == AudienceText(r.audience) + SEP + r.scope;
    assert FlightKey(c, s)[n..] == AudienceText(s.audience) + SEP + s.scope;
    assert FlightKey(c, r)[..n] == FlightKey(c, s)[..n] == c.clientId + SEP;
  }

  /** Calls that share a flight look up one cache key, for audiences that are clean and not the text "undefined". */
  lemma FlightKeyCoherent(c: Config, r: Request, s: Request)
    requires Clean(AudienceText(r.audience)) && Clean(AudienceText(s.audience))
    requires r.audience != Some("undefined") && s.audience != Some("undefined")
    ensures FlightKey(c, r) == FlightKey(c, s) <==> r == s
    ensures FlightKey(c, r) == FlightKey(c, s) ==> LookupKey(c, r) == LookupKey(c, s)
  {
    FlightTail(c, r, s);
    SameFirstCut(AudienceText(r.audience), r.scope, AudienceText(s.audience), s.scope);
  }

  lemma SameFirstCut(a: string, b: string, x: string, y: string)
    requires Clean(a) && Clean(x)
    ensures a + SEP + b == x + SEP + y ==> a == x && b == y
  {
    FirstCut(a, b);
    FirstCut(x, y);
    JoinedPieces(a, b);
    JoinedPieces(x, y);
    if a + SEP + b == x + SEP + y {
      PieceIsSlice(a + SEP + b, a, 0);
      PieceIsSlice(a + SEP + b, x, 0);
      PieceIsSlice(a + SEP + b, b, |a| + 2);
      PieceIsSlice(a + SEP + b, y, |a| + 2);
    }
  }

  /** An undefined audience shares its flight with the audience "undefined", although their cache keys differ. */
  lemma FlightKeyShared(c: Config, scope: string)
    ensures var r, s := Request(None, scope), Request(Some("undefined"), scope);
            FlightKey(c, r) == FlightKey(c, s) && LookupKey(c, r) != LookupKey(c, s)
  {
    assert "undefined"[0] != "default"[0];
  }

  /** A defined audience that cannot be taken for an undefined one, nor cut elsewhere together with the scope. */
  predicate FlightSafe(r: Request) {
    r.audience.Some? && r.audience.value != "undefined" && Clean(r.audience.value) && Tight(r.scope)
  }

  lemma FlightAlone(c: Config, r: Request, s: Request)
    requires FlightSafe(r) && FlightKey(c, s) == FlightKey(c, r)
    ensures s == r
  {
    FlightTail(c, r, s);
    PairAlone(r.audience.value, r.scope, AudienceText(s.audience), s.scope);
  }

  /** A request of the same client that shares the flight and looks up another cache key. */
  lemma FlightRival(c: Config, r: Request) returns (s: Request)
    requires !FlightSafe(r)
    ensures FlightKey(c, s) == FlightKey(c, r) && LookupKey(c, s) != LookupKey(c, r)
  {
    if r.audience.None? || r.audience.value == "undefined" {
      FlightKeyShared(c, r.scope);
      s := Request(if r.audience.None? then Some("undefined") else None, r.scope);
    } else {
      var x, y := PairRival(r.audience.value, r.scope);
      s := Request(Some(x), y);
      FlightTail(c, r, s);
    }
  }

  /**
   * Everyone of the same client who shares the flight of a request looks up its cache key exactly when the request is
   * safe. A call without any audience never is.
   */
  lemma FlightSafeExactly(c: Config, r: Request)
    ensures (forall s :: FlightKey(c, s) == FlightKey(c, r) ==> LookupKey(c, s) == LookupKey(c, r)) <==> FlightSafe(r)
  {
    if FlightSafe(r) {
      forall s | FlightKey(c, s) == FlightKey(c, r)
        ensures LookupKey(c, s) == LookupKey(c, r)
      {
        FlightAlone(c, r, s);
      }
    } else {
      var s := FlightRival(c, r);
    }
  }

  // ----- flights of several clients on one page -----

  /** The flight's parts as a key, which prints as the flight after a prefix. */
  function FlightParts(c: Config, r: Request): CacheKey {
    CacheKey("", c.clientId, AudienceText(r.audience), r.scope)
  }

  lemma FlightPrinted(c: Config, r: Request)
    ensures ToKey(FlightParts(c, r)) == SEP + FlightKey(c, r)
  {
    Nested(FlightParts(c, r));
  }

  lemma SameFlight(c: Config, r: Request, d: Config, s: Request)
    ensures FlightKey(d, s) == FlightKey(c, r) <==> ToKey(FlightParts(d, s)) == ToKey(FlightParts(c, r))
  {
    FlightPrinted(c, r);
    FlightPrinted(d, s);
    assert ToKey(FlightParts(c, r))[2..] == FlightKey(c, r) && ToKey(FlightParts(d, s))[2..] == FlightKey(d, s);
  }

  predicate FlightSafeAcross(c: Config, r: Request) {
    FlightSafe(r) && Clean(c.clientId) && Tight(r.audience.value)
  }

  lemma FlightAloneAcross(c: Config, r: Request, d: Config, s: Request)
    requires FlightSafeAcross(c, r) && FlightKey(d, s) == FlightKey(c, r)
    ensures d.clientId == c.clientId && s == r
  {
    SameFlight(c, r, d, s);
    AloneUnderPrefix(FlightParts(c, r), FlightParts(d, s));
  }

  lemma FlightRivalAcross(c: Config, r: Request) returns (d: Config, s: Request)
    requires FlightSafe(r) && !FlightSafeAcross(c, r)
    ensures FlightKey(d, s) == FlightKey(c, r) && LookupKey(d, s) != LookupKey(c, r)
  {
    var k := FlightParts(c, r);
    var l := RivalUnderPrefix(k);
    d, s := c.(clientId := l.clientId), Request(Some(l.audience), l.scope);
    SameFlight(c, r, d, s);
    DifferentLookup(k, l);
  }

  /** Two keys with one text and prefix stay different when an empty audience reads as the default. */
  lemma DifferentLookup(k: CacheKey, l: CacheKey)
    requires ToKey(l) == ToKey(k) && l.prefix == k.prefix && l != k
    ensures l.clientId != k.clientId || l.scope != k.scope ||
            AudienceOrDefault(Some(l.audience)) != AudienceOrDefault(Some(k.audience))
  {
    PrintedLength(k);
    PrintedLength(l);
  }

  lemma PrintedLength(k: CacheKey)
    ensures |ToKey(k)| == |k.prefix| + |k.clientId| + |k.audience| + |k.scope| + 6
  {
  }

  /** The same for everyone on the page, whatever their client: client id and audience must then be clear-cut too. */
  lemma FlightSafeAcrossExactly(c: Config, r: Request)
    ensures (forall d, s :: FlightKey(d, s) == FlightKey(c, r) ==> LookupKey(d, s) == LookupKey(c, r)) <==>
            FlightSafeAcross(c, r)
  {
    if FlightSafeAcross(c, r) {
      forall d, s | FlightKey(d, s) == FlightKey(c, r)
        ensures LookupKey(d, s) == LookupKey(c, r)
      {
        FlightAloneAcross(c, r, d, s);
      }
    } else if !FlightSafe(r) {
      var s := FlightRival(c, r);
    } else {
      var d, s := FlightRivalAcross(c, r);
    }
  }
}
