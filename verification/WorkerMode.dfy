/**
 * The client with a worker: every token request of src/AuctoritasClient.ts goes through the worker, every success is
 * stored in the page's cache. Over all runs the page never holds a refresh token.
 */
module WorkerMode {
  import opened Wrappers
  import opened CacheKeys
  import opened CacheModel
  import opened Worker
  import opened Http
  import opened RefreshGrant
  import opened Responses
  import CacheRuns
  import ClientKeys

  /** The worker's map, the page's cache, what gets have returned so far, and the messages posted to the worker. */
  datatype System = System(tokens: Tokens, cache: CacheState, seen: seq<Option<Body>>, posted: seq<Message>)

  datatype Origin =
    | FromLogin(c: ClientKeys.Config, o: ClientKeys.Options)
    | FromSilent(c: ClientKeys.Config, r: ClientKeys.Request, path: ClientKeys.Path)

  /** The surroundings of an exchange: other request members, the network, and the decoded ID token. */
  datatype Setting = Setting(
    others: map<string, string>, turns: seq<Turn>, url: string, exp: real, user: string, now: real)

  datatype Event =
    | Look(key: CacheKey, adjustment: real, now: real)
    | Logout
    | ExchangeCode(origin: Origin, setting: Setting)
    | ExchangeRefreshToken(c: ClientKeys.Config, r: ClientKeys.Request, found: nat, setting: Setting)

  function Start(): System {
    System(map[], EmptyCache(None), [], [])
  }

  function Pair(origin: Origin): (string, string) {
    match origin
    case FromLogin(c, o) => ClientKeys.LoginPair(c, o)
    case FromSilent(c, r, path) => ClientKeys.SilentPair(c, r, path)
  }

  function Entry(origin: Origin, json: TokenJson, s: Setting): CacheEntry {
    match origin
    case FromLogin(c, o) => ClientKeys.LoginEntry(c, o, json, s.exp, s.user)
    case FromSilent(c, r, path) => ClientKeys.SilentEntry(c, r, path, json, s.exp, s.user)
  }

  function CodeMessage(origin: Origin, s: Setting): Message {
    Message(Pair(origin).0, Pair(origin).1, Ok(RequestBody("authorization_code", None, s.others)))
  }

  /** `cache && cache.refresh_token`, for what an earlier get returned. */
  function Cached(found: Option<Body>): Option<string> {
    if found.Some? then found.value.RefreshToken() else None
  }

  function GrantMessage(sys: System, e: Event): Message
    requires e.ExchangeRefreshToken? && e.found < |sys.seen|
  {
    var pair := ClientKeys.SilentPair(e.c, e.r, ClientKeys.ViaRefresh);
    RefreshMessage(pair.0, pair.1, Cached(sys.seen[e.found]), e.setting.others)
  }

  /** Post a request, let the worker and the network act, and store the entry of a successful response. */
  function Exchange(sys: System, m: Message, origin: Origin, s: Setting): System
    requires Valid(sys.cache)
  {
    if s.turns == [] then sys
    else
      var tries := Tries(true, sys.tokens, m, s.turns);
      var last := tries[|tries| - 1];
      var result := Conclude(last.attempt, s.url);
      System(last.tokens,
        if result.Ok? then Set(sys.cache, Entry(origin, result.value, s), s.now) else sys.cache,
        sys.seen,
        sys.posted + [m])
  }

  function Step(sys: System, e: Event): System
    requires Valid(sys.cache)
  {
    match e
    case Look(key, adjustment, now) =>
      var (cache, found) := Get(sys.cache, key, adjustment, now);
      sys.(cache := cache, seen := sys.seen + [found])
    case Logout => sys.(cache := ClearSync(sys.cache).0)
    case ExchangeCode(origin, s) => Exchange(sys, CodeMessage(origin, s), origin, s)
    case ExchangeRefreshToken(c, r, found, s) =>
      if found < |sys.seen| then
        Exchange(sys, GrantMessage(sys, e), FromSilent(c, r, ClientKeys.ViaRefresh), s)
      else sys
  }

  lemma StepValid(sys: System, e: Event)
    requires Valid(sys.cache)
    ensures Valid(Step(sys, e).cache)
  {
    if e.Look? {
      GetValid(sys.cache, e.key, e.adjustment, e.now);
    } else if e.Logout? {
      RemoveAllValid(sys.cache.store, |sys.cache.wrappers|, sys.cache.store.order);
    } else {
      forall entry, now {
        SetValid(sys.cache, entry, now);
      }
    }
  }

  ghost function Run(events: seq<Event>): (sys: System)
    ensures Valid(sys.cache)
  {
    if events == [] then Start()
    else
      var before := Run(events[..|events| - 1]);
      StepValid(before, events[|events| - 1]);
      Step(before, events[|events| - 1])
  }

  // ----- the page never holds a refresh token -----

  predicate TokenFree(b: Body) {
    b.Full? && !Truthy(b.RefreshToken())
  }

  ghost predicate CacheTokenFree(st: CacheState) {
    forall i :: 0 <= i < |st.wrappers| ==> TokenFree(st.wrappers[i].body)
  }

  ghost predicate PageTokenFree(sys: System) {
    && CacheTokenFree(sys.cache)
    && (forall i :: 0 <= i < |sys.seen| && sys.seen[i].Some? ==> TokenFree(sys.seen[i].value))
    && (forall i :: 0 <= i < |sys.posted| ==> sys.posted[i].body.Ok? && !Truthy(sys.posted[i].body.value.refreshToken))
  }

  /** Where no wrapper holds a refresh token, a get changes no wrapper and never returns a stripped entry. */
  lemma GetNeverStrips(st: CacheState, key: CacheKey, adjustment: real, now: real)
    requires Valid(st) && CacheTokenFree(st)
    ensures var r := Get(st, key, adjustment, now);
            r.0.wrappers == st.wrappers && (r.1.Some? ==> TokenFree(r.1.value))
  {
  }

  /** Whatever the worker answers, the attempt that concludes a request brings no refresh token. */
  lemma {:induction false} AnswersTokenFree(tokens: Tokens, m: Message, turns: seq<Turn>, url: string)
    requires turns != []
    ensures var tries := Tries(true, tokens, m, turns);
            var result := Conclude(tries[|tries| - 1].attempt, url);
            result.Ok? ==> !Truthy(result.value.refreshToken)
    decreases |turns|
  {
    var try := Once(true, tokens, m, turns[0]);
    var t := RunFrom(tokens, turns[0].before);
    RepliesCarryNoToken(t, m, turns[0].fetched);
    RepliesCarryNoToken(RunFrom(t, turns[0].during), m, turns[0].fetched);
    if try.attempt.Rejected? && |turns| > 1 {
      AnswersTokenFree(try.tokens, m, turns[1..], url);
      var rest := Tries(true, try.tokens, m, turns[1..]);
      assert Tries(true, tokens, m, turns) == [try] + rest;
    }
  }

  lemma SetTokenFree(st: CacheState, entry: CacheEntry, now: real)
    requires CacheTokenFree(st) && !Truthy(entry.refreshToken)
    ensures CacheTokenFree(Set(st, entry, now))
  {
  }

  /** A stored entry has the refresh token of its response. */
  lemma EntryToken(origin: Origin, json: TokenJson, s: Setting)
    ensures Entry(origin, json, s).refreshToken == json.refreshToken
  {
  }

  lemma PostedTokenFree(sys: System, tokens: Tokens, cache: CacheState, m: Message)
    requires PageTokenFree(sys) && CacheTokenFree(cache)
    requires m.body.Ok? && !Truthy(m.body.value.refreshToken)
    ensures PageTokenFree(System(tokens, cache, sys.seen, sys.posted + [m]))
  {
  }

  lemma ExchangeTokenFree(sys: System, m: Message, origin: Origin, s: Setting)
    requires Valid(sys.cache) && PageTokenFree(sys)
    requires m.body.Ok? && !Truthy(m.body.value.refreshToken)
    ensures PageTokenFree(Exchange(sys, m, origin, s))
  {
    if s.turns != [] {
      AnswersTokenFree(sys.tokens, m, s.turns, s.url);
      var tries := Tries(true, sys.tokens, m, s.turns);
      var result := Conclude(tries[|tries| - 1].attempt, s.url);
      if result.Ok? {
        EntryToken(origin, result.value, s);
        SetTokenFree(sys.cache, Entry(origin, result.value, s), s.now);
        PostedTokenFree(sys, tries[|tries| - 1].tokens, Set(sys.cache, Entry(origin, result.value, s), s.now), m);
      } else {
        PostedTokenFree(sys, tries[|tries| - 1].tokens, sys.cache, m);
      }
    }
  }

  /**
   * In worker mode, after every run: no wrapper in the page's cache and nothing a get ever returned holds a refresh
   * token, and no message posted to the worker carries one.
   */
  lemma {:induction false} PageNeverHoldsRefreshToken(events: seq<Event>)
    ensures PageTokenFree(Run(events))
  {
    if events != [] {
      var before, e := Run(events[..|events| - 1]), events[|events| - 1];
      PageNeverHoldsRefreshToken(events[..|events| - 1]);
      match e
      case Look(key, adjustment, now) => GetNeverStrips(before.cache, key, adjustment, now);
      case Logout =>
      case ExchangeCode(origin, s) => ExchangeTokenFree(before, CodeMessage(origin, s), origin, s);
      case ExchangeRefreshToken(c, r, found, s) =>
        if found < |before.seen| {
          ExchangeTokenFree(before, GrantMessage(before, e), FromSilent(c, r, ClientKeys.ViaRefresh), s);
        }
    }
  }

  /** Hence the strip branch of `get` is unreachable in worker mode. */
  lemma StripUnreachable(events: seq<Event>, key: CacheKey, adjustment: real, now: real)
    ensures var st := Run(events).cache;
            var r := Get(st, key, adjustment, now);
            r.0.wrappers == st.wrappers && (r.1.Some? ==> r.1.value.Full?)
  {
    PageNeverHoldsRefreshToken(events);
    GetNeverStrips(Run(events).cache, key, adjustment, now);
  }

  /** Logging out clears the page's cache and leaves the worker's tokens where they are. */
  lemma LogoutKeepsWorkerTokens(events: seq<Event>)
    ensures Run(events + [Logout]).tokens == Run(events).tokens
    ensures Run(events + [Logout]).cache.store.slots == map[]
  {
    assert (events + [Logout])[..|events|] == events;
    ListsItsKeys(events);
    var s := Run(events).cache.store;
    RemoveAllSlots(s, s.order);
  }

  lemma {:induction false} ListsItsKeys(events: seq<Event>)
    ensures Run(events).cache.manifestKey == None
  {
    if events != [] {
      ListsItsKeys(events[..|events| - 1]);
    }
  }

  // ----- from a login to the next refresh -----

  /** Event `i` is a login's response with refresh token `token`, and no later response is for the same pair. */
  ghost predicate LoggedIn(history: seq<Worker.Event>, i: int, pair: (string, string), token: string) {
    && 0 <= i < |history|
    && Worker.Parsed(history[i], pair.0, pair.1)
    && token != "" && history[i].fetched.json.refreshToken == Some(token)
    && forall j :: i < j < |history| ==> !Worker.Parsed(history[j], pair.0, pair.1)
  }

  lemma {:induction false} LastIsLogin(history: seq<Worker.Event>, i: int, pair: (string, string), token: string)
    requires LoggedIn(history, i, pair, token)
    ensures LastParsed(history, pair.0, pair.1) == Some(token)
  {
    if i < |history| - 1 {
      LastIsLogin(history[..|history| - 1], i, pair, token);
    }
  }

  /**
   * After a login whose response had a refresh token, and no later response for its pair, the next silent refresh with
   * the same options sends exactly that token, whatever else the worker does before it gets to the message.
   */
  lemma RefreshSendsLoginToken(history: seq<Worker.Event>, i: int, c: ClientKeys.Config, o: ClientKeys.Options,
                               token: string, others: map<string, string>, turns: seq<Turn>)
    requires LoggedIn(history, i, ClientKeys.LoginPair(c, o), token)
    requires Worker.Unshared(history, ClientKeys.LoginPair(c, o).0, ClientKeys.LoginPair(c, o).1)
    requires var pair := ClientKeys.SilentPair(c, ClientKeys.SilentRequest(c, o), ClientKeys.ViaRefresh);
             turns != [] && Quiet(turns[0], RefreshMessage(pair.0, pair.1, None, others))
    ensures var pair := ClientKeys.SilentPair(c, ClientKeys.SilentRequest(c, o), ClientKeys.ViaRefresh);
            var tries := Attempts(true, Worker.Run(history), RefreshMessage(pair.0, pair.1, None, others), None, turns);
            tries != [] && tries[0].sent == [RequestBody("refresh_token", Some(token), others)]
  {
    var pair := ClientKeys.LoginPair(c, o);
    ClientKeys.WorkerPairCoherent(c, o, ClientKeys.ViaRefresh);
    RefinesPairs(history, pair.0, pair.1);
    LastIsLogin(history, i, pair, token);
    QuietKeeps(Worker.Run(history), turns[0].before, RefreshMessage(pair.0, pair.1, None, others));
  }

  // ----- the histories are kept -----

  /** Every answer of a get is seen, every request is posted, and a refresh grant posts the token that it found. */
  lemma StepRecords(sys: System, e: Event)
    requires Valid(sys.cache)
    ensures e.Look? ==> Step(sys, e).seen == sys.seen + [Get(sys.cache, e.key, e.adjustment, e.now).1]
    ensures !e.Look? ==> Step(sys, e).seen == sys.seen
    ensures e.ExchangeCode? && e.setting.turns != [] ==>
              exists m :: Step(sys, e).posted == sys.posted + [m] && OwnRequest(m)
                       && Posted(m, "authorization_code", None)
    ensures e.ExchangeRefreshToken? && e.setting.turns != [] && e.found < |sys.seen| ==>
              exists m :: Step(sys, e).posted == sys.posted + [m] &&
                Posted(m, "refresh_token",
                       if sys.seen[e.found].Some? then sys.seen[e.found].value.RefreshToken() else None)
  {
    if e.ExchangeCode? && e.setting.turns != [] {
      assert Step(sys, e).posted == sys.posted + [CodeMessage(e.origin, e.setting)];
    } else if e.ExchangeRefreshToken? && e.setting.turns != [] && e.found < |sys.seen| {
      assert Step(sys, e).posted == sys.posted + [GrantMessage(sys, e)];
    }
  }

  predicate Posted(m: Message, grantType: string, token: Option<string>) {
    m.body.Ok? && m.body.value.grantType == grantType && m.body.value.refreshToken == token
  }

  // ----- from the response to the page -----

  /** The entry is made of the response's own members, the decoded ID token and the client's id. */
  predicate HoldsResponse(e: CacheEntry, clientId: string, json: TokenJson, s: Setting) {
    && e.clientId == clientId
    && e.accessToken == json.accessToken && e.idToken == json.idToken && e.expiresIn == json.expiresIn
    && e.exp == s.exp && e.user == s.user && !Truthy(e.refreshToken)
  }

  lemma ExchangeStores(sys: System, m: Message, origin: Origin, s: Setting, n: nat, json: TokenJson)
    requires Valid(sys.cache) && Concludes(true, sys.tokens, m, s.turns, n, Response(true, json))
    ensures exists r: TokenJson ::
              Brings(true, r, json) && Exchange(sys, m, origin, s).cache == Set(sys.cache, Entry(origin, r, s), s.now)
  {
    SuccessDelivers(true, sys.tokens, m, s.turns, n, json, s.url);
    var r := Concluded(true, sys.tokens, m, s.turns, s.url).value;
    assert Brings(true, r, json) && Exchange(sys, m, origin, s).cache == Set(sys.cache, Entry(origin, r, s), s.now);
  }

  lemma LoginEntryHolds(c: ClientKeys.Config, o: ClientKeys.Options, r: TokenJson, json: TokenJson, s: Setting)
    requires Brings(true, r, json)
    ensures HoldsResponse(Entry(FromLogin(c, o), r, s), c.clientId, json, s)
    ensures KeyOf(Entry(FromLogin(c, o), r, s)) == ClientKeys.LookupKey(c, ClientKeys.SilentRequest(c, o))
  {
    ClientKeys.LoginKeyCoherent(c, o, r, ClientKeys.ViaIframe, r.(clientId := None), s.exp, s.user);
  }

  /**
   * After a login whose code exchange was answered with tokens, the page's cache holds them: under the key that the
   * next silent call looks up there is a complete entry with exactly the response's access token.
   */
  lemma LoginStoresResponse(events: seq<Event>, c: ClientKeys.Config, o: ClientKeys.Options, s: Setting, n: nat,
                            json: TokenJson)
    requires var sys := Run(events);
             && |Tries(true, sys.tokens, CodeMessage(FromLogin(c, o), s), s.turns)| == n + 1 <= |s.turns|
             && s.turns[n].fetched == Response(true, json)
    ensures var st := Run(events + [ExchangeCode(FromLogin(c, o), s)]).cache;
            var k := ToKey(ClientKeys.LookupKey(c, ClientKeys.SilentRequest(c, o)));
            exists e ::
              HoldsResponse(e, c.clientId, json, s) && CacheRuns.Held(st, k, Wrapped(Full(e), ExpiresAt(e, s.now)))
  {
    var origin := FromLogin(c, o);
    var sys := Run(events);
    assert (events + [ExchangeCode(origin, s)])[..|events|] == events;
    ListsItsKeys(events);
    OwnRequestSends(true, sys.tokens, CodeMessage(origin, s), s.turns, n);
    ExchangeStores(sys, CodeMessage(origin, s), origin, s, n, json);
    var r: TokenJson :| Brings(true, r, json) &&
      Exchange(sys, CodeMessage(origin, s), origin, s).cache == Set(sys.cache, Entry(origin, r, s), s.now);
    LoginEntryHolds(c, o, r, json, s);
    CacheRuns.SetHolds(sys.cache, Entry(origin, r, s), s.now);
  }

  lemma RefreshEntryHolds(c: ClientKeys.Config, o: ClientKeys.Options, r: TokenJson, json: TokenJson, s: Setting)
    requires Brings(true, r, json) && (json.clientId.Some? ==> json.clientId.value == c.clientId)
    ensures var e := Entry(FromSilent(c, ClientKeys.SilentRequest(c, o), ClientKeys.ViaRefresh), r, s);
            && HoldsResponse(e, c.clientId, json, s)
            && KeyOf(e) == ClientKeys.LookupKey(c, ClientKeys.SilentRequest(c, o))
  {
    ClientKeys.SilentKeyCoherent(c, o, ClientKeys.ViaRefresh, r, s.exp, s.user);
  }

  lemma RefreshHeld(sys: System, m: Message, c: ClientKeys.Config, o: ClientKeys.Options, s: Setting, n: nat,
                    json: TokenJson)
    requires Valid(sys.cache) && sys.cache.manifestKey == None
    requires Concludes(true, sys.tokens, m, s.turns, n, Response(true, json))
    requires json.clientId.Some? ==> json.clientId.value == c.clientId
    ensures var origin := FromSilent(c, ClientKeys.SilentRequest(c, o), ClientKeys.ViaRefresh);
            var k := ToKey(ClientKeys.LookupKey(c, ClientKeys.SilentRequest(c, o)));
            Valid(Exchange(sys, m, origin, s).cache) &&
            exists e :: HoldsResponse(e, c.clientId, json, s)
              && CacheRuns.Held(Exchange(sys, m, origin, s).cache, k, Wrapped(Full(e), ExpiresAt(e, s.now)))
  {
    var origin := FromSilent(c, ClientKeys.SilentRequest(c, o), ClientKeys.ViaRefresh);
    ExchangeStores(sys, m, origin, s, n, json);
    var r: TokenJson :|
      Brings(true, r, json) && Exchange(sys, m, origin, s).cache == Set(sys.cache, Entry(origin, r, s), s.now);
    RefreshEntryHolds(c, o, r, json, s);
    CacheRuns.SetHolds(sys.cache, Entry(origin, r, s), s.now);
  }

  lemma RunOfRefresh(events: seq<Event>, e: Event)
    requires e.ExchangeRefreshToken? && e.found < |Run(events).seen|
    ensures var sys := Run(events);
            Run(events + [e]) ==
            Exchange(sys, GrantMessage(sys, e), FromSilent(e.c, e.r, ClientKeys.ViaRefresh), e.setting)
  {
    assert (events + [e])[..|events|] == events;
  }

  /** So it is after a refresh grant that sent a token and was answered with tokens for this client. */
  lemma RefreshStoresResponse(events: seq<Event>, c: ClientKeys.Config, o: ClientKeys.Options, found: nat, s: Setting,
                              n: nat, json: TokenJson)
    requires found < |Run(events).seen| && (json.clientId.Some? ==> json.clientId.value == c.clientId)
    requires var sys := Run(events);
             var e := ExchangeRefreshToken(c, ClientKeys.SilentRequest(c, o), found, s);
             Concludes(true, sys.tokens, GrantMessage(sys, e), s.turns, n, Response(true, json))
    ensures var st := Run(events + [ExchangeRefreshToken(c, ClientKeys.SilentRequest(c, o), found, s)]).cache;
            var k := ToKey(ClientKeys.LookupKey(c, ClientKeys.SilentRequest(c, o)));
            exists e ::
              HoldsResponse(e, c.clientId, json, s) && CacheRuns.Held(st, k, Wrapped(Full(e), ExpiresAt(e, s.now)))
  {
    var event := ExchangeRefreshToken(c, ClientKeys.SilentRequest(c, o), found, s);
    RunOfRefresh(events, event);
    ListsItsKeys(events);
    RefreshHeld(Run(events), GrantMessage(Run(events), event), c, o, s, n, json);
  }

  /** Hence `getUser` finds the user until the entry expires, unless an empty audience option overrides the client's. */
  lemma LoginAuthenticates(events: seq<Event>, c: ClientKeys.Config, o: ClientKeys.Options, s: Setting,
                           json: TokenJson, e: CacheEntry, now: real)
    requires var st := Run(events).cache;
             CacheRuns.Held(st, ToKey(ClientKeys.LookupKey(c, ClientKeys.SilentRequest(c, o))),
                            Wrapped(Full(e), ExpiresAt(e, s.now)))
    requires HoldsResponse(e, c.clientId, json, s) && !Expired(Wrapped(Full(e), ExpiresAt(e, s.now)), 0.0, now)
    requires o.audience.Present? && !Truthy(o.audience.value) ==> ClientKeys.AudienceOrDefault(c.audience) == "default"
    ensures CacheRuns.IsAuthenticated(Run(events).cache, ClientKeys.UserKey(c, o), now)
    ensures Get(Run(events).cache, ClientKeys.UserKey(c, o), 0.0, now).1 == Some(Full(e)) && e.user == s.user
  {
    ClientKeys.UserKeyCoherent(c, o);
    CacheRuns.HeldServes(Run(events).cache, ClientKeys.UserKey(c, o), Wrapped(Full(e), ExpiresAt(e, s.now)), 0.0, now);
  }
}
