/**
 * src/worker/token.worker.ts: the message handler that keeps refresh tokens away from the page. The handler is cut at
 * its one wait, the fetch, because other messages may run there.
 */
module Worker {
  import opened Wrappers
  import opened Strings

  const MISSING_REFRESH_TOKEN := "The web worker is missing the refresh token"
  const TIMEOUT := "Timeout when executing 'fetch'"

  /** The decoded token request: the two members that the worker looks at, and all others. */
  datatype RequestBody = RequestBody(grantType: string, refreshToken: Option<string>, others: map<string, string>)

  /** A message from the page; a body that does not parse carries the parser's error message. */
  datatype Message = Message(audience: string, scope: string, body: Result<RequestBody, string>)

  /** The members of a token endpoint response that this SDK looks at. */
  datatype TokenJson = TokenJson(
    accessToken: string, idToken: string, expiresIn: real, refreshToken: Option<string>, clientId: Option<string>,
    error: Option<string>, errorDescription: Option<string>)

  function ErrorJson(description: string): TokenJson {
    TokenJson("", "", 0.0, None, None, None, Some(description))
  }

  /** What the race of fetch and timeout, and then the parse of the response, can come to. */
  datatype Fetched =
    | NetworkError(message: string)
    | TimedOut
    | Unreadable(message: string)
    | Response(ok: bool, json: TokenJson)

  /** What is posted back: `{error}`, or `{ok, json}`. */
  datatype Reply = Rejection(error: string) | Answer(ok: bool, json: TokenJson)

  /** The handler up to its wait: an early answer, or the request that goes out. */
  datatype Receipt = Early(reply: Reply) | Outgoing(request: RequestBody)

  type Tokens = map<string, string>

  function Key(audience: string, scope: string): string {
    audience + "|" + scope
  }

  function Stored(tokens: Tokens, audience: string, scope: string): Option<string> {
    var k := Key(audience, scope);
    if k in tokens then Some(tokens[k]) else None
  }

  /** The first half of `messageHandler`. */
  function Receive(tokens: Tokens, m: Message): Receipt {
    if m.body.Err? then Early(Answer(false, ErrorJson(m.body.error)))
    else
      var body := m.body.value;
      if !Truthy(body.refreshToken) && body.grantType == "refresh_token" then
        var token := Stored(tokens, m.audience, m.scope);
        if !Truthy(token) then Early(Answer(false, ErrorJson(MISSING_REFRESH_TOKEN)))
        else Outgoing(body.(refreshToken := token))
      else Outgoing(body)
  }

  /** The second half of `messageHandler`. */
  function Settle(tokens: Tokens, m: Message, fetched: Fetched): (Tokens, Reply) {
    match fetched
    case NetworkError(message) => (tokens, Rejection(message))
    case TimedOut => (tokens, Rejection(TIMEOUT))
    case Unreadable(message) => (tokens, Answer(false, ErrorJson(message)))
    case Response(ok, json) =>
      if Truthy(json.refreshToken) then
        (tokens[Key(m.audience, m.scope) := json.refreshToken.value], Answer(ok, json.(refreshToken := None)))
      else
        (tokens - {Key(m.audience, m.scope)}, Answer(ok, json))
  }

  class TokenWorker {
    var refreshTokens: Tokens

    constructor ()
      ensures refreshTokens == map[]
    {
      refreshTokens := map[];
    }

    method GetRefreshToken(audience: string, scope: string) returns (token: Option<string>)
      ensures token == Stored(refreshTokens, audience, scope)
    {
      var k := Key(audience, scope);
      token := if k in refreshTokens then Some(refreshTokens[k]) else None;
    }

    method SetRefreshToken(token: string, audience: string, scope: string)
      modifies this
      ensures refreshTokens == old(refreshTokens)[Key(audience, scope) := token]
    {
      refreshTokens := refreshTokens[Key(audience, scope) := token];
    }

    method DeleteRefreshToken(audience: string, scope: string)
      modifies this
      ensures refreshTokens == old(refreshTokens) - {Key(audience, scope)}
    {
      refreshTokens := refreshTokens - {Key(audience, scope)};
    }

    method ReceiveMessage(m: Message) returns (receipt: Receipt)
      ensures receipt == Receive(refreshTokens, m)
    {
      if m.body.Err? {
        return Early(Answer(false, ErrorJson(m.body.error)));
      }
      var body := m.body.value;
      if !Truthy(body.refreshToken) && body.grantType == "refresh_token" {
        var token := GetRefreshToken(m.audience, m.scope);
        if !Truthy(token) {
          return Early(Answer(false, ErrorJson(MISSING_REFRESH_TOKEN)));
        }
        body := body.(refreshToken := token);
      }
      return Outgoing(body);
    }

    method SettleMessage(m: Message, fetched: Fetched) returns (reply: Reply)
      modifies this
      ensures (refreshTokens, reply) == Settle(old(refreshTokens), m, fetched)
    {
      match fetched
      case NetworkError(message) =>
        return Rejection(message);
      case TimedOut =>
        return Rejection(TIMEOUT);
      case Unreadable(message) =>
        return Answer(false, ErrorJson(message));
      case Response(ok, json) =>
        var posted := json;
        if Truthy(json.refreshToken) {
          SetRefreshToken(json.refreshToken.value, m.audience, m.scope);
          posted := posted.(refreshToken := None);
        } else {
          DeleteRefreshToken(m.audience, m.scope);
        }
        return Answer(ok, posted);
    }

    /** Halves of other messages that the worker runs meanwhile. */
    method RunOthers(events: seq<Event>)
      modifies this
      ensures refreshTokens == RunFrom(old(refreshTokens), events)
    {
      var i := 0;
      while i < |events|
        invariant 0 <= i <= |events|
        invariant refreshTokens == RunFrom(old(refreshTokens), events[..i])
      {
        assert events[..i + 1][..i] == events[..i];
        if events[i].Settled? {
          var _ := SettleMessage(events[i].m, events[i].fetched);
        }
        i := i + 1;
      }
      assert events[..i] == events;
    }
  }

  // ----- no refresh token leaves -----

  /** No posted message carries a refresh token. */
  lemma RepliesCarryNoToken(tokens: Tokens, m: Message, fetched: Fetched)
    ensures var r := Receive(tokens, m); r.Early? && r.reply.Answer? ==> !Truthy(r.reply.json.refreshToken)
    ensures var r := Settle(tokens, m, fetched).1; r.Answer? ==> !Truthy(r.json.refreshToken)
  {
  }

  // ----- the string-keyed map refines a map on pairs -----

  datatype Event = Received(m: Message) | Settled(m: Message, fetched: Fetched)

  function Step(tokens: Tokens, e: Event): Tokens {
    if e.Settled? then Settle(tokens, e.m, e.fetched).0 else tokens
  }

  /** The map after any interleaving of message halves. */
  function RunFrom(tokens: Tokens, events: seq<Event>): Tokens {
    if events == [] then tokens else Step(RunFrom(tokens, events[..|events| - 1]), events[|events| - 1])
  }

  function Run(events: seq<Event>): Tokens {
    RunFrom(map[], events)
  }

  predicate Parsed(e: Event, audience: string, scope: string) {
    e.Settled? && e.fetched.Response? && e.m.audience == audience && e.m.scope == scope
  }

  /** The refresh token of the last parsed response for the pair, or nothing if that response had none. */
  function LastParsed(events: seq<Event>, audience: string, scope: string): Option<string> {
    if events == [] then None
    else
      var e := events[|events| - 1];
      if Parsed(e, audience, scope) then
        (if Truthy(e.fetched.json.refreshToken) then e.fetched.json.refreshToken else None)
      else LastParsed(events[..|events| - 1], audience, scope)
  }

  /** Joined keys tell pairs apart when audiences hold no bar. */
  lemma KeyInjective(a: string, s: string, b: string, t: string)
    requires '|' !in a && '|' !in b && Key(a, s) == Key(b, t)
    ensures a == b && s == t
  {
    FindAfterChar(a, '|', s);
    FindAfterChar(b, '|', t);
    assert Key(a, s)[..|a|] == a && Key(b, t)[..|b|] == b;
    assert Key(a, s)[|a| + 1..] == s && Key(b, t)[|b| + 1..] == t;
  }

  /** A bar in an audience lets two pairs share a key. */
  lemma KeyNotInjective()
    ensures Key("a|b", "c") == Key("a", "b|c") && ("a|b", "c") != ("a", "b|c")
  {
    assert Key("a|b", "c") == "a|b|c" == Key("a", "b|c");
  }

  lemma KeyAlone(a: string, s: string, b: string, t: string)
    requires '|' !in a && '|' !in s && Key(b, t) == Key(a, s)
    ensures b == a && t == s
  {
    assert Key(a, s)[|a|] == '|' && Key(b, t)[|b|] == '|';
    assert forall i :: 0 <= i < |a| ==> Key(a, s)[i] == a[i];
    assert forall i :: |a| < i < |Key(a, s)| ==> Key(a, s)[i] == s[i - |a| - 1];
    assert |b| == |a|;
    KeyInjective(a, s, Key(b, t)[..|b|], t);
  }

  /** Another pair with the same key. */
  lemma KeyRival(a: string, s: string) returns (b: string, t: string)
    requires '|' in a || '|' in s
    ensures Key(b, t) == Key(a, s) && |b| != |a|
  {
    if '|' in a {
      var i :| 0 <= i < |a| && a[i] == '|';
      b, t := a[..i], a[i + 1..] + "|" + s;
      assert a == b + "|" + a[i + 1..];
    } else {
      var i :| 0 <= i < |s| && s[i] == '|';
      b, t := a + "|" + s[..i], s[i + 1..];
      assert s == s[..i] + "|" + t;
    }
  }

  /** A pair has its key to itself exactly when neither its audience nor its scope holds a bar. */
  lemma KeyUnsharedExactly(a: string, s: string)
    ensures (forall b, t :: Key(b, t) == Key(a, s) ==> b == a && t == s) <==> '|' !in a && '|' !in s
  {
    if '|' !in a && '|' !in s {
      forall b, t | Key(b, t) == Key(a, s)
        ensures b == a && t == s
      {
        KeyAlone(a, s, b, t);
      }
    } else {
      var b, t := KeyRival(a, s);
    }
  }

  /** No other pair that shares the key of this one takes part in the run. */
  ghost predicate Unshared(events: seq<Event>, audience: string, scope: string) {
    forall i :: 0 <= i < |events| && Key(events[i].m.audience, events[i].m.scope) == Key(audience, scope) ==>
      events[i].m.audience == audience && events[i].m.scope == scope
  }

  /** So it is wherever audiences hold no bar. */
  lemma NoBarUnshared(events: seq<Event>, audience: string, scope: string)
    requires '|' !in audience && forall i :: 0 <= i < |events| ==> '|' !in events[i].m.audience
    ensures Unshared(events, audience, scope)
  {
    forall i | 0 <= i < |events| && Key(events[i].m.audience, events[i].m.scope) == Key(audience, scope)
      ensures events[i].m.audience == audience && events[i].m.scope == scope
    {
      KeyInjective(events[i].m.audience, events[i].m.scope, audience, scope);
    }
  }

  /**
   * For every pair whose key is its own the worker holds the refresh token of the last parsed response for it, or
   * nothing if that had none: missing tokens, network errors, timeouts, unreadable responses and other pairs change
   * nothing.
   */
  lemma {:induction false} RefinesPairs(events: seq<Event>, audience: string, scope: string)
    requires Unshared(events, audience, scope)
    ensures Stored(Run(events), audience, scope) == LastParsed(events, audience, scope)
  {
    if events != [] {
      RefinesPairs(events[..|events| - 1], audience, scope);
    }
  }

  function Granted(token: string): TokenJson {
    TokenJson("", "", 0.0, Some(token), None, None, None)
  }

  function Granting(audience: string, scope: string, token: string): Event {
    var m := Message(audience, scope, Ok(RequestBody("authorization_code", None, map[])));
    Settled(m, Response(true, Granted(token)))
  }

  /** One response for a pair puts its token under every pair of the same key. */
  lemma GrantShared(b: string, t: string, audience: string, scope: string, token: string)
    requires Key(b, t) == Key(audience, scope) && token != "" && (b != audience || t != scope)
    ensures Stored(Run([Granting(b, t, token)]), audience, scope) == Some(token)
    ensures LastParsed([Granting(b, t, token)], audience, scope) == None
  {
    assert [Granting(b, t, token)][..0] == [];
  }

  /** The map refines the map on pairs, for one pair and over all runs, exactly when neither text holds a bar. */
  lemma RefinesExactly(audience: string, scope: string)
    ensures (forall events :: Stored(Run(events), audience, scope) == LastParsed(events, audience, scope)) <==>
            '|' !in audience && '|' !in scope
  {
    if '|' !in audience && '|' !in scope {
      forall events
        ensures Stored(Run(events), audience, scope) == LastParsed(events, audience, scope)
      {
        KeyUnsharedExactly(audience, scope);
        RefinesPairs(events, audience, scope);
      }
    } else {
      var b, t := KeyRival(audience, scope);
      GrantShared(b, t, audience, scope, "t");
    }
  }

  /** The worker never holds an empty token. */
  lemma {:induction false} HeldTokensTruthy(tokens: Tokens, events: seq<Event>)
    requires forall k :: k in tokens ==> tokens[k] != ""
    ensures forall k :: k in RunFrom(tokens, events) ==> RunFrom(tokens, events)[k] != ""
  {
    if events != [] {
      HeldTokensTruthy(tokens, events[..|events| - 1]);
    }
  }
}
