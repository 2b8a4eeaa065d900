/**
 * From the network to the caller: what a token request sends, and what each kind of response comes to, through
 * src/worker/token.worker.ts, src/worker/worker.utils.ts, src/http.ts and the refresh grant, with a worker or without.
 */
module Responses {
  import opened Wrappers
  import opened Strings
  import opened Worker
  import opened Http
  import opened RefreshGrant

  // ----- what is sent -----

  /** The page's own request: no refresh grant, or one that brings its own token. */
  predicate OwnRequest(m: Message) {
    m.body.Ok? && (m.body.value.grantType != "refresh_token" || Truthy(m.body.value.refreshToken))
  }

  /** Whatever the worker holds, such a request goes out as it is. */
  lemma OwnRequestGoesOut(tokens: Tokens, m: Message)
    requires OwnRequest(m)
    ensures Receive(tokens, m) == Outgoing(m.body.value)
  {
  }

  /** In every attempt, whatever the worker holds or does meanwhile, it sends exactly its own body. */
  lemma {:induction false} OwnRequestSends(worker: bool, tokens: Tokens, m: Message, turns: seq<Turn>, i: nat)
    requires OwnRequest(m) && i < |Tries(worker, tokens, m, turns)|
    ensures Tries(worker, tokens, m, turns)[i].sent == [m.body.value]
    decreases |turns|
  {
    var try := Once(worker, tokens, m, turns[0]);
    OwnRequestGoesOut(RunFrom(tokens, turns[0].before), m);
    if i > 0 {
      OwnRequestSends(worker, try.tokens, m, turns[1..], i - 1);
    }
  }

  /** A refresh grant with a cached token sends that token in every attempt, with or without a worker. */
  lemma CachedTokenSent(worker: bool, tokens: Tokens, audience: string, scope: string, cached: Option<string>,
                        others: map<string, string>, turns: seq<Turn>, i: nat)
    requires Truthy(cached)
    requires var m := RefreshMessage(audience, scope, cached, others);
             i < |Attempts(worker, tokens, m, cached, turns)|
    ensures var m := RefreshMessage(audience, scope, cached, others);
            && Attempts(worker, tokens, m, cached, turns) == Tries(worker, tokens, m, turns)
            && Tries(worker, tokens, m, turns)[i].sent == [RequestBody("refresh_token", cached, others)]
  {
    OwnRequestSends(worker, tokens, RefreshMessage(audience, scope, cached, others), turns, i);
  }

  /** A refresh grant makes attempts exactly when there is a cached token or a worker; otherwise the iframe follows. */
  lemma AttemptsExactly(worker: bool, tokens: Tokens, m: Message, cached: Option<string>, turns: seq<Turn>, url: string)
    requires turns != []
    ensures Attempts(worker, tokens, m, cached, turns) != [] <==> worker || Truthy(cached)
    ensures !worker && !Truthy(cached) ==> Outcome(Attempts(worker, tokens, m, cached, turns), url) == Iframe
  {
    RetriesExactly(worker, tokens, m, turns);
  }

  // ----- what comes back -----

  /** The last attempt, when its request went out. */
  ghost predicate Concludes(worker: bool, tokens: Tokens, m: Message, turns: seq<Turn>, n: nat, fetched: Fetched) {
    var tries := Tries(worker, tokens, m, turns);
    |tries| == n + 1 && n < |turns| && turns[n].fetched == fetched && (worker ==> tries[n].sent != [])
  }

  /** What a settled fetch comes to on the page: the worker's reply does not depend on the tokens that it holds. */
  function Arrives(worker: bool, m: Message, fetched: Fetched): Attempt {
    if worker then Delivered(Settle(map[], m, fetched).1) else Direct(fetched)
  }

  lemma SettledAttempt(worker: bool, tokens: Tokens, m: Message, turn: Turn)
    requires worker ==> Once(worker, tokens, m, turn).sent != []
    ensures Once(worker, tokens, m, turn).attempt == Arrives(worker, m, turn.fetched)
  {
  }

  lemma ConcludedAttempt(worker: bool, tokens: Tokens, m: Message, turns: seq<Turn>, n: nat, fetched: Fetched)
    requires Concludes(worker, tokens, m, turns, n, fetched)
    ensures Tries(worker, tokens, m, turns)[n].attempt == Arrives(worker, m, fetched)
  {
    TryAt(worker, tokens, m, turns, n);
    var t :| Tries(worker, tokens, m, turns)[n] == Once(worker, t, m, turns[n]);
    SettledAttempt(worker, t, m, turns[n]);
  }

  function Concluded(worker: bool, tokens: Tokens, m: Message, turns: seq<Turn>, url: string): Result<TokenJson, Error>
    requires turns != []
  {
    var tries := Tries(worker, tokens, m, turns);
    Conclude(tries[|tries| - 1].attempt, url)
  }

  /** What reaches the caller are the response's own members, but that a worker keeps the refresh token. */
  predicate Brings(worker: bool, r: TokenJson, json: TokenJson) {
    && r.accessToken == json.accessToken && r.idToken == json.idToken
    && r.expiresIn == json.expiresIn && r.clientId == json.clientId
    && (if worker then !Truthy(r.refreshToken) else r.refreshToken == json.refreshToken)
    && r.error == None && r.errorDescription == None
  }

  lemma SuccessDelivers(worker: bool, tokens: Tokens, m: Message, turns: seq<Turn>, n: nat, json: TokenJson,
                        url: string)
    requires Concludes(worker, tokens, m, turns, n, Response(true, json))
    ensures var r := Concluded(worker, tokens, m, turns, url); r.Ok? && Brings(worker, r.value, json)
  {
    ConcludedAttempt(worker, tokens, m, turns, n, Response(true, json));
  }

  /** The error that a response without success comes to. */
  predicate Reports(e: Error, json: TokenJson, url: string) {
    && e.Message() == (if Truthy(json.errorDescription) then json.errorDescription.value
                       else "HTTP error. Unable to fetch " + url)
    && (e.MfaRequired? <==> json.error == Some("mfa_required"))
    && !e.Plain?
    && (e.Generic? ==> e.error == if Truthy(json.error) then json.error.value else "request_error")
  }

  lemma ErrorReported(worker: bool, tokens: Tokens, m: Message, turns: seq<Turn>, n: nat, json: TokenJson, url: string)
    requires Concludes(worker, tokens, m, turns, n, Response(false, json))
    ensures var r := Concluded(worker, tokens, m, turns, url); r.Err? && Reports(r.error, json, url)
  {
    ConcludedAttempt(worker, tokens, m, turns, n, Response(false, json));
  }

  /** The refresh grant falls back to the iframe exactly on the two descriptions that it looks for. */
  lemma ErrorRouted(worker: bool, tokens: Tokens, m: Message, turns: seq<Turn>, n: nat, json: TokenJson, url: string)
    requires Concludes(worker, tokens, m, turns, n, Response(false, json)) && Truthy(json.errorDescription)
    ensures var outcome := Outcome(Tries(worker, tokens, m, turns), url);
            if json.errorDescription.value == "The web worker is missing the refresh token"
               || Contains(json.errorDescription.value, "invalid refresh token")
            then outcome == Iframe
            else outcome.Failed? && Reports(outcome.error, json, url)
  {
    ErrorReported(worker, tokens, m, turns, n, json, url);
  }

  /** A granted refresh brings the response's own tokens. */
  lemma SuccessGranted(worker: bool, tokens: Tokens, m: Message, turns: seq<Turn>, n: nat, json: TokenJson, url: string)
    requires Concludes(worker, tokens, m, turns, n, Response(true, json))
    ensures var outcome := Outcome(Tries(worker, tokens, m, turns), url);
            outcome.Granted? && Brings(worker, outcome.json, json)
  {
    SuccessDelivers(worker, tokens, m, turns, n, json, url);
  }

  /** Without a worker a network failure at the last turn surfaces with its message, or a stock one if it has none. */
  lemma DirectFailureSurfaces(tokens: Tokens, m: Message, turns: seq<Turn>, n: nat, message: string, url: string)
    requires Concludes(false, tokens, m, turns, n, NetworkError(message))
          || Concludes(false, tokens, m, turns, n, Unreadable(message))
    ensures |turns| == n + 1
    ensures Concluded(false, tokens, m, turns, url) == Err(Plain(if message != "" then message else "Failed to fetch"))
  {
    RetriesExactly(false, tokens, m, turns);
    if Concludes(false, tokens, m, turns, n, NetworkError(message)) {
      ConcludedAttempt(false, tokens, m, turns, n, NetworkError(message));
    } else {
      ConcludedAttempt(false, tokens, m, turns, n, Unreadable(message));
    }
  }

  lemma DirectTimeoutSurfaces(tokens: Tokens, m: Message, turns: seq<Turn>, n: nat, url: string)
    requires Concludes(false, tokens, m, turns, n, TimedOut)
    ensures |turns| == n + 1 && Concluded(false, tokens, m, turns, url) == Err(Plain("Timeout when executing 'fetch'"))
  {
    RetriesExactly(false, tokens, m, turns);
    ConcludedAttempt(false, tokens, m, turns, n, TimedOut);
  }

  /** The error that a worker's caught exception comes to: a request error with the exception's message. */
  predicate Caught(r: Result<TokenJson, Error>, message: string, url: string) {
    r == Err(Generic("request_error", if message != "" then message else "HTTP error. Unable to fetch " + url))
  }

  /** Through a worker an unreadable response is not retried: it surfaces as a request error. */
  lemma UnreadableThroughWorker(tokens: Tokens, m: Message, turns: seq<Turn>, n: nat, message: string, url: string)
    requires Concludes(true, tokens, m, turns, n, Unreadable(message))
    ensures Caught(Concluded(true, tokens, m, turns, url), message, url)
  {
    ConcludedAttempt(true, tokens, m, turns, n, Unreadable(message));
  }

  /** So does a body that the worker cannot parse, after one message and without a fetch. */
  lemma UnparsableBody(tokens: Tokens, m: Message, turns: seq<Turn>, url: string)
    requires turns != [] && m.body.Err?
    ensures var tries := Tries(true, tokens, m, turns);
            |tries| == 1 && Requests(tries) == [] && Caught(Concluded(true, tokens, m, turns, url), m.body.error, url)
  {
    var try := Once(true, tokens, m, turns[0]);
    assert Tries(true, tokens, m, turns) == [try] && [try][1..] == [];
  }

  /** An empty network message is not retried through a worker: the reply has no `json`, and reading it fails. */
  lemma EmptyMessageThroughWorker(tokens: Tokens, m: Message, turns: seq<Turn>, n: nat, url: string)
    requires Concludes(true, tokens, m, turns, n, NetworkError(""))
    ensures Concluded(true, tokens, m, turns, url) == Err(Plain(NO_JSON_MESSAGE))
  {
    ConcludedAttempt(true, tokens, m, turns, n, NetworkError(""));
  }

  /** Conversely, only a successful response succeeds. */
  lemma SuccessExactly(worker: bool, tokens: Tokens, m: Message, turns: seq<Turn>, url: string)
    requires turns != []
    ensures var n := |Tries(worker, tokens, m, turns)| - 1;
            0 <= n < |turns| &&
            (Concluded(worker, tokens, m, turns, url).Ok? <==>
             turns[n].fetched.Response? && turns[n].fetched.ok &&
             (worker ==> Tries(worker, tokens, m, turns)[n].sent != []))
  {
    RetriesExactly(worker, tokens, m, turns);
    var n := |Tries(worker, tokens, m, turns)| - 1;
    TryAt(worker, tokens, m, turns, n);
    var t :| Tries(worker, tokens, m, turns)[n] == Once(worker, t, m, turns[n]);
    OnceSucceeds(worker, t, m, turns[n], url);
  }

  lemma OnceSucceeds(worker: bool, tokens: Tokens, m: Message, turn: Turn, url: string)
    ensures Conclude(Once(worker, tokens, m, turn).attempt, url).Ok? <==>
            turn.fetched.Response? && turn.fetched.ok && (worker ==> Once(worker, tokens, m, turn).sent != [])
  {
  }

  // ----- the worker's side of it -----

  lemma {:induction false} RunFromAppend(tokens: Tokens, a: seq<Event>, b: seq<Event>)
    ensures RunFrom(tokens, a + b) == RunFrom(RunFrom(tokens, a), b)
    decreases |b|
  {
    if b == [] {
      assert a + b == a;
    } else {
      var init := b[..|b| - 1];
      RunFromAppend(tokens, a, init);
      assert (a + b)[..|a + b| - 1] == a + init;
    }
  }

  /** All that happens in the worker during one attempt, its own settled response included. */
  function History(tokens: Tokens, m: Message, turn: Turn): seq<Event> {
    turn.before +
    (if Receive(RunFrom(tokens, turn.before), m).Early? then [] else turn.during + [Settled(m, turn.fetched)])
  }

  /** After an attempt the worker holds what that history leaves, so all that holds of histories holds of the loop. */
  lemma AttemptIsHistory(tokens: Tokens, m: Message, turn: Turn)
    ensures Once(true, tokens, m, turn).tokens == RunFrom(tokens, History(tokens, m, turn))
  {
    var own := [Settled(m, turn.fetched)];
    RunFromAppend(tokens, turn.before, turn.during + own);
    RunFromAppend(RunFrom(tokens, turn.before), turn.during, own);
    assert own[..0] == [];
    assert turn.before + [] == turn.before;
  }
}
