/** `_getTokenUsingRefreshToken` of src/AuctoritasClient.ts: which failures lead to the iframe, and which surface. */
module RefreshGrant {
  import opened Wrappers
  import opened Strings
  import opened Worker
  import opened Http

  const INVALID_REFRESH_TOKEN := "invalid refresh token"

  datatype Grant = Iframe | Failed(error: Error) | Granted(json: TokenJson)

  /** The guards of the `catch` clause. */
  predicate FallsBack(message: string) {
    message == MISSING_REFRESH_TOKEN || Contains(message, INVALID_REFRESH_TOKEN)
  }

  function RefreshMessage(audience: string, scope: string, cached: Option<string>, others: map<string, string>): Message
  {
    Message(audience, scope, Ok(RequestBody("refresh_token", cached, others)))
  }

  function Route(result: Result<TokenJson, Error>): Grant {
    match result
    case Ok(json) => Granted(json)
    case Err(e) => if FallsBack(e.Message()) then Iframe else Failed(e)
  }

  /** The tries that one call makes; `cached` is the refresh token in the cache, if any. */
  function Attempts(worker: bool, tokens: Tokens, m: Message, cached: Option<string>, turns: seq<Turn>): seq<Try> {
    if !Truthy(cached) && !worker then [] else Tries(worker, tokens, m, turns)
  }

  function Outcome(tries: seq<Try>, url: string): Grant {
    if tries == [] then Iframe else Route(Conclude(tries[|tries| - 1].attempt, url))
  }

  method TokenUsingRefreshToken(worker: TokenWorker?, url: string, audience: string, scope: string,
                                cached: Option<string>, others: map<string, string>, turns: seq<Turn>)
    returns (grant: Grant, messages: nat, sent: seq<RequestBody>)
    requires |turns| == RETRY_COUNT
    modifies worker
    ensures var tokens := if worker != null then old(worker.refreshTokens) else map[];
            var m := RefreshMessage(audience, scope, cached, others);
            var tries := Attempts(worker != null, tokens, m, cached, turns);
            && grant == Outcome(tries, url) && messages == |tries| && sent == Requests(tries)
            && (worker != null ==> tries != [] && worker.refreshTokens == tries[|tries| - 1].tokens)
  {
    if !Truthy(cached) && worker == null {
      return Iframe, 0, [];
    }
    var result;
    result, messages, sent := GetJson(worker, url, RefreshMessage(audience, scope, cached, others), turns);
    grant := Route(result);
  }

  // ----- end to end -----

  /** Worker mode: the page holds no refresh token of its own. */
  predicate WorkerRequest(m: Message) {
    m.body.Ok? && m.body.value.grantType == "refresh_token" && !Truthy(m.body.value.refreshToken)
  }

  /** Nothing that happens around the attempt touches the pair of `m`. */
  ghost predicate Quiet(turn: Turn, m: Message) {
    forall e :: (e in turn.before || e in turn.during) && e.Settled? && e.fetched.Response? ==>
      Key(e.m.audience, e.m.scope) != Key(m.audience, m.scope)
  }

  lemma {:induction false} QuietKeeps(tokens: Tokens, events: seq<Event>, m: Message)
    requires forall e :: e in events && e.Settled? && e.fetched.Response? ==>
               Key(e.m.audience, e.m.scope) != Key(m.audience, m.scope)
    ensures Stored(RunFrom(tokens, events), m.audience, m.scope) == Stored(tokens, m.audience, m.scope)
  {
    if events != [] {
      QuietKeeps(tokens, events[..|events| - 1], m);
    }
  }

  /** A token missing from the worker leads to the iframe after one message and without any fetch. */
  lemma MissingTokenFallsBack(tokens: Tokens, m: Message, turns: seq<Turn>, url: string)
    requires turns != [] && WorkerRequest(m)
    requires !Truthy(Stored(RunFrom(tokens, turns[0].before), m.audience, m.scope))
    ensures var tries := Tries(true, tokens, m, turns);
            |tries| == 1 && Requests(tries) == [] && Outcome(tries, url) == Iframe
  {
    var try := Once(true, tokens, m, turns[0]);
    assert try.attempt == Resolved(false, ErrorJson(MISSING_REFRESH_TOKEN)) && try.sent == [];
    assert Tries(true, tokens, m, turns) == [try];
    assert [try][1..] == [];
  }

  predicate Unreachable(fetched: Fetched) {
    fetched.TimedOut? || (fetched.NetworkError? && fetched.message != "")
  }

  function FetchMessage(fetched: Fetched): string {
    if fetched.NetworkError? then fetched.message else TIMEOUT
  }

  function Repeat<T>(x: T, n: nat): (r: seq<T>)
    ensures |r| == n
  {
    if n == 0 then [] else [x] + Repeat(x, n - 1)
  }

  /** One attempt while the network fails: it carries the stored token, which stays. */
  lemma OneTryFails(tokens: Tokens, m: Message, turn: Turn, token: string)
    requires WorkerRequest(m) && token != "" && Stored(tokens, m.audience, m.scope) == Some(token)
    requires Quiet(turn, m) && Unreachable(turn.fetched)
    ensures var try := Once(true, tokens, m, turn);
            && try.attempt == Rejected(FetchMessage(turn.fetched))
            && try.sent == [m.body.value.(refreshToken := Some(token))]
            && Stored(try.tokens, m.audience, m.scope) == Some(token)
  {
    QuietKeeps(tokens, turn.before, m);
    QuietKeeps(RunFrom(tokens, turn.before), turn.during, m);
  }

  lemma TriesAfter(tokens: Tokens, m: Message, turns: seq<Turn>)
    requires turns != [] && Once(true, tokens, m, turns[0]).attempt.Rejected?
    ensures var try := Once(true, tokens, m, turns[0]);
            var rest := Tries(true, try.tokens, m, turns[1..]);
            Tries(true, tokens, m, turns) == [try] + rest && Requests([try] + rest) == try.sent + Requests(rest)
  {
    var try := Once(true, tokens, m, turns[0]);
    var rest := Tries(true, try.tokens, m, turns[1..]);
    assert ([try] + rest)[1..] == rest;
  }

  /** While the network fails every attempt, all turns are used and each carries the same stored token. */
  lemma {:induction false} AllTriesFail(tokens: Tokens, m: Message, turns: seq<Turn>, token: string)
    requires turns != [] && WorkerRequest(m) && token != "" && Stored(tokens, m.audience, m.scope) == Some(token)
    requires forall i :: 0 <= i < |turns| ==> Quiet(turns[i], m) && Unreachable(turns[i].fetched)
    ensures var tries := Tries(true, tokens, m, turns);
            && |tries| == |turns|
            && Requests(tries) == Repeat(m.body.value.(refreshToken := Some(token)), |turns|)
            && tries[|tries| - 1].attempt == Rejected(FetchMessage(turns[|turns| - 1].fetched))
    decreases |turns|
  {
    OneTryFails(tokens, m, turns[0], token);
    TriesAfter(tokens, m, turns);
    var try := Once(true, tokens, m, turns[0]);
    var tries, rest := Tries(true, tokens, m, turns), Tries(true, try.tokens, m, turns[1..]);
    assert tries == [try] + rest;
    if |turns| > 1 {
      AllTriesFail(try.tokens, m, turns[1..], token);
      assert tries[|tries| - 1] == rest[|rest| - 1];
    } else {
      assert rest == [];
    }
  }

  /**
   * Repeated network failures make three attempts with the same stored token, and then surface with the last message,
   * or fall back when that message happens to be one that the `catch` clause looks for.
   */
  lemma NetworkFailuresSurface(tokens: Tokens, m: Message, turns: seq<Turn>, token: string, url: string)
    requires |turns| == RETRY_COUNT && WorkerRequest(m)
    requires token != "" && Stored(tokens, m.audience, m.scope) == Some(token)
    requires forall i :: 0 <= i < |turns| ==> Quiet(turns[i], m) && Unreachable(turns[i].fetched)
    ensures var tries, message := Tries(true, tokens, m, turns), FetchMessage(turns[2].fetched);
            && |tries| == 3
            && Requests(tries) == Repeat(m.body.value.(refreshToken := Some(token)), 3)
            && Outcome(tries, url) == if FallsBack(message) then Iframe else Failed(Plain(message))
  {
    AllTriesFail(tokens, m, turns, token);
  }

  /** An HTTP error response ends the loop wherever it comes: nothing is sent after it, with or without a worker. */
  lemma HttpErrorEndsLoop(worker: bool, tokens: Tokens, m: Message, turns: seq<Turn>, i: nat, url: string)
    requires i < |turns| && turns[i].fetched.Response? && !turns[i].fetched.ok
    ensures var tries := Tries(worker, tokens, m, turns);
            && |tries| <= i + 1
            && (|tries| == i + 1 && (!worker || tries[i].sent != []) ==>
                  && tries[i].attempt.Resolved? && !tries[i].attempt.ok
                  && Conclude(tries[i].attempt, url).Err?)
  {
    TryAt(worker, tokens, m, turns, i);
  }

  lemma {:induction false} TryAt(worker: bool, tokens: Tokens, m: Message, turns: seq<Turn>, i: nat)
    requires i < |turns|
    ensures var tries := Tries(worker, tokens, m, turns);
            i < |tries| ==> exists t :: tries[i] == Once(worker, t, m, turns[i])
    ensures var tries := Tries(worker, tokens, m, turns);
            i + 1 < |tries| ==> tries[i].attempt.Rejected?
    decreases i
  {
    var try := Once(worker, tokens, m, turns[0]);
    if i > 0 && try.attempt.Rejected? {
      TryAt(worker, try.tokens, m, turns[1..], i - 1);
      assert Tries(worker, tokens, m, turns) == [try] + Tries(worker, try.tokens, m, turns[1..]);
      assert turns[1..][i - 1] == turns[i];
    }
  }
}
