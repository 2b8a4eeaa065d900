/** src/http.ts and src/worker/worker.utils.ts: one token request, with its retries and its error classes. */
module Http {
  import opened Wrappers
  import opened Worker

  const RETRY_COUNT := 3

  datatype Error =
    | Plain(message: string)
    | Generic(error: string, description: string)
    | MfaRequired(description: string)
  {
    /** `e.message` */
    function Message(): string {
      match this
      case Plain(m) => m
      case Generic(_, d) => d
      case MfaRequired(d) => d
    }
  }

  /** How one awaited `switchFetch` ends; `NoJson` is what an empty worker error resolves to. */
  datatype Attempt = Rejected(message: string) | Resolved(ok: bool, json: TokenJson) | NoJson

  /** Reading a member of the missing `json` throws; the wording is the JavaScript engine's. */
  const NO_JSON_MESSAGE := "Cannot destructure property 'error' of undefined"

  /** `sendMessage`: a reply with a non-empty `error` rejects, any other resolves. */
  function Delivered(reply: Reply): Attempt {
    match reply
    case Rejection(e) => if e != "" then Rejected(e) else NoJson
    case Answer(ok, json) => Resolved(ok, json)
  }

  /** `fetchWithoutWorker`: an unreadable response rejects too. */
  function Direct(fetched: Fetched): Attempt {
    match fetched
    case NetworkError(message) => Rejected(message)
    case TimedOut => Rejected(TIMEOUT)
    case Unreadable(message) => Rejected(message)
    case Response(ok, json) => Resolved(ok, json)
  }

  /** `getJSON` after its loop, from the last attempt. */
  function Conclude(last: Attempt, url: string): Result<TokenJson, Error> {
    match last
    case Rejected(message) => Err(Plain(if message != "" then message else "Failed to fetch"))
    case NoJson => Err(Plain(NO_JSON_MESSAGE))
    case Resolved(ok, json) =>
      if ok then Ok(json.(error := None, errorDescription := None))
      else
        var message := Or(json.errorDescription, "HTTP error. Unable to fetch " + url);
        if json.error == Some("mfa_required") then Err(MfaRequired(message))
        else Err(Generic(Or(json.error, "request_error"), message))
  }

  /** The surroundings of one attempt: what else the worker does before and during it, and what the network does. */
  datatype Turn = Turn(before: seq<Event>, during: seq<Event>, fetched: Fetched)

  datatype Try = Try(tokens: Tokens, attempt: Attempt, sent: seq<RequestBody>)

  function Once(worker: bool, tokens: Tokens, m: Message, turn: Turn): Try {
    if !worker then Try(tokens, Direct(turn.fetched), if m.body.Ok? then [m.body.value] else [])
    else
      var t := RunFrom(tokens, turn.before);
      match Receive(t, m)
      case Early(reply) => Try(t, Delivered(reply), [])
      case Outgoing(request) =>
        var (t', reply) := Settle(RunFrom(t, turn.during), m, turn.fetched);
        Try(t', Delivered(reply), [request])
  }

  /** The tries of the loop: go on after a rejection, stop at anything else. */
  function Tries(worker: bool, tokens: Tokens, m: Message, turns: seq<Turn>): seq<Try>
    decreases |turns|
  {
    if turns == [] then []
    else
      var try := Once(worker, tokens, m, turns[0]);
      [try] + (if try.attempt.Rejected? then Tries(worker, try.tokens, m, turns[1..]) else [])
  }

  function Requests(tries: seq<Try>): seq<RequestBody> {
    if tries == [] then [] else tries[0].sent + Requests(tries[1..])
  }

  /** `getJSON`; also counts the messages or fetches it made and collects the requests that went out. */
  method GetJson(worker: TokenWorker?, url: string, m: Message, turns: seq<Turn>)
    returns (result: Result<TokenJson, Error>, messages: nat, sent: seq<RequestBody>)
    requires |turns| == RETRY_COUNT
    modifies worker
    ensures var tries := Tries(worker != null, if worker != null then old(worker.refreshTokens) else map[], m, turns);
            && messages == |tries| > 0
            && sent == Requests(tries)
            && result == Conclude(tries[|tries| - 1].attempt, url)
            && (worker != null ==> worker.refreshTokens == tries[|tries| - 1].tokens)
  {
    var fetchError, response;
    fetchError, response, messages, sent := FetchLoop(worker, m, turns);
    if fetchError.Some? {
      return Conclude(Rejected(fetchError.value), url), messages, sent;
    }
    result := Conclude(response, url);
  }

  /** The loop of `getJSON`: at the end either `fetchError` is set or `response` is the resolved attempt. */
  method FetchLoop(worker: TokenWorker?, m: Message, turns: seq<Turn>)
    returns (fetchError: Option<string>, response: Attempt, messages: nat, sent: seq<RequestBody>)
    requires |turns| == RETRY_COUNT
    modifies worker
    ensures var tries := Tries(worker != null, if worker != null then old(worker.refreshTokens) else map[], m, turns);
            && messages == |tries| > 0
            && sent == Requests(tries)
            && tries[|tries| - 1].attempt == (if fetchError.Some? then Rejected(fetchError.value) else response)
            && (worker != null ==> worker.refreshTokens == tries[|tries| - 1].tokens)
  {
    ghost var start := if worker != null then worker.refreshTokens else map[];
    ghost var now, made := start, [];
    fetchError, response, messages, sent := None, NoJson, 0, [];
    assert turns[0..] == turns;
    while messages < RETRY_COUNT
      invariant messages <= RETRY_COUNT && sent == Requests(made)
      invariant now == if worker != null then worker.refreshTokens else map[]
      invariant AllRejected(worker != null, start, m, turns, made, now, messages, fetchError)
    {
      ghost var try := Once(worker != null, now, m, turns[messages]);
      var attempt, out := SwitchFetch(worker, m, turns[messages]);
      RejectOrStop(worker != null, start, m, turns, made, now, messages, fetchError, try);
      made, now := made + [try], try.tokens;
      messages, sent := messages + 1, sent + out;
      if !attempt.Rejected? {
        response := attempt;
        fetchError := None;
        return;
      }
      fetchError := Some(attempt.message);
    }
  }

  /** `made` are the first `n` tries; all were rejected, the last with `error`, and they leave the worker at `now`. */
  ghost predicate AllRejected(worker: bool, start: Tokens, m: Message, turns: seq<Turn>,
                              made: seq<Try>, now: Tokens, n: nat, error: Option<string>)
  {
    && n <= |turns| && |made| == n
    && Tries(worker, start, m, turns) == made + Tries(worker, now, m, turns[n..])
    && (made != [] ==> error.Some? && made[n - 1].attempt == Rejected(error.value) && now == made[n - 1].tokens)
    && (n == |turns| ==> Tries(worker, start, m, turns) == made)
  }

  lemma RejectOrStop(worker: bool, start: Tokens, m: Message, turns: seq<Turn>,
                     made: seq<Try>, now: Tokens, n: nat, error: Option<string>, try: Try)
    requires AllRejected(worker, start, m, turns, made, now, n, error) && n < |turns|
    requires try == Once(worker, now, m, turns[n])
    ensures Requests(made + [try]) == Requests(made) + try.sent
    ensures if try.attempt.Rejected? then
              AllRejected(worker, start, m, turns, made + [try], try.tokens, n + 1, Some(try.attempt.message))
            else
              Tries(worker, start, m, turns) == made + [try]
  {
    TriesUnfold(worker, now, m, turns, n);
    RequestsSnoc(made, try);
    Regroup(made, try, Tries(worker, try.tokens, m, turns[n + 1..]));
    Regroup(made, try, []);
  }

  lemma Regroup(made: seq<Try>, try: Try, rest: seq<Try>)
    ensures made + ([try] + rest) == (made + [try]) + rest
    ensures rest == [] ==> (made + [try]) + rest == made + [try]
  {
  }

  lemma TriesUnfold(worker: bool, tokens: Tokens, m: Message, turns: seq<Turn>, i: nat)
    requires i < |turns|
    ensures var try := Once(worker, tokens, m, turns[i]);
            Tries(worker, tokens, m, turns[i..]) ==
            if try.attempt.Rejected? then [try] + Tries(worker, try.tokens, m, turns[i + 1..]) else [try]
  {
    assert turns[i..][0] == turns[i] && turns[i..][1..] == turns[i + 1..];
  }

  lemma {:induction false} RequestsSnoc(tries: seq<Try>, try: Try)
    ensures Requests(tries + [try]) == Requests(tries) + try.sent
  {
    if tries == [] {
      assert [try][1..] == [];
    } else {
      assert (tries + [try])[1..] == tries[1..] + [try];
      RequestsSnoc(tries[1..], try);
    }
  }

  method SwitchFetch(worker: TokenWorker?, m: Message, turn: Turn) returns (attempt: Attempt, sent: seq<RequestBody>)
    modifies worker
    ensures var try := Once(worker != null, if worker != null then old(worker.refreshTokens) else map[], m, turn);
            attempt == try.attempt && sent == try.sent && (worker != null ==> worker.refreshTokens == try.tokens)
  {
    if worker == null {
      return Direct(turn.fetched), if m.body.Ok? then [m.body.value] else [];
    }
    worker.RunOthers(turn.before);
    var receipt := worker.ReceiveMessage(m);
    if receipt.Early? {
      return Delivered(receipt.reply), [];
    }
    worker.RunOthers(turn.during);
    var reply := worker.SettleMessage(m, turn.fetched);
    return Delivered(reply), [receipt.request];
  }

  // ----- the retry loop -----

  /** Every attempt but the last was rejected, and the loop stops early only at one that was not. */
  lemma {:induction false} RetriesExactly(worker: bool, tokens: Tokens, m: Message, turns: seq<Turn>)
    requires turns != []
    ensures var tries := Tries(worker, tokens, m, turns);
            && 0 < |tries| <= |turns|
            && (forall i :: 0 <= i < |tries| - 1 ==> tries[i].attempt.Rejected?)
            && (|tries| < |turns| ==> !tries[|tries| - 1].attempt.Rejected?)
    decreases |turns|
  {
    if |turns| > 1 && Once(worker, tokens, m, turns[0]).attempt.Rejected? {
      RetriesExactly(worker, Once(worker, tokens, m, turns[0]).tokens, m, turns[1..]);
    }
  }

  /** An attempt is retried exactly when the request went out and the network, not the server, failed it. */
  lemma RejectedExactly(worker: bool, tokens: Tokens, m: Message, turn: Turn)
    ensures Once(worker, tokens, m, turn).attempt.Rejected? <==>
            if worker then
              Receive(RunFrom(tokens, turn.before), m).Outgoing? &&
              (turn.fetched.TimedOut? || (turn.fetched.NetworkError? && turn.fetched.message != ""))
            else !turn.fetched.Response?
  {
  }
}
