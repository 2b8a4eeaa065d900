/**
 * src/transaction-manager.ts with the steps of src/AuctoritasClient.ts that use it: `buildAuthorizeUrl` creates a
 * transaction, `handleRedirectCallback` consumes it, a page reload starts over from storage.
 */
module Transactions {
  import opened Wrappers
  import opened Strings
  import opened Percent
  import QueryString

  datatype Transaction = Transaction(
    nonce: string, codeVerifier: string, scope: string, audience: string, redirectUri: string,
    organizationId: Option<string>)

  const STORAGE_KEY_PREFIX := "a0.spajs.txs"

  /** A storage that keeps values until they are removed, as session storage does. */
  class ClientStorage {
    var items: map<string, Transaction>

    constructor ()
      ensures items == map[]
    {
      items := map[];
    }

    method Get(key: string) returns (value: Option<Transaction>)
      ensures value == if key in items then Some(items[key]) else None
    {
      value := if key in items then Some(items[key]) else None;
    }

    method Save(key: string, value: Transaction)
      modifies this
      ensures items == old(items)[key := value]
    {
      items := items[key := value];
    }

    method Remove(key: string)
      modifies this
      ensures items == old(items) - {key}
    {
      items := items - {key};
    }
  }

  class TransactionManager {
    const storage: ClientStorage
    const storageKey: string
    var transaction: Option<Transaction>

    /** The memory field mirrors the storage. */
    ghost predicate Valid()
      reads this, storage
    {
      transaction == if storageKey in storage.items then Some(storage.items[storageKey]) else None
    }

    /** Also what a page reload does: whatever was stored is picked up again. */
    constructor (storage: ClientStorage, clientId: string)
      ensures Valid() && this.storage == storage && storageKey == "a0.spajs.txs" + "." + clientId
    {
      this.storage := storage;
      this.storageKey := STORAGE_KEY_PREFIX + "." + clientId;
      new;
      var stored := storage.Get(storageKey);
      transaction := stored;
    }

    method Create(t: Transaction)
      modifies this, storage
      ensures Valid() && transaction == Some(t)
      ensures storage.items == old(storage.items)[storageKey := t]
    {
      transaction := Some(t);
      storage.Save(storageKey, t);
    }

    method Get() returns (t: Option<Transaction>)
      ensures t == transaction
    {
      t := transaction;
    }

    method Remove()
      modifies this, storage
      ensures Valid() && transaction == None
      ensures storage.items == old(storage.items) - {storageKey}
    {
      transaction := None;
      storage.Remove(storageKey);
    }

    /** The part of `handleRedirectCallback` before the exchange. */
    method HandleRedirectCallback(url: string) returns (outcome: Outcome)
      requires Valid()
      modifies this, storage
      ensures Valid()
      ensures (transaction, outcome) == Consume(old(transaction), url)
      ensures storage.items ==
              if outcome.Exchange? || outcome.ServerError? then old(storage.items) - {storageKey}
              else old(storage.items)
    {
      var queryStringFragments := Split(url, "?")[1..];
      if |queryStringFragments| == 0 {
        return NothingToParse;
      }
      var parsed := QueryString.ParseQueryResult(Join(queryStringFragments, ""));
      if parsed.None? {
        return Malformed;
      }
      var t := Get();
      if t.None? || t.value.codeVerifier == "" {
        return InvalidState;
      }
      Remove();
      if Truthy(Field(parsed.value, "error")) {
        return ServerError(Field(parsed.value, "error").value);
      }
      return Exchange(Field(parsed.value, "code"), t.value);
    }
  }

  /** What a callback comes to; `Malformed` is the `URIError` of a broken escape. */
  datatype Outcome =
    | NothingToParse
    | Malformed
    | InvalidState
    | ServerError(error: string)
    | Exchange(code: Option<string>, transaction: Transaction)

  /** The text of a parsed member, or `undefined`. */
  function Field(o: QueryString.Object, k: string): Option<string> {
    if k in o then Some(o[k].text) else None
  }

  /** What a callback with parsed members comes to. */
  function Received(memory: Option<Transaction>, parsed: QueryString.Object): (r: (Option<Transaction>, Outcome))
    ensures r.1.Exchange? ==> r.0 == None && memory == Some(r.1.transaction)
    ensures r.1.ServerError? ==> r.0 == None
    ensures !r.1.Exchange? && !r.1.ServerError? ==> r.0 == memory
  {
    if memory.None? || memory.value.codeVerifier == "" then (memory, InvalidState)
    else if Truthy(Field(parsed, "error")) then (None, ServerError(Field(parsed, "error").value))
    else (None, Exchange(Field(parsed, "code"), memory.value))
  }

  function Consume(memory: Option<Transaction>, url: string): (r: (Option<Transaction>, Outcome))
    ensures r.1.Exchange? ==> r.0 == None && memory == Some(r.1.transaction)
    ensures r.1.ServerError? ==> r.0 == None
    ensures !r.1.Exchange? && !r.1.ServerError? ==> r.0 == memory
  {
    var fragments := Split(url, "?")[1..];
    if fragments == [] then (memory, NothingToParse)
    else
      var parsed := QueryString.Parse(Join(fragments, ""));
      if parsed.None? then (memory, Malformed) else Received(memory, parsed.value)
  }

  // ----- what the server sends back -----

  /** What a callback URL comes to, by its query. */
  lemma OutcomeExactly(memory: Option<Transaction>, base: string, q: string)
    requires '?' !in base && '?' !in q
    ensures Consume(memory, base) == (memory, NothingToParse)
    ensures var (after, outcome) := Consume(memory, base + "?" + q);
            var parsed := QueryString.Parse(q);
            && (outcome.Malformed? <==> parsed.None?)
            && (outcome.InvalidState? <==> parsed.Some? && !Usable(memory))
            && (outcome.ServerError? <==> parsed.Some? && Usable(memory) && Truthy(Field(parsed.value, "error")))
            && (outcome.ServerError? ==> Some(outcome.error) == Field(parsed.value, "error"))
            && (outcome.Exchange? <==> parsed.Some? && Usable(memory) && !Truthy(Field(parsed.value, "error")))
            && (outcome.Exchange? ==>
                  outcome.code == Field(parsed.value, "code") && Some(outcome.transaction) == memory)
            && after == if outcome.ServerError? || outcome.Exchange? then None else memory
  {
    SplitWithout(base);
    assert [base][1..] == [];
    ConsumeQuery(memory, base, q);
  }

  predicate Usable(memory: Option<Transaction>) {
    memory.Some? && memory.value.codeVerifier != ""
  }

  lemma SplitWithout(base: string)
    requires '?' !in base
    ensures Split(base, "?") == [base]
  {
    NotContainsChar(base, '?');
    SplitWhole(base, "?");
  }

  lemma SplitTwice(base: string, q: string, r: string)
    requires '?' !in base && '?' !in q && '?' !in r
    ensures Split(base + "?" + q + "?" + r, "?") == [base, q, r]
  {
    SplitUrl(q, r);
    var rest := q + "?" + r;
    assert base + "?" + q + "?" + r == base + "?" + rest;
    FindAfterChar(base, '?', rest);
    SplitPeel(base, "?", rest);
  }

  /** A second question mark is no part of the query. */
  lemma SecondMarkUnseen(memory: Option<Transaction>, base: string, q: string, r: string)
    requires '?' !in base && '?' !in q && '?' !in r
    ensures Consume(memory, base + "?" + q + "?" + r) == Consume(memory, base + "?" + (q + r))
  {
    SplitTwice(base, q, r);
    SplitUrl(base, q + r);
    assert [base, q, r][1..] == [q, r] && [base, q + r][1..] == [q + r];
    assert Join([q, r], "") == q + "" + r == q + r == Join([q + r], "");
  }

  lemma CreatedWithout(params: QueryString.Members, c: char)
    requires QueryString.BytePairs(QueryString.Defined(params))
    requires !Plain(c) && c != '%' && c != '=' && c != '&'
    ensures c !in QueryString.CreateQueryParams(params)
  {
    var ps := QueryString.Defined(params);
    forall i | 0 <= i < |ps|
      ensures c !in QueryString.Fields(ps)[i]
    {
      EncodeFacts(ps[i].0);
      EncodeFacts(ps[i].1);
    }
    QueryString.JoinFree(QueryString.Fields(ps), c);
  }

  lemma SplitUrl(base: string, query: string)
    requires '?' !in base && '?' !in query
    ensures Split(base + "?" + query, "?") == [base, query]
  {
    FindAfterChar(base, '?', query);
    SplitPeel(base, "?", query);
    NotContainsChar(query, '?');
    SplitWhole(query, "?");
  }

  lemma ConsumeQuery(memory: Option<Transaction>, base: string, query: string)
    requires '?' !in base && '?' !in query
    ensures Consume(memory, base + "?" + query) ==
            var parsed := QueryString.Parse(query);
            if parsed.None? then (memory, Malformed) else Received(memory, parsed.value)
  {
    SplitUrl(base, query);
    assert Split(base + "?" + query, "?")[1..] == [query];
  }

  lemma ReceivedCode(base: string, query: string, sent: QueryString.Object, t: Transaction, code: string)
    requires '?' !in base && '?' !in query && t.codeVerifier != ""
    requires QueryString.Parse(query) == Some(sent)
    requires !Truthy(Field(sent, "error")) && Field(sent, "code") == Some(code)
    ensures Consume(Some(t), base + "?" + query) == (None, Exchange(Some(code), t))
  {
    ConsumeQuery(Some(t), base, query);
  }

  /** A redirect back with created parameters, a code among them and no error, exchanges that code. */
  lemma RedirectRoundTrip(base: string, params: QueryString.Members, t: Transaction, code: string)
    requires '?' !in base && t.codeVerifier != ""
    requires var ps := QueryString.Defined(params);
             && QueryString.BytePairs(ps) && ps != [] && QueryString.KeysPlain(ps)
             && QueryString.NoExpiry(ps)
             && !Truthy(Field(QueryString.Sent(ps), "error"))
             && Field(QueryString.Sent(ps), "code") == Some(code)
    ensures Consume(Some(t), base + "?" + QueryString.CreateQueryParams(params)) == (None, Exchange(Some(code), t))
  {
    var query := QueryString.CreateQueryParams(params);
    CreatedWithout(params, '?');
    QueryString.RoundTrip(params);
    ReceivedCode(base, query, QueryString.Sent(QueryString.Defined(params)), t, code);
  }

  // ----- runs -----

  datatype Event = Created(t: Transaction) | CalledBack(url: string) | Reloaded

  /** The memory field, the stored transaction, and what each callback came to. */
  datatype State = State(memory: Option<Transaction>, stored: Option<Transaction>)

  function Step(st: State, e: Event): State {
    match e
    case Created(t) => State(Some(t), Some(t))
    case Reloaded => State(st.stored, st.stored)
    case CalledBack(url) =>
      var (memory, outcome) := Consume(st.memory, url);
      State(memory, if outcome.Exchange? || outcome.ServerError? then None else st.stored)
  }

  function Run(events: seq<Event>): State {
    if events == [] then State(None, None) else Step(Run(events[..|events| - 1]), events[|events| - 1])
  }

  /** Event `i` is a callback that leads to a code exchange with transaction `t`. */
  predicate ExchangesAt(events: seq<Event>, i: int, t: Transaction) {
    && 0 <= i < |events| && events[i].CalledBack?
    && var outcome := Consume(Run(events[..i]).memory, events[i].url).1;
       outcome.Exchange? && outcome.transaction == t
  }

  /** Event `c` is the latest creation before event `i`, of transaction `t`. */
  ghost predicate LatestCreate(events: seq<Event>, c: int, i: int, t: Transaction) {
    && 0 <= c < i <= |events| && events[c] == Created(t)
    && forall j :: c < j < i ==> !events[j].Created?
  }

  ghost predicate NoExchangeSince(events: seq<Event>, c: int, i: int) {
    forall j, t :: c < j < i ==> !ExchangesAt(events, j, t)
  }

  /** Memory and storage agree after every run. */
  lemma {:induction false} MemoryMirrorsStorage(events: seq<Event>)
    ensures Run(events).memory == Run(events).stored
  {
    if events != [] {
      MemoryMirrorsStorage(events[..|events| - 1]);
    }
  }

  lemma ExchangeMemory(events: seq<Event>, i: int, t: Transaction)
    requires ExchangesAt(events, i, t)
    ensures Run(events[..i]).memory == Some(t)
  {
  }

  /** What an event comes to depends on the events before it alone. */
  lemma ExchangesInPrefix(events: seq<Event>, i: int, j: int, t: Transaction)
    requires 0 <= j < i <= |events|
    ensures ExchangesAt(events[..i], j, t) <==> ExchangesAt(events, j, t)
  {
    assert events[..i][..j] == events[..j];
  }

  /** An exchange leaves nothing pending. */
  lemma ExchangeConsumes(events: seq<Event>, t: Transaction)
    requires events != [] && ExchangesAt(events, |events| - 1, t)
    ensures Run(events).memory == None
  {
  }

  lemma NoExchangeInPrefix(events: seq<Event>, c: int, i: int)
    requires 0 <= c < i <= |events| && NoExchangeSince(events[..i], c, i)
    ensures NoExchangeSince(events, c, i)
  {
    forall j, u | c < j < i
      ensures !ExchangesAt(events, j, u)
    {
      ExchangesInPrefix(events, i, j, u);
    }
  }

  ghost predicate NoExchangeAt(events: seq<Event>, i: int) {
    forall t :: !ExchangesAt(events, i, t)
  }

  lemma NoExchangeNow(events: seq<Event>, i: int)
    requires 0 <= i == |events| - 1 && Run(events).memory.Some?
    ensures NoExchangeAt(events, i)
  {
    forall t
      ensures !ExchangesAt(events, i, t)
    {
      if ExchangesAt(events, i, t) {
        ExchangeConsumes(events, t);
      }
    }
  }

  lemma NoExchangeLonger(events: seq<Event>, c: int, i: int)
    requires NoExchangeSince(events, c, i) && NoExchangeAt(events, i)
    ensures NoExchangeSince(events, c, i + 1)
  {
    forall j, t | c < j < i + 1
      ensures !ExchangesAt(events, j, t)
    {
      assert j < i || j == i;
    }
  }

  lemma StillPending(init: seq<Event>, e: Event)
    requires !e.Created? && Run(init).memory == Run(init).stored && Run(init + [e]).memory.Some?
    ensures Run(init).memory == Run(init + [e]).memory
  {
    assert (init + [e])[..|init|] == init;
  }

  /** A pending transaction is the latest one created, with no exchange since. */
  lemma {:induction false} PendingIsLatest(events: seq<Event>)
    ensures var m := Run(events).memory;
            m.Some? ==>
              exists c :: LatestCreate(events, c, |events|, m.value) && NoExchangeSince(events, c, |events|)
  {
    if events != [] && Run(events).memory.Some? {
      var init, e := events[..|events| - 1], events[|events| - 1];
      assert events == init + [e];
      if e.Created? {
        assert LatestCreate(events, |init|, |events|, Run(events).memory.value);
      } else {
        MemoryMirrorsStorage(init);
        StillPending(init, e);
        PendingIsLatest(init);
        var c :| LatestCreate(init, c, |init|, Run(init).memory.value) && NoExchangeSince(init, c, |init|);
        assert LatestCreate(events, c, |events|, Run(init).memory.value);
        assert events[..|init|] == init;
        NoExchangeInPrefix(events, c, |init|);
        NoExchangeNow(events, |init|);
        NoExchangeLonger(events, c, |init|);
      }
    }
  }

  lemma PendingBefore(events: seq<Event>, i: int, t: Transaction)
    requires 0 <= i <= |events| && Run(events[..i]).memory == Some(t)
    ensures exists c :: LatestCreate(events, c, i, t) && NoExchangeSince(events, c, i)
  {
    var before := events[..i];
    PendingIsLatest(before);
    var c :| LatestCreate(before, c, i, t) && NoExchangeSince(before, c, i);
    assert LatestCreate(events, c, i, t);
    NoExchangeInPrefix(events, c, i);
  }

  /** Each exchange uses the transaction of the latest create, and no exchange lies between the two. */
  lemma ExchangeUsesLatest(events: seq<Event>, i: int, t: Transaction)
    requires ExchangesAt(events, i, t)
    ensures exists c :: LatestCreate(events, c, i, t) && NoExchangeSince(events, c, i)
  {
    ExchangeMemory(events, i, t);
    PendingBefore(events, i, t);
  }

  /** Two exchanges never stem from one create. */
  lemma OneExchangePerCreate(events: seq<Event>, i: int, j: int, c: int, t: Transaction, u: Transaction)
    requires ExchangesAt(events, i, t) && ExchangesAt(events, j, u)
    requires LatestCreate(events, c, i, t) && LatestCreate(events, c, j, u)
    ensures i == j
  {
    ExchangeUsesLatest(events, i, t);
    ExchangeUsesLatest(events, j, u);
    SameLatest(events, c, i, t);
    SameLatest(events, c, j, u);
  }

  lemma SameLatest(events: seq<Event>, c: int, i: int, t: Transaction)
    requires ExchangesAt(events, i, t) && LatestCreate(events, c, i, t)
    ensures NoExchangeSince(events, c, i)
  {
    ExchangeUsesLatest(events, i, t);
    var d :| LatestCreate(events, d, i, t) && NoExchangeSince(events, d, i);
    assert c == d;
  }

  // ----- exactly when a transaction is pending -----

  /** Event `i` is a callback that used the transaction up, in an exchange or an error. */
  predicate ConsumesAt(events: seq<Event>, i: int) {
    && 0 <= i < |events| && events[i].CalledBack?
    && var outcome := Consume(Run(events[..i]).memory, events[i].url).1;
       outcome.Exchange? || outcome.ServerError?
  }

  /** `c` created `t`, and since then nothing else was created and nothing used up. */
  ghost predicate Untouched(events: seq<Event>, c: int, t: Transaction) {
    && 0 <= c < |events| && events[c] == Created(t)
    && forall j :: c < j < |events| ==> !events[j].Created? && !ConsumesAt(events, j)
  }

  lemma ConsumesInPrefix(init: seq<Event>, e: Event, j: int)
    requires 0 <= j < |init|
    ensures ConsumesAt(init + [e], j) <==> ConsumesAt(init, j)
  {
    assert (init + [e])[..j] == init[..j];
  }

  lemma UntouchedLonger(init: seq<Event>, e: Event, c: int, t: Transaction)
    requires c < |init|
    ensures Untouched(init + [e], c, t) <==>
            Untouched(init, c, t) && !e.Created? && !ConsumesAt(init + [e], |init|)
  {
    var events := init + [e];
    assert events[|init|] == e && forall j :: 0 <= j < |init| ==> events[j] == init[j];
    forall j | 0 <= j < |init|
      ensures ConsumesAt(events, j) <==> ConsumesAt(init, j)
    {
      ConsumesInPrefix(init, e, j);
    }
    if Untouched(events, c, t) {
      assert forall j :: c < j < |init| ==> !events[j].Created? && !ConsumesAt(events, j);
    }
  }

  lemma StepMemory(init: seq<Event>, e: Event)
    requires Run(init).memory == Run(init).stored
    ensures Run(init + [e]).memory ==
            if e.Created? then Some(e.t) else if ConsumesAt(init + [e], |init|) then None else Run(init).memory
  {
    assert (init + [e])[..|init|] == init;
  }

  /** A transaction is pending exactly if it is untouched since its creation: vain callbacks and reloads keep it. */
  lemma {:induction false} PendingExactly(events: seq<Event>, t: Transaction)
    ensures Run(events).memory == Some(t) <==> exists c :: Untouched(events, c, t)
  {
    if events != [] {
      var init, e := events[..|events| - 1], events[|events| - 1];
      assert events == init + [e];
      MemoryMirrorsStorage(init);
      StepMemory(init, e);
      PendingExactly(init, t);
      forall c | c < |init|
        ensures Untouched(events, c, t) <==> Untouched(init, c, t) && !e.Created? && !ConsumesAt(events, |init|)
      {
        UntouchedLonger(init, e, c, t);
      }
      assert Untouched(events, |init|, t) <==> e == Created(t);
    }
  }
}
