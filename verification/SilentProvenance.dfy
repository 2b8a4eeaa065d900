/** Which token a caller of `getTokenSilently` receives, over all interleavings of `SilentToken`. */
module SilentProvenance {
  import opened Wrappers
  import opened Colons
  import opened CacheKeys
  import opened CacheModel
  import opened ClientKeys
  import opened SilentToken
  import CacheRuns
  import Worker
  import KeyAmbiguity
  import PromiseUtils

  // ----- the shared cache goes through a run of cache operations -----

  /** What a step does to the cache. */
  function StepOps(st: State, e: Event): (ops: seq<CacheRuns.Op>)
    requires Enabled(st, e)
    ensures |ops| <= 1
  {
    match e
    case CheckFirst(r, now) => [CacheRuns.DoGet(st.runs[r].Key(), 60.0, now)]
    case CheckSecond(r, now) => [CacheRuns.DoGet(st.runs[r].Key(), 60.0, now)]
    case LookForRefreshToken(r, _, now) =>
      [CacheRuns.DoGet(LookupKey(st.runs[r].c, RefreshRequest(st.runs[r].c, st.runs[r].request)), 0.0, now)]
    case Store(r, now) => [CacheRuns.DoSet(st.runs[r].phase.entry, now)]
    case OtherSet(entry, now) => [CacheRuns.DoSet(entry, now)]
    case OtherGet(key, adjustment, now) => [CacheRuns.DoGet(key, adjustment, now)]
    case OtherClear => [CacheRuns.DoClear]
    case _ => []
  }

  lemma StepCache(st: State, e: Event)
    requires Inv(st) && Enabled(st, e)
    ensures var ops := StepOps(st, e);
            Next(st, e).cache == if ops == [] then st.cache else CacheRuns.Apply(st.cache, ops[0])
  {
  }

  lemma {:induction false} ExecSnoc(st: State, events: seq<Event>, e: Event)
    requires Inv(st)
    ensures Exec(st, events + [e]) ==
            var r := Exec(st, events);
            if r.Some? && Enabled(r.value, e) then Some(Next(r.value, e)) else None
    decreases |events|
  {
    var all := events + [e];
    if events == [] {
      assert all[1..] == [];
      if Enabled(st, e) {
        NextInv(st, e);
        assert Exec(Next(st, e), all[1..]) == Some(Next(st, e));
      }
    } else if Enabled(st, events[0]) {
      NextInv(st, events[0]);
      assert all[1..] == events[1..] + [e];
      ExecSnoc(Next(st, events[0]), events[1..], e);
    }
  }

  /** The state after `events`, if each can happen in its turn. */
  ghost function After(owner: Option<string>, events: seq<Event>): (r: Option<State>)
    ensures r.Some? ==> Inv(r.value)
  {
    StartInv(owner);
    Exec(Start(owner), events)
  }

  lemma AfterSnoc(owner: Option<string>, events: seq<Event>, e: Event)
    ensures After(owner, events + [e]) ==
            var r := After(owner, events);
            if r.Some? && Enabled(r.value, e) then Some(Next(r.value, e)) else None
  {
    StartInv(owner);
    ExecSnoc(Start(owner), events, e);
  }

  /** The last event, and the state before it. */
  lemma Before(owner: Option<string>, events: seq<Event>) returns (init: seq<Event>, e: Event, st: State)
    requires events != [] && After(owner, events).Some?
    ensures events == init + [e] && |init| == |events| - 1 && After(owner, init) == Some(st)
    ensures Inv(st) && Enabled(st, e) && After(owner, events) == Some(Next(st, e))
  {
    init, e := events[..|events| - 1], events[|events| - 1];
    AfterSnoc(owner, init, e);
    assert events == init + [e];
    st := After(owner, init).value;
  }

  /** All that `events` do to the cache, in order. */
  ghost function Ops(owner: Option<string>, events: seq<Event>): seq<CacheRuns.Op> {
    if events == [] then []
    else
      var init, e := events[..|events| - 1], events[|events| - 1];
      var r := After(owner, init);
      Ops(owner, init) + (if r.Some? && Enabled(r.value, e) then StepOps(r.value, e) else [])
  }

  lemma OpsSnoc(owner: Option<string>, events: seq<Event>, e: Event, st: State)
    requires After(owner, events) == Some(st) && Enabled(st, e)
    ensures Ops(owner, events + [e]) == Ops(owner, events) + StepOps(st, e)
  {
    assert (events + [e])[..|events|] == events;
  }

  lemma CacheStep(owner: Option<string>, ops: seq<CacheRuns.Op>, st: State, e: Event)
    requires Inv(st) && Enabled(st, e) && st.cache == CacheRuns.Run(owner, ops)
    ensures Next(st, e).cache == CacheRuns.Run(owner, ops + StepOps(st, e))
  {
    StepCache(st, e);
    if StepOps(st, e) == [] {
      assert ops + [] == ops;
    } else {
      assert StepOps(st, e) == [StepOps(st, e)[0]];
      CacheRuns.RunStep(owner, ops, StepOps(st, e)[0]);
    }
  }

  /** In every interleaving the shared cache is that of a run of cache operations: what holds of runs holds of it. */
  lemma {:induction false} CacheIsRun(owner: Option<string>, events: seq<Event>)
    ensures After(owner, events).Some? ==> After(owner, events).value.cache == CacheRuns.Run(owner, Ops(owner, events))
  {
    if events == [] {
      StartInv(owner);
    } else {
      var init, e := events[..|events| - 1], events[|events| - 1];
      assert events == init + [e];
      CacheIsRun(owner, init);
      AfterSnoc(owner, init, e);
      if After(owner, events).Some? {
        var st := After(owner, init).value;
        OpsSnoc(owner, init, e, st);
        CacheStep(owner, Ops(owner, init), st, e);
      }
    }
  }

  /** Other users of the cache look up keys with the default prefix, and the manifest's client id is usable. */
  ghost predicate GoodEvents(owner: Option<string>, events: seq<Event>) {
    && CacheRuns.GoodOwner(owner)
    && forall i :: 0 <= i < |events| && events[i].OtherGet? ==> events[i].key.prefix == PREFIX
  }

  lemma GoodInit(owner: Option<string>, events: seq<Event>, e: Event)
    requires GoodEvents(owner, events + [e])
    ensures GoodEvents(owner, events) && (e.OtherGet? ==> e.key.prefix == PREFIX)
  {
    assert (events + [e])[|events|] == e && forall i :: 0 <= i < |events| ==> (events + [e])[i] == events[i];
  }

  lemma StepOpsGood(st: State, e: Event)
    requires Enabled(st, e) && (e.OtherGet? ==> e.key.prefix == PREFIX)
    ensures forall i :: 0 <= i < |StepOps(st, e)| && StepOps(st, e)[i].DoGet? ==> StepOps(st, e)[i].key.prefix == PREFIX
  {
  }

  lemma GoodAppend(owner: Option<string>, ops: seq<CacheRuns.Op>, more: seq<CacheRuns.Op>)
    requires CacheRuns.GoodOps(owner, ops)
    requires forall i :: 0 <= i < |more| && more[i].DoGet? ==> more[i].key.prefix == PREFIX
    ensures CacheRuns.GoodOps(owner, ops + more)
  {
  }

  lemma {:induction false} OpsGood(owner: Option<string>, events: seq<Event>)
    requires GoodEvents(owner, events)
    ensures CacheRuns.GoodOps(owner, Ops(owner, events))
  {
    if events != [] {
      var init, e := events[..|events| - 1], events[|events| - 1];
      assert events == init + [e];
      GoodInit(owner, init, e);
      OpsGood(owner, init);
      var r := After(owner, init);
      if r.Some? && Enabled(r.value, e) {
        StepOpsGood(r.value, e);
        GoodAppend(owner, Ops(owner, init), StepOps(r.value, e));
      }
    }
  }

  // ----- where a token comes from -----

  /** The run itself exchanged for the token. */
  predicate ByExchange(events: seq<Event>, run: nat, token: string) {
    exists m :: 0 <= m < |events| && events[m].ExchangeSucceeds? && events[m].run == run
             && events[m].json.accessToken == token
  }

  /** After `events` the cache holds the token under a key that answers, in an entry set last and fresh at this time. */
  ghost predicate Cached(owner: Option<string>, events: seq<Event>, key: CacheKey, now: real, token: string) {
    var ops := Ops(owner, events);
    token != "" &&
    exists i :: CacheRuns.Current(owner, ops, i) && ops[i].entry.accessToken == token
             && CacheRuns.Answers(KeyOf(ops[i].entry), key) && !Expired(CacheRuns.StoredAs(ops[i]), 60.0, now)
  }

  predicate IsCheck(e: Event, run: nat) {
    (e.CheckFirst? || e.CheckSecond?) && e.run == run
  }

  /** At one of the run's cache checks the cache held the token. */
  ghost predicate ByCheck(owner: Option<string>, events: seq<Event>, run: nat, key: CacheKey, token: string) {
    exists m :: 0 <= m < |events| && IsCheck(events[m], run)
             && Cached(owner, events[..m], key, Clock(events[m]).value, token)
  }

  ghost predicate Sourced(owner: Option<string>, events: seq<Event>, run: nat, key: CacheKey, token: string) {
    ByExchange(events, run, token) || ByCheck(owner, events, run, key, token)
  }

  lemma SourcedLater(owner: Option<string>, events: seq<Event>, e: Event, run: nat, key: CacheKey, token: string)
    requires Sourced(owner, events, run, key, token)
    ensures Sourced(owner, events + [e], run, key, token)
  {
    var all := events + [e];
    if ByExchange(events, run, token) {
      var m :| 0 <= m < |events| && events[m].ExchangeSucceeds? && events[m].run == run
            && events[m].json.accessToken == token;
      assert all[m] == events[m];
    } else {
      var m :| 0 <= m < |events| && IsCheck(events[m], run)
            && Cached(owner, events[..m], key, Clock(events[m]).value, token);
      assert all[m] == events[m] && all[..m] == events[..m];
    }
  }

  /** The token that a run has got hold of. */
  predicate Carries(p: Phase, token: string) {
    (p.Storing? && p.entry.accessToken == token) || p == Releasing(Token(token)) || p == Finished(Token(token))
  }

  lemma CheckSource(owner: Option<string>, events: seq<Event>, key: CacheKey, now: real, token: string)
    requires GoodEvents(owner, events) && key.prefix == PREFIX && After(owner, events).Some?
    requires Check(After(owner, events).value.cache, key, now).1 == Some(token)
    ensures Cached(owner, events, key, now, token)
  {
    var ops := Ops(owner, events);
    CacheIsRun(owner, events);
    OpsGood(owner, events);
    assert CacheRuns.GoodOps(owner, ops + [CacheRuns.DoGet(key, 60.0, now)]);
    CacheRuns.AccessTokenProvenance(owner, ops, key, 60.0, now);
  }

  lemma CheckedNow(owner: Option<string>, events: seq<Event>, e: Event, run: nat, key: CacheKey, token: string)
    requires IsCheck(e, run) && Cached(owner, events, key, Clock(e).value, token)
    ensures Sourced(owner, events + [e], run, key, token)
  {
    var all := events + [e];
    assert all[|events|] == e && all[..|events|] == events;
    assert ByCheck(owner, all, run, key, token);
  }

  lemma ExchangedNow(owner: Option<string>, events: seq<Event>, e: Event, run: nat, key: CacheKey, token: string)
    requires e.ExchangeSucceeds? && e.run == run && e.json.accessToken == token
    ensures Sourced(owner, events + [e], run, key, token)
  {
    assert (events + [e])[|events|] == e;
    assert ByExchange(events + [e], run, token);
  }

  lemma PhaseCarries(r: Run, e: Event, found: Option<string>, token: string)
    requires OwnMove(e) && Ready(r.phase, e) && Carries(NextPhase(r, e, found), token)
    ensures || Carries(r.phase, token)
            || (e.ExchangeSucceeds? && e.json.accessToken == token)
            || (IsCheck(e, e.run) && found == Some(token))
  {
  }

  /** A run that gets hold of a token in a step of its own had it, exchanged for it, or found it in the cache. */
  lemma MoveCarries(st: State, e: Event, token: string)
    requires Inv(st) && Enabled(st, e) && OwnMove(e) && Carries(Move(st, e).2, token)
    ensures || Carries(st.runs[e.run].phase, token)
            || (e.ExchangeSucceeds? && e.json.accessToken == token)
            || (IsCheck(e, e.run) && Check(st.cache, st.runs[e.run].Key(), Clock(e).value).1 == Some(token))
  {
    PhaseCarries(st.runs[e.run], e, Looked(st.cache, st.runs[e.run], e).1, token);
  }

  lemma OwnMoveOf(st: State, e: Event, run: nat)
    requires Inv(st) && Enabled(st, e) && OwnMove(e) && e.run == run
    ensures run < |st.runs| && Next(st, e).runs == st.runs[run := st.runs[run].(phase := Move(st, e).2)]
  {
    var (cache, lock, phase) := Move(st, e);
    assert Next(st, e) == Moved(st, run, cache, lock, phase);
  }

  /** A run that is new carries no token yet. */
  lemma NewRunCarriesNone(st: State, e: Event, run: nat, token: string)
    requires Inv(st) && Enabled(st, e) && |st.runs| <= run < |Next(st, e).runs|
    ensures !Carries(Next(st, e).runs[run].phase, token)
  {
    if e.Call? {
      JoinedRuns(st, NewRun(e.page, e.c, e.o, e.ignoreCache));
    }
  }

  lemma StepSourced(owner: Option<string>, events: seq<Event>, e: Event, st: State, run: nat, token: string)
    requires GoodEvents(owner, events) && After(owner, events) == Some(st) && Enabled(st, e)
    requires run < |Next(st, e).runs| && Carries(Next(st, e).runs[run].phase, token)
    requires run < |st.runs| && Carries(st.runs[run].phase, token) ==>
               Sourced(owner, events, run, st.runs[run].Key(), token)
    ensures Sourced(owner, events + [e], run, Next(st, e).runs[run].Key(), token)
  {
    if |st.runs| <= run {
      NewRunCarriesNone(st, e, run, token);
    } else if OwnMove(e) && e.run == run {
      OwnMoveOf(st, e, run);
      MoveCarries(st, e, token);
      OwnStepSourced(owner, events, e, st, token);
    } else {
      OthersLeave(st, e, run);
      SourcedLater(owner, events, e, run, st.runs[run].Key(), token);
    }
  }

  lemma OwnStepSourced(owner: Option<string>, events: seq<Event>, e: Event, st: State, token: string)
    requires GoodEvents(owner, events) && After(owner, events) == Some(st) && Enabled(st, e) && OwnMove(e)
    requires || Sourced(owner, events, e.run, st.runs[e.run].Key(), token)
             || (e.ExchangeSucceeds? && e.json.accessToken == token)
             || (IsCheck(e, e.run) && Check(st.cache, st.runs[e.run].Key(), Clock(e).value).1 == Some(token))
    ensures Sourced(owner, events + [e], e.run, st.runs[e.run].Key(), token)
  {
    var key := st.runs[e.run].Key();
    if Sourced(owner, events, e.run, key, token) {
      SourcedLater(owner, events, e, e.run, key, token);
    } else if e.ExchangeSucceeds? {
      ExchangedNow(owner, events, e, e.run, key, token);
    } else {
      CheckSource(owner, events, key, Clock(e).value, token);
      CheckedNow(owner, events, e, e.run, key, token);
    }
  }

  lemma {:induction false} CarriedSourced(owner: Option<string>, events: seq<Event>, run: nat, token: string)
    requires GoodEvents(owner, events) && After(owner, events).Some? && run < |After(owner, events).value.runs|
    requires Carries(After(owner, events).value.runs[run].phase, token)
    ensures Sourced(owner, events, run, After(owner, events).value.runs[run].Key(), token)
    decreases |events|
  {
    if events == [] {
      StartInv(owner);
    } else {
      var init, e, st := Before(owner, events);
      GoodInit(owner, init, e);
      if run < |st.runs| && Carries(st.runs[run].phase, token) {
        CarriedSourced(owner, init, run, token);
      }
      StepSourced(owner, init, e, st, run, token);
    }
  }

  /**
   * In every interleaving, a run that finishes with a token got it from its own exchange, or from a check that found it
   * in the body of the latest set on a key that answers the run's key, not cleared since and fresh by a minute.
   */
  lemma TokenProvenance(owner: Option<string>, events: seq<Event>, run: nat, token: string)
    requires GoodEvents(owner, events) && After(owner, events).Some? && run < |After(owner, events).value.runs|
    requires After(owner, events).value.runs[run].phase == Finished(Token(token))
    ensures Sourced(owner, events, run, After(owner, events).value.runs[run].Key(), token)
  {
    CarriedSourced(owner, events, run, token);
  }

  // ----- what a call starts -----

  /** Event `m` is a call that started run `run`: nobody's flight was there to join. */
  ghost predicate StartedBy(owner: Option<string>, events: seq<Event>, m: int, run: nat) {
    && 0 <= m < |events| && events[m].Call?
    && After(owner, events[..m]).Some? && |After(owner, events[..m]).value.runs| == run
    && After(owner, events[..m + 1]).Some? && |After(owner, events[..m + 1]).value.runs| == run + 1
  }

  /** The run has the page, client and options of the call, and ignores the cache exactly if the call asked for it. */
  predicate AsAsked(r: Run, e: Event) {
    && e.Call? && r.page == e.page && r.c == e.c && r.o == e.o
    && r.request == SilentRequest(e.c, e.o) && r.ignoreCache == e.ignoreCache
  }

  /** Its phase apart, a run never changes. */
  lemma StepKeepsRun(st: State, e: Event, run: nat)
    requires Inv(st) && Enabled(st, e) && run < |st.runs|
    ensures run < |Next(st, e).runs| && Next(st, e).runs[run].(phase := st.runs[run].phase) == st.runs[run]
  {
    if OwnMove(e) && e.run == run {
      OwnMoveOf(st, e, run);
    } else {
      OthersLeave(st, e, run);
    }
  }

  lemma CallStarts(st: State, e: Event)
    requires Inv(st) && e.Call? && |Next(st, e).runs| == |st.runs| + 1
    ensures AsAsked(Next(st, e).runs[|st.runs|], e)
  {
  }

  lemma StartedLast(owner: Option<string>, events: seq<Event>, init: seq<Event>, st: State, run: nat)
    requires events != [] && init == events[..|events| - 1] && StartedBy(owner, events, |init|, run)
    requires After(owner, init) == Some(st) && Enabled(st, events[|init|])
    requires After(owner, events) == Some(Next(st, events[|init|]))
    ensures run < |After(owner, events).value.runs| && AsAsked(After(owner, events).value.runs[run], events[|init|])
  {
    assert events[..|init| + 1] == events;
    CallStarts(st, events[|init|]);
  }

  lemma StartedEarlier(owner: Option<string>, events: seq<Event>, init: seq<Event>, m: int, run: nat)
    requires events != [] && init == events[..|events| - 1] && m < |init| && StartedBy(owner, events, m, run)
    ensures StartedBy(owner, init, m, run)
  {
    assert init[..m] == events[..m] && init[..m + 1] == events[..m + 1];
  }

  lemma {:induction false} StartedAsAsked(owner: Option<string>, events: seq<Event>, m: int, run: nat)
    requires StartedBy(owner, events, m, run) && After(owner, events).Some?
    ensures run < |After(owner, events).value.runs| && AsAsked(After(owner, events).value.runs[run], events[m])
    decreases |events|
  {
    var init, e, st := Before(owner, events);
    if m == |init| {
      StartedLast(owner, events, init, st, run);
    } else {
      StartedEarlier(owner, events, init, m, run);
      StartedAsAsked(owner, init, m, run);
      StepKeepsRun(st, e, run);
    }
  }

  // ----- a call that ignores the cache exchanges -----

  /** A run that ignores the cache is at neither check, and has no token that it did not exchange for. */
  ghost predicate Ignoring(events: seq<Event>, run: nat, p: Phase) {
    !p.FirstCheck? && !p.SecondCheck? && forall t :: Carries(p, t) ==> ByExchange(events, run, t)
  }

  lemma ByExchangeLater(events: seq<Event>, e: Event, run: nat, token: string)
    requires ByExchange(events, run, token)
    ensures ByExchange(events + [e], run, token)
  {
    var m :| 0 <= m < |events| && events[m].ExchangeSucceeds? && events[m].run == run
          && events[m].json.accessToken == token;
    assert (events + [e])[m] == events[m];
  }

  lemma IgnoringStays(events: seq<Event>, e: Event, run: nat, p: Phase)
    requires Ignoring(events, run, p)
    ensures Ignoring(events + [e], run, p)
  {
    forall t | Carries(p, t)
      ensures ByExchange(events + [e], run, t)
    {
      ByExchangeLater(events, e, run, t);
    }
  }

  lemma IgnoringMoves(events: seq<Event>, e: Event, r: Run, found: Option<string>)
    requires OwnMove(e) && Ready(r.phase, e) && r.ignoreCache && Ignoring(events, e.run, r.phase)
    ensures Ignoring(events + [e], e.run, NextPhase(r, e, found))
  {
    var p := NextPhase(r, e, found);
    forall t | Carries(p, t)
      ensures ByExchange(events + [e], e.run, t)
    {
      PhaseCarries(r, e, found, t);
      if Carries(r.phase, t) {
        ByExchangeLater(events, e, e.run, t);
      } else {
        assert (events + [e])[|events|] == e;
      }
    }
  }

  lemma NewRunIgnores(st: State, e: Event, events: seq<Event>, run: nat)
    requires Inv(st) && Enabled(st, e) && |st.runs| <= run < |Next(st, e).runs|
    requires Next(st, e).runs[run].ignoreCache
    ensures Ignoring(events, run, Next(st, e).runs[run].phase)
  {
    forall t
      ensures !Carries(Next(st, e).runs[run].phase, t)
    {
      NewRunCarriesNone(st, e, run, t);
    }
  }

  lemma {:induction false} IgnoringThroughout(owner: Option<string>, events: seq<Event>, run: nat)
    requires After(owner, events).Some? && run < |After(owner, events).value.runs|
    requires After(owner, events).value.runs[run].ignoreCache
    ensures Ignoring(events, run, After(owner, events).value.runs[run].phase)
    decreases |events|
  {
    if events == [] {
      StartInv(owner);
    } else {
      var init, e, st := Before(owner, events);
      if |st.runs| <= run {
        NewRunIgnores(st, e, events, run);
      } else {
        StepKeepsRun(st, e, run);
        IgnoringThroughout(owner, init, run);
        if OwnMove(e) && e.run == run {
          OwnMoveOf(st, e, run);
          IgnoringMoves(init, e, st.runs[run], Looked(st.cache, st.runs[run], e).1);
        } else {
          OthersLeave(st, e, run);
          IgnoringStays(init, e, run, st.runs[run].phase);
        }
      }
    }
  }

  /** In every interleaving, a run that a call started with `ignoreCache` ends only with a token it exchanged for. */
  lemma IgnoringCallExchanges(owner: Option<string>, events: seq<Event>, m: int, run: nat, token: string)
    requires StartedBy(owner, events, m, run) && events[m].ignoreCache
    requires After(owner, events).Some? && run < |After(owner, events).value.runs|
    requires After(owner, events).value.runs[run].phase == Finished(Token(token))
    ensures ByExchange(events, run, token)
  {
    StartedAsAsked(owner, events, m, run);
    IgnoringThroughout(owner, events, run);
  }

  // ----- a call that does not is served without the lock -----

  /**
   * After a login, a new call with the same options is answered by its first check while the login's entry is fresh,
   * unless it finds a flight to join: the check is its first step, and the lock is not taken.
   */
  lemma LoginServesNewCall(st: State, page: nat, c: Config, o: Options, json: Worker.TokenJson, exp: real, user: string,
                           t: real, now: real)
    requires Inv(st) && (page, FlightKey(c, SilentRequest(c, o))) !in st.flights.current
    requires json.accessToken != ""
    requires var e := LoginEntry(c, o, json, exp, user);
             && CacheRuns.Held(st.cache, ToKey(KeyOf(e)), Wrapped(Full(e), ExpiresAt(e, t)))
             && !Expired(Wrapped(Full(e), ExpiresAt(e, t)), 60.0, now)
    ensures var called, run := Next(st, Call(page, c, o, false)), |st.runs|;
            && Inv(called) && Enabled(called, CheckFirst(run, now))
            && var checked := Next(called, CheckFirst(run, now));
               && run < |checked.runs| && checked.runs[run].phase == Finished(Token(json.accessToken))
               && checked.lock == st.lock
  {
    var called, run := Next(st, Call(page, c, o, false)), |st.runs|;
    var e := LoginEntry(c, o, json, exp, user);
    NextInv(st, Call(page, c, o, false));
    LoginKeyCoherent(c, o, json, ViaIframe, json.(clientId := None), exp, user);
    assert called.runs[run].Key() == KeyOf(e) && e.accessToken == json.accessToken;
    HeldTokenChecks(called.cache, called.runs[run].Key(), e, ExpiresAt(e, t), now);
  }

  // ----- an exchange is stored -----

  /** The entry is made of the response's own members and the decoded ID token. */
  predicate MadeOf(e: CacheEntry, json: Worker.TokenJson, exp: real, user: string) {
    && e.accessToken == json.accessToken && e.idToken == json.idToken && e.refreshToken == json.refreshToken
    && e.expiresIn == json.expiresIn && e.exp == exp && e.user == user
  }

  lemma EntryMade(r: Run, path: Path, json: Worker.TokenJson, exp: real, user: string)
    requires r.request == SilentRequest(r.c, r.o)
    requires json.clientId.Some? ==> json.clientId.value == r.c.clientId
    ensures var e := SilentEntry(r.c, r.request, path, json, exp, user);
            MadeOf(e, json, exp, user) && KeyOf(e) == r.Key()
  {
    SilentKeyCoherent(r.c, r.o, path, json, exp, user);
  }

  lemma ExchangePhase(st: State, run: nat, json: Worker.TokenJson, exp: real, user: string)
    requires Inv(st) && Enabled(st, ExchangeSucceeds(run, json, exp, user))
    ensures var st1 := Next(st, ExchangeSucceeds(run, json, exp, user));
            var r := st.runs[run];
            && Inv(st1) && run < |st1.runs| && st1.cache == st.cache
            && st1.runs[run].phase == Storing(SilentEntry(r.c, r.request, r.phase.path, json, exp, user))
  {
    NextInv(st, ExchangeSucceeds(run, json, exp, user));
    OwnMoveOf(st, ExchangeSucceeds(run, json, exp, user), run);
  }

  lemma StoreHolds(st: State, run: nat, e: CacheEntry, now: real)
    requires Inv(st) && run < |st.runs| && st.runs[run].phase == Storing(e)
    requires st.cache.manifestKey != Some(ToKey(KeyOf(e)))
    ensures Enabled(st, Event.Store(run, now))
    ensures Inv(Next(st, Event.Store(run, now)))
    ensures CacheRuns.Held(Next(st, Event.Store(run, now)).cache, ToKey(KeyOf(e)), Wrapped(Full(e), ExpiresAt(e, now)))
  {
    NextInv(st, Event.Store(run, now));
    CacheRuns.SetHolds(st.cache, e, now);
  }

  lemma StoringIsStored(st1: State, run: nat, e: CacheEntry, json: Worker.TokenJson, exp: real, user: string, now: real)
    requires Inv(st1) && run < |st1.runs| && st1.runs[run].phase == Storing(e)
    requires MadeOf(e, json, exp, user) && st1.cache.manifestKey != Some(ToKey(KeyOf(e)))
    ensures Enabled(st1, Event.Store(run, now))
    ensures var st2 := Next(st1, Event.Store(run, now));
            && Inv(st2)
            && exists e :: MadeOf(e, json, exp, user) &&
                 CacheRuns.Held(st2.cache, ToKey(KeyOf(st1.runs[run].phase.entry)), Wrapped(Full(e), ExpiresAt(e, now)))
  {
    StoreHolds(st1, run, e, now);
  }

  /** Once a run has exchanged and stored, the cache holds the response's members under the run's key. */
  lemma ExchangeIsStored(st: State, run: nat, json: Worker.TokenJson, exp: real, user: string, now: real)
    requires Inv(st) && Normalised(st) && Enabled(st, ExchangeSucceeds(run, json, exp, user))
    requires json.clientId.Some? ==> json.clientId.value == st.runs[run].c.clientId
    requires st.cache.manifestKey != Some(ToKey(st.runs[run].Key()))
    ensures var st1 := Next(st, ExchangeSucceeds(run, json, exp, user));
            && Inv(st1) && Enabled(st1, Event.Store(run, now))
            && var st2 := Next(st1, Event.Store(run, now));
               && Inv(st2)
               && exists e :: MadeOf(e, json, exp, user) &&
                    CacheRuns.Held(st2.cache, ToKey(st.runs[run].Key()), Wrapped(Full(e), ExpiresAt(e, now)))
  {
    var r := st.runs[run];
    var st1 := Next(st, ExchangeSucceeds(run, json, exp, user));
    ExchangePhase(st, run, json, exp, user);
    EntryMade(r, r.phase.path, json, exp, user);
    StoringIsStored(st1, run, st1.runs[run].phase.entry, json, exp, user, now);
  }

  // ----- a finished run's flight comes to an end -----

  lemma SettleStep(st: State, run: nat)
    requires Inv(st) && run < |st.runs| && st.runs[run].phase.Finished? && !st.flights.promises[run].stage.Settled?
    ensures Enabled(st, Settle(run)) && Inv(Next(st, Settle(run)))
    ensures Next(st, Settle(run)).runs == st.runs
    ensures Next(st, Settle(run)).flights == PromiseUtils.Advance(st.flights, run, st.runs[run].phase.outcome)
  {
    NextInv(st, Settle(run));
  }

  /** Once a run has finished, three steps of its promise show its callers the outcome, and its flight is free again. */
  lemma FlightEnds(st: State, run: nat)
    requires Inv(st) && run < |st.runs| && st.runs[run].phase.Finished? && st.flights.promises[run].stage.Running?
    ensures var st1 := Next(st, Settle(run));
            && Enabled(st, Settle(run)) && Inv(st1) && Enabled(st1, Settle(run))
            && var st2 := Next(st1, Settle(run));
               && Inv(st2) && Enabled(st2, Settle(run))
               && var st3 := Next(st2, Settle(run));
                  && run < |st3.flights.promises|
                  && st3.flights.promises[run].stage == PromiseUtils.Stage.Settled(st.runs[run].phase.outcome)
                  && st.runs[run].Flight() !in st3.flights.current
  {
    var o := st.runs[run].phase.outcome;
    SettleStep(st, run);
    var st1 := Next(st, Settle(run));
    SettleStep(st1, run);
    var st2 := Next(st1, Settle(run));
    SettleStep(st2, run);
    PromiseUtils.SettlesInOrder(st.flights, run, o, o);
  }

  // ----- which way a run exchanges -----

  /** Without refresh tokens the iframe alone, with them never the iframe first. */
  predicate PathFits(r: Run) {
    && (r.phase.LookingForRefreshToken? ==> r.c.useRefreshTokens)
    && (r.phase.Exchanging? ==> (r.phase.path.ViaIframe? <==> !r.c.useRefreshTokens))
  }

  lemma PathMoves(r: Run, e: Event, found: Option<string>)
    requires OwnMove(e) && Ready(r.phase, e) && PathFits(r)
    ensures PathFits(r.(phase := NextPhase(r, e, found)))
  {
  }

  lemma {:induction false} PathsFit(owner: Option<string>, events: seq<Event>, run: nat)
    requires After(owner, events).Some? && run < |After(owner, events).value.runs|
    ensures PathFits(After(owner, events).value.runs[run])
    decreases |events|
  {
    if events == [] {
      StartInv(owner);
    } else {
      var init, e, st := Before(owner, events);
      if run < |st.runs| {
        PathsFit(owner, init, run);
        if OwnMove(e) && e.run == run {
          OwnMoveOf(st, e, run);
          PathMoves(st.runs[run], e, Looked(st.cache, st.runs[run], e).1);
        } else {
          OthersLeave(st, e, run);
        }
      }
    }
  }

  /** The grant is tried exactly when there is a worker, or the answer of the lookup has a refresh token. */
  lemma GrantTriedExactly(st: State, run: nat, worker: bool, now: real)
    requires Inv(st) && Normalised(st) && Enabled(st, LookForRefreshToken(run, worker, now))
    ensures var found := Get(st.cache, st.runs[run].Key(), 0.0, now).1;
            run < |Next(st, LookForRefreshToken(run, worker, now)).runs| &&
            Next(st, LookForRefreshToken(run, worker, now)).runs[run].phase ==
            Exchanging(if worker || (found.Some? && Truthy(found.value.RefreshToken())) then ViaRefresh
                       else ViaRefreshThenIframe)
  {
    RefreshScope(st.runs[run].c, st.runs[run].o);
    OwnMoveOf(st, LookForRefreshToken(run, worker, now), run);
  }

  // ----- why a call fails -----

  function Failures(events: seq<Event>, run: nat): nat {
    if events == [] then 0
    else Failures(events[..|events| - 1], run) + (if events[|events| - 1] == AcquireFails(run) then 1 else 0)
  }

  predicate ExchangeFailed(events: seq<Event>, run: nat) {
    ExchangeFails(run) in events
  }

  /** The failed attempts at the lock are counted, and nothing but ten of them or a failed exchange fails a run. */
  ghost predicate Counted(events: seq<Event>, run: nat, p: Phase) {
    && (p.FirstCheck? ==> Failures(events, run) == 0)
    && (p.Acquiring? ==> Failures(events, run) == p.failed < 10)
    && (p == Releasing(Failure) ==> ExchangeFailed(events, run))
    && (p == Finished(Failure) ==> ExchangeFailed(events, run) || Failures(events, run) == 10)
    && Failures(events, run) <= 10
    && (p.Inside() ==> Failures(events, run) < 10)
  }

  lemma FailuresSnoc(events: seq<Event>, e: Event, run: nat)
    ensures Failures(events + [e], run) == Failures(events, run) + (if e == AcquireFails(run) then 1 else 0)
    ensures ExchangeFailed(events + [e], run) <==> ExchangeFailed(events, run) || e == ExchangeFails(run)
  {
    assert (events + [e])[..|events|] == events;
  }

  lemma CountedMoves(events: seq<Event>, e: Event, r: Run, found: Option<string>)
    requires OwnMove(e) && Ready(r.phase, e) && Counted(events, e.run, r.phase)
    ensures Counted(events + [e], e.run, NextPhase(r, e, found))
  {
    FailuresSnoc(events, e, e.run);
  }

  lemma CountedStays(events: seq<Event>, e: Event, run: nat, p: Phase)
    requires Counted(events, run, p) && !(OwnMove(e) && e.run == run)
    ensures Counted(events + [e], run, p)
  {
    FailuresSnoc(events, e, run);
  }

  lemma {:induction false} NoFailuresYet(owner: Option<string>, events: seq<Event>, run: nat)
    requires After(owner, events).Some? && |After(owner, events).value.runs| <= run
    ensures Failures(events, run) == 0
    decreases |events|
  {
    if events != [] {
      var init, e, st := Before(owner, events);
      if run < |st.runs| {
        StepKeepsRun(st, e, run);
      }
      NoFailuresYet(owner, init, run);
    }
  }

  lemma NewRunPhase(st: State, e: Event, run: nat)
    requires Inv(st) && Enabled(st, e) && |st.runs| <= run < |Next(st, e).runs|
    ensures Next(st, e).runs[run].phase == FirstCheck || Next(st, e).runs[run].phase == Acquiring(0)
    ensures !(OwnMove(e) && e.run == run)
  {
    if e.Call? {
      JoinedRuns(st, NewRun(e.page, e.c, e.o, e.ignoreCache));
    }
  }

  lemma NewRunCounted(events: seq<Event>, e: Event, run: nat, p: Phase)
    requires (p == FirstCheck || p == Acquiring(0)) && Failures(events, run) == 0 && !(OwnMove(e) && e.run == run)
    ensures Counted(events + [e], run, p)
  {
    FailuresSnoc(events, e, run);
  }

  lemma {:induction false} CountedThroughout(owner: Option<string>, events: seq<Event>, run: nat)
    requires After(owner, events).Some? && run < |After(owner, events).value.runs|
    ensures Counted(events, run, After(owner, events).value.runs[run].phase)
    decreases |events|
  {
    if events == [] {
      StartInv(owner);
    } else {
      var init, e, st := Before(owner, events);
      if |st.runs| <= run {
        NoFailuresYet(owner, init, run);
        NewRunPhase(st, e, run);
        NewRunCounted(init, e, run, After(owner, events).value.runs[run].phase);
      } else {
        CountedThroughout(owner, init, run);
        if OwnMove(e) && e.run == run {
          OwnMoveOf(st, e, run);
          CountedMoves(init, e, st.runs[run], Looked(st.cache, st.runs[run], e).1);
        } else {
          OthersLeave(st, e, run);
          CountedStays(init, e, run, st.runs[run].phase);
        }
      }
    }
  }

  /** In every interleaving, a call fails only because its exchange failed or all its ten attempts at the lock did. */
  lemma FailureProvenance(owner: Option<string>, events: seq<Event>, run: nat)
    requires After(owner, events).Some? && run < |After(owner, events).value.runs|
    requires After(owner, events).value.runs[run].phase == Finished(Failure)
    ensures ExchangeFailed(events, run) || Failures(events, run) == 10
  {
    CountedThroughout(owner, events, run);
  }

  // ----- and for each caller -----

  /**
   * The caller's options cannot be mistaken in the flight it joined: they are cut in one way only, among all clients or
   * among those of its own client id, and an undefined audience met no audience "undefined".
   */
  predicate Unmistaken(caller: Caller, r: Run) {
    var text := AudienceText(caller.request.audience);
    && Clean(text) && Tight(caller.request.scope)
    && (caller.c.clientId == r.c.clientId || (Clean(caller.c.clientId) && Tight(text)))
    && (text == "undefined" ==> r.request.audience == caller.request.audience)
  }

  lemma SameKey(caller: Caller, r: Run)
    requires Unmistaken(caller, r) && caller.Flight() == r.Flight()
    ensures caller.Key() == r.Key()
  {
    var text, other := AudienceText(caller.request.audience), AudienceText(r.request.audience);
    if caller.c.clientId == r.c.clientId {
      FlightTail(caller.c, caller.request, r.request);
      PairAlone(text, caller.request.scope, other, r.request.scope);
    } else {
      SameFlight(caller.c, caller.request, r.c, r.request);
      KeyAmbiguity.AloneUnderPrefix(FlightParts(caller.c, caller.request), FlightParts(r.c, r.request));
    }
  }

  /** In every interleaving the token that a caller sees comes from an exchange or an entry for the caller's own key. */
  lemma CallerTokenProvenance(owner: Option<string>, events: seq<Event>, a: nat, token: string)
    requires GoodEvents(owner, events) && After(owner, events).Some? && a < |After(owner, events).value.joined|
    requires var st := After(owner, events).value;
             && st.flights.promises[st.joined[a].run].stage == PromiseUtils.Stage.Settled(Token(token))
             && Unmistaken(st.joined[a], st.runs[st.joined[a].run])
    ensures var st := After(owner, events).value;
            && st.runs[st.joined[a].run].Key() == st.joined[a].Key()
            && Sourced(owner, events, st.joined[a].run, st.joined[a].Key(), token)
  {
    var st := After(owner, events).value;
    SameKey(st.joined[a], st.runs[st.joined[a].run]);
    TokenProvenance(owner, events, st.joined[a].run, token);
  }
}
