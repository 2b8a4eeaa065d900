/**
 * `getTokenSilently` of src/AuctoritasClient.ts as a protocol: any number of callers, on any number of pages and
 * clients, over one cache and one tab lock. Each event is one step between two awaits; whatever an event carries (clock
 * readings, lock failures, network results) is arbitrary.
 */
module SilentToken {
  import opened Wrappers
  import opened CacheKeys
  import opened CacheModel
  import opened CacheRuns
  import opened ClientKeys
  import PromiseUtils
  import Worker

  const LOCK_ATTEMPTS := 10

  datatype Outcome = Token(token: string) | Failure

  datatype Phase =
    | FirstCheck
    | Acquiring(failed: nat)
    | SecondCheck
    | LookingForRefreshToken
    | Exchanging(path: Path)
    | Storing(entry: CacheEntry)
    | Releasing(outcome: Outcome)
    | Finished(outcome: Outcome)
  {
    /** Between the acquisition of the lock and its release. */
    predicate Inside() {
      SecondCheck? || LookingForRefreshToken? || Exchanging? || Storing? || Releasing?
    }
  }

  /** One run of `_getTokenSilently`, with the options that `getTokenSilently` normalised for it. */
  datatype Run = Run(page: nat, c: Config, o: Options, request: Request, ignoreCache: bool, phase: Phase) {
    function Key(): CacheKey { LookupKey(c, request) }
    function Flight(): (nat, string) { (page, FlightKey(c, request)) }
  }

  /** One call of `getTokenSilently`: what it asked for, and the promise that it holds. */
  datatype Caller = Caller(page: nat, c: Config, request: Request, run: nat) {
    function Key(): CacheKey { LookupKey(c, request) }
    function Flight(): (nat, string) { (page, FlightKey(c, request)) }
  }

  /** All callers so far, in order; promises and runs share numbers. */
  datatype State = State(
    cache: CacheState,
    lock: Option<nat>,
    flights: PromiseUtils.Flights<(nat, string), Outcome>,
    runs: seq<Run>,
    joined: seq<Caller>)

  datatype Event =
    | Call(page: nat, c: Config, o: Options, ignoreCache: bool)
    | CheckFirst(run: nat, now: real)
    | AcquireFails(run: nat)
    | Acquire(run: nat)
    | CheckSecond(run: nat, now: real)
    | LookForRefreshToken(run: nat, worker: bool, now: real)
    | FallBack(run: nat)
    | ExchangeSucceeds(run: nat, json: Worker.TokenJson, exp: real, user: string)
    | ExchangeFails(run: nat)
    | Store(run: nat, now: real)
    | Release(run: nat)
    | Settle(run: nat)
    | OtherSet(entry: CacheEntry, now: real)
    | OtherGet(key: CacheKey, adjustment: real, now: real)
    | OtherClear

  function Start(owner: Option<string>): State {
    State(EmptyCache(IndexKey(owner)), None, PromiseUtils.Flights(map[], []), [], [])
  }

  /** `_getAccessTokenFromCache`: the cache afterwards, and the access token if it is truthy. */
  function Check(cache: CacheState, key: CacheKey, now: real): (CacheState, Option<string>)
    requires Valid(cache)
  {
    var (after, found) := Get(cache, key, 60.0, now);
    var token := if found.Some? then found.value.AccessToken() else None;
    (after, if Truthy(token) then token else None)
  }

  /** What `getTokenSilently` starts: with normalised options, and without a first check if the cache is ignored. */
  function NewRun(page: nat, c: Config, o: Options, ignoreCache: bool): Run {
    Run(page, c, o, SilentRequest(c, o), ignoreCache, if ignoreCache then Acquiring(0) else FirstCheck)
  }

  /** Where a run goes once it is past the second check. */
  function Begin(r: Run): Phase {
    if r.c.useRefreshTokens then LookingForRefreshToken else Exchanging(ViaIframe)
  }

  /** The run an event belongs to, when it is the turn of one. */
  function Turn(e: Event): Option<nat> {
    match e
    case Call(_, _, _, _) => None
    case OtherSet(_, _) => None
    case OtherGet(_, _, _) => None
    case OtherClear => None
    case _ => Some(e.run)
  }

  /** The event is a step of a run's own code. */
  predicate OwnMove(e: Event) {
    Turn(e).Some? && !e.Settle?
  }

  /** Whether it is the event's turn in a run at this point. */
  predicate Ready(p: Phase, e: Event) {
    match e
    case CheckFirst(_, _) => p.FirstCheck?
    case AcquireFails(_) => p.Acquiring?
    case Acquire(_) => p.Acquiring?
    case CheckSecond(_, _) => p.SecondCheck?
    case LookForRefreshToken(_, _, _) => p.LookingForRefreshToken?
    case FallBack(_) => p == Exchanging(ViaRefresh)
    case ExchangeSucceeds(_, _, _, _) => p.Exchanging?
    case ExchangeFails(_) => p.Exchanging?
    case Store(_, _) => p.Storing?
    case Release(_) => p.Releasing?
    case Settle(_) => p.Finished?
    case _ => true
  }

  /** Whether the event can happen now. */
  predicate Enabled(st: State, e: Event) {
    && (Turn(e).Some? ==>
          && Turn(e).value < |st.runs| && Turn(e).value < |st.flights.promises|
          && Ready(st.runs[Turn(e).value].phase, e))
    && (e.Acquire? ==> st.lock.None?)
    && (e.Settle? ==> !st.flights.promises[e.run].stage.Settled?)
  }

  /** The phase after a step; `found` is the token that the step found in the cache, if it looked for one. */
  function NextPhase(r: Run, e: Event, found: Option<string>): Phase
    requires OwnMove(e) && Ready(r.phase, e)
  {
    match e
    case CheckFirst(_, _) => if found.Some? then Finished(Token(found.value)) else Acquiring(0)
    case AcquireFails(_) =>
      var next := PromiseUtils.Attempt(r.phase.failed, LOCK_ATTEMPTS, false);
      if next.Trying? then Acquiring(next.failed) else Finished(Failure)
    case Acquire(_) => if r.ignoreCache then Begin(r) else SecondCheck
    case CheckSecond(_, _) => if found.Some? then Releasing(Token(found.value)) else Begin(r)
    case LookForRefreshToken(_, worker, _) =>
      Exchanging(if found.Some? || worker then ViaRefresh else ViaRefreshThenIframe)
    case FallBack(_) => Exchanging(ViaRefreshThenIframe)
    case ExchangeSucceeds(_, json, exp, user) =>
      Storing(SilentEntry(r.c, r.request, r.phase.path, json, exp, user))
    case ExchangeFails(_) => Releasing(Failure)
    case Store(_, _) => Releasing(Token(r.phase.entry.accessToken))
    case Release(_) => Finished(r.phase.outcome)
  }

  /** The cache after a step of a run, and the token that the step found there. */
  function Looked(cache: CacheState, r: Run, e: Event): (CacheState, Option<string>)
    requires Valid(cache) && OwnMove(e) && Ready(r.phase, e)
  {
    match e
    case CheckFirst(_, now) => Check(cache, r.Key(), now)
    case CheckSecond(_, now) => Check(cache, r.Key(), now)
    case LookForRefreshToken(_, _, now) =>
      var (after, found) := Get(cache, LookupKey(r.c, RefreshRequest(r.c, r.request)), 0.0, now);
      var token := if found.Some? then found.value.RefreshToken() else None;
      (after, if Truthy(token) then token else None)
    case Store(_, now) => (Set(cache, r.phase.entry, now), None)
    case _ => (cache, None)
  }

  function NextLock(lock: Option<nat>, e: Event): Option<nat>
    requires OwnMove(e)
  {
    match e
    case Acquire(id) => Some(id)
    case Release(_) => None
    case _ => lock
  }

  /** A step of one run: the cache and the lock afterwards, and the phase the run moves to. */
  function Move(st: State, e: Event): (CacheState, Option<nat>, Phase)
    requires Valid(st.cache) && Enabled(st, e) && OwnMove(e)
  {
    var (cache, found) := Looked(st.cache, st.runs[e.run], e);
    (cache, NextLock(st.lock, e), NextPhase(st.runs[e.run], e, found))
  }

  function Next(st: State, e: Event): State
    requires Valid(st.cache) && Enabled(st, e)
  {
    match e
    case Call(page, c, o, ignoreCache) =>
      Joined(st, NewRun(page, c, o, ignoreCache))
    case Settle(r) => st.(flights := PromiseUtils.Advance(st.flights, r, st.runs[r].phase.outcome))
    case OtherSet(entry, now) => st.(cache := Set(st.cache, entry, now))
    case OtherGet(key, adjustment, now) => st.(cache := Get(st.cache, key, adjustment, now).0)
    case OtherClear => st.(cache := Clear(st.cache))
    case _ =>
      var (cache, lock, phase) := Move(st, e);
      Moved(st, e.run, cache, lock, phase)
  }

  /** `singlePromise`: a caller joins the pending run of its flight, or starts `r`. */
  function Joined(st: State, r: Run): State {
    var (flights, id) := PromiseUtils.Call(st.flights, r.Flight());
    State(st.cache, st.lock, flights,
      if id == |st.flights.promises| then st.runs + [r] else st.runs,
      st.joined + [Caller(r.page, r.c, r.request, id)])
  }

  function Moved(st: State, run: nat, cache: CacheState, lock: Option<nat>, phase: Phase): State
    requires run < |st.runs|
  {
    State(cache, lock, st.flights, st.runs[run := st.runs[run].(phase := phase)], st.joined)
  }

  // ----- mutual exclusion and single flight -----

  /** Promises and runs agree: same keys, and a promise with an outcome has that of its finished run. */
  ghost predicate Paired(st: State) {
    && |st.runs| == |st.flights.promises|
    && (forall i :: 0 <= i < |st.runs| ==>
          var p := st.flights.promises[i];
          p.key == st.runs[i].Flight() && (p.stage.Running? || st.runs[i].phase == Finished(p.stage.outcome)))
    && (forall i :: 0 <= i < |st.joined| ==>
          st.joined[i].run < |st.runs| && st.joined[i].Flight() == st.runs[st.joined[i].run].Flight())
  }

  /** The lock is held exactly while some run is inside, and names it. */
  ghost predicate Locked(st: State) {
    forall i :: 0 <= i < |st.runs| ==> (st.runs[i].phase.Inside() <==> st.lock == Some(i))
  }

  ghost predicate Inv(st: State) {
    && Valid(st.cache)
    && PromiseUtils.Coherent(st.flights)
    && Paired(st)
    && Locked(st)
    && (st.lock.Some? ==> st.lock.value < |st.runs|)
    && (forall i :: 0 <= i < |st.runs| && st.runs[i].phase.Acquiring? ==> st.runs[i].phase.failed < LOCK_ATTEMPTS)
  }

  /** What every step of a run does to the lock: nothing, take it when free, or give it back. */
  ghost predicate Legal(st: State, run: nat, lock: Option<nat>, phase: Phase) {
    && run < |st.runs| && !st.runs[run].phase.Finished?
    && (phase.Inside() <==> lock == Some(run))
    && (lock == st.lock || (st.lock == None && lock == Some(run)) || (st.lock == Some(run) && lock == None))
    && (phase.Acquiring? ==> phase.failed < LOCK_ATTEMPTS)
  }

  lemma MoveLegal(st: State, e: Event)
    requires Inv(st) && Enabled(st, e) && OwnMove(e)
    ensures var (_, lock, phase) := Move(st, e); Legal(st, e.run, lock, phase)
  {
    PhaseLegal(st, e, Looked(st.cache, st.runs[e.run], e).1);
  }

  lemma PhaseLegal(st: State, e: Event, found: Option<string>)
    requires Inv(st) && Enabled(st, e) && OwnMove(e)
    ensures Legal(st, e.run, NextLock(st.lock, e), NextPhase(st.runs[e.run], e, found))
  {
  }

  lemma MoveValid(st: State, e: Event)
    requires Valid(st.cache) && Enabled(st, e) && OwnMove(e)
    ensures Valid(Move(st, e).0)
  {
    var r := st.runs[e.run];
    match e
    case CheckFirst(_, now) => GetValid(st.cache, r.Key(), 60.0, now);
    case CheckSecond(_, now) => GetValid(st.cache, r.Key(), 60.0, now);
    case LookForRefreshToken(_, _, now) => GetValid(st.cache, LookupKey(r.c, RefreshRequest(r.c, r.request)), 0.0, now);
    case Store(_, now) => SetValid(st.cache, r.phase.entry, now);
    case _ =>
  }

  lemma MovedInv(st: State, run: nat, cache: CacheState, lock: Option<nat>, phase: Phase)
    requires Inv(st) && Legal(st, run, lock, phase) && Valid(cache)
    ensures Inv(Moved(st, run, cache, lock, phase))
  {
    var st' := Moved(st, run, cache, lock, phase);
    assert forall i :: 0 <= i < |st.runs| && i != run ==> st'.runs[i] == st.runs[i];
    assert st'.runs[run].Flight() == st.runs[run].Flight();
  }

  lemma JoinedInv(st: State, r: Run)
    requires Inv(st) && !r.phase.Inside() && !r.phase.Finished? && (r.phase.Acquiring? ==> r.phase.failed == 0)
    ensures Inv(Joined(st, r))
  {
    PromiseUtils.CallCoherent(st.flights, r.Flight());
    var st' := Joined(st, r);
    assert forall i :: 0 <= i < |st.runs| ==>
             st'.runs[i] == st.runs[i] && st'.flights.promises[i] == st.flights.promises[i];
  }

  lemma SettleInv(st: State, e: Event)
    requires Inv(st) && e.Settle? && Enabled(st, e)
    ensures Inv(Next(st, e))
  {
    PromiseUtils.AdvanceCoherent(st.flights, e.run, st.runs[e.run].phase.outcome);
  }

  lemma TurnInv(st: State, e: Event)
    requires Inv(st) && Enabled(st, e) && OwnMove(e)
    ensures Inv(Next(st, e))
  {
    MoveLegal(st, e);
    MoveValid(st, e);
    var (cache, lock, phase) := Move(st, e);
    MovedInv(st, e.run, cache, lock, phase);
  }

  /** Changing the cache alone keeps everything else. */
  lemma CacheInv(st: State, cache: CacheState)
    requires Inv(st) && Valid(cache)
    ensures Inv(st.(cache := cache))
  {
  }

  lemma OtherInv(st: State, e: Event)
    requires Inv(st) && (e.OtherSet? || e.OtherGet? || e.OtherClear?)
    ensures Inv(Next(st, e))
  {
    match e
    case OtherSet(entry, now) => SetValid(st.cache, entry, now);
    case OtherGet(key, adjustment, now) => GetValid(st.cache, key, adjustment, now);
    case OtherClear => ClearValid(st.cache);
    CacheInv(st, Next(st, e).cache);
  }

  lemma NextInv(st: State, e: Event)
    requires Inv(st) && Enabled(st, e)
    ensures Inv(Next(st, e))
  {
    match e
    case Call(page, c, o, ignoreCache) => JoinedInv(st, NewRun(page, c, o, ignoreCache));
    case Settle(_) => SettleInv(st, e);
    case OtherSet(_, _) => OtherInv(st, e);
    case OtherGet(_, _, _) => OtherInv(st, e);
    case OtherClear => OtherInv(st, e);
    case _ => TurnInv(st, e);
  }

  /** The state after `events`, if each can happen in its turn. */
  ghost function Exec(st: State, events: seq<Event>): (r: Option<State>)
    requires Inv(st)
    ensures r.Some? ==> Inv(r.value)
    decreases |events|
  {
    if events == [] then Some(st)
    else if !Enabled(st, events[0]) then None
    else
      NextInv(st, events[0]);
      Exec(Next(st, events[0]), events[1..])
  }

  lemma StartInv(owner: Option<string>)
    ensures Inv(Start(owner))
  {
  }

  /**
   * In every interleaving: at most one run is between acquiring and releasing the lock, the lock is held exactly while
   * one is, and a run that has finished, on whatever exit, does not hold it.
   */
  lemma CriticalSectionsNeverOverlap(owner: Option<string>, events: seq<Event>)
    ensures Inv(Start(owner))
    ensures var r := Exec(Start(owner), events);
            r.Some? ==>
              var st := r.value;
              && (forall i, j | 0 <= i < |st.runs| && 0 <= j < |st.runs| ::
                    st.runs[i].phase.Inside() && st.runs[j].phase.Inside() ==> i == j)
              && (st.lock.Some? <==> exists i :: 0 <= i < |st.runs| && st.runs[i].phase.Inside())
              && (forall i :: 0 <= i < |st.runs| && st.runs[i].phase.Finished? ==> st.lock != Some(i))
  {
    StartInv(owner);
    var r := Exec(Start(owner), events);
    if r.Some? && r.value.lock.Some? {
      assert r.value.runs[r.value.lock.value].phase.Inside();
    }
  }

  /**
   * A caller holds a run of the flight it asked for; callers of one listed flight hold the same run, which is in the
   * map exactly until its `finally` ran.
   */
  lemma CallersShareOutcome(owner: Option<string>, events: seq<Event>, a: nat, b: nat)
    ensures Inv(Start(owner))
    ensures var r := Exec(Start(owner), events);
            r.Some? && a < |r.value.joined| && b < |r.value.joined| ==>
              var st := r.value;
              var i, j := st.joined[a].run, st.joined[b].run;
              var p, q := st.flights.promises[i], st.flights.promises[j];
              && p.key == st.joined[a].Flight()
              && (PromiseUtils.Listed(p.stage) && PromiseUtils.Listed(q.stage) && p.key == q.key ==> i == j)
              && (PromiseUtils.Listed(p.stage) <==> p.key in st.flights.current && st.flights.current[p.key] == i)
              && (p.stage.Settled? ==> st.runs[i].phase == Finished(p.stage.outcome))
  {
    StartInv(owner);
  }

  // ----- progress -----

  /** How many more steps of its own a run can take at most. */
  function Rank(p: Phase): (n: nat)
    ensures p.Inside() ==> 0 < n <= 6
    ensures n == 0 <==> p.Finished?
  {
    match p
    case FirstCheck => 8 + LOCK_ATTEMPTS
    case Acquiring(failed) => if failed < LOCK_ATTEMPTS then 7 + LOCK_ATTEMPTS - failed else 7
    case SecondCheck => 6
    case LookingForRefreshToken => 5
    case Exchanging(path) => if path.ViaRefresh? then 4 else 3
    case Storing(_) => 2
    case Releasing(_) => 1
    case Finished(_) => 0
  }

  lemma PhaseDescends(r: Run, e: Event, found: Option<string>)
    requires OwnMove(e) && Ready(r.phase, e) && (r.phase.Acquiring? ==> r.phase.failed < LOCK_ATTEMPTS)
    ensures Rank(NextPhase(r, e, found)) < Rank(r.phase)
  {
  }

  /** Every own step lowers the rank. */
  lemma MoveDescends(st: State, e: Event)
    requires Inv(st) && Enabled(st, e) && OwnMove(e)
    ensures Rank(Move(st, e).2) < Rank(st.runs[e.run].phase)
  {
    PhaseDescends(st.runs[e.run], e, Looked(st.cache, st.runs[e.run], e).1);
  }

  /** Steps of others leave a run where it is. */
  lemma OthersLeave(st: State, e: Event, run: nat)
    requires Inv(st) && Enabled(st, e) && run < |st.runs| && !(OwnMove(e) && e.run == run)
    ensures run < |Next(st, e).runs| && Next(st, e).runs[run] == st.runs[run]
  {
  }

  lemma OwnStepDescends(st: State, e: Event, run: nat)
    requires Inv(st) && Enabled(st, e) && run < |st.runs| && OwnMove(e) && e.run == run
    ensures run < |Next(st, e).runs| && Rank(Next(st, e).runs[run].phase) < Rank(st.runs[run].phase)
  {
    MoveDescends(st, e);
    var (cache, lock, phase) := Move(st, e);
    assert Next(st, e) == Moved(st, run, cache, lock, phase);
  }

  function OwnMoves(events: seq<Event>, run: nat): nat {
    if events == [] then 0
    else (if OwnMove(events[0]) && events[0].run == run then 1 else 0) + OwnMoves(events[1..], run)
  }

  lemma {:induction false} OwnMovesBounded(st: State, events: seq<Event>, run: nat)
    requires Inv(st) && run < |st.runs| && Exec(st, events).Some?
    ensures run < |Exec(st, events).value.runs|
    ensures OwnMoves(events, run) + Rank(Exec(st, events).value.runs[run].phase) <= Rank(st.runs[run].phase)
    decreases |events|
  {
    if events != [] {
      NextInv(st, events[0]);
      if OwnMove(events[0]) && events[0].run == run {
        OwnStepDescends(st, events[0], run);
      } else {
        OthersLeave(st, events[0], run);
      }
      OwnMovesBounded(Next(st, events[0]), events[1..], run);
    }
  }

  /** A run that has not finished always has a step of its own to take; nobody has to wait for another for ever. */
  lemma NeverStuck(st: State, run: nat)
    requires Inv(st) && run < |st.runs| && !st.runs[run].phase.Finished?
    ensures exists e :: Enabled(st, e) && OwnMove(e) && e.run == run
  {
    match st.runs[run].phase
    case FirstCheck => assert Enabled(st, CheckFirst(run, 0.0)) && OwnMove(CheckFirst(run, 0.0));
    case Acquiring(_) => assert Enabled(st, AcquireFails(run)) && OwnMove(AcquireFails(run));
    case SecondCheck => assert Enabled(st, CheckSecond(run, 0.0)) && OwnMove(CheckSecond(run, 0.0));
    case LookingForRefreshToken =>
      assert Enabled(st, LookForRefreshToken(run, true, 0.0)) && OwnMove(LookForRefreshToken(run, true, 0.0));
    case Exchanging(_) => assert Enabled(st, ExchangeFails(run)) && OwnMove(ExchangeFails(run));
    case Storing(_) => assert Enabled(st, Event.Store(run, 0.0)) && OwnMove(Event.Store(run, 0.0));
    case Releasing(_) => assert Enabled(st, Release(run)) && OwnMove(Release(run));
  }

  /**
   * From any reachable state, however the others interleave: a run takes at most eighteen steps of its own, and one
   * that holds the lock has given it back for good after at most six.
   */
  lemma HolderReleases(owner: Option<string>, before: seq<Event>, events: seq<Event>, run: nat)
    requires Inv(Start(owner)) && Exec(Start(owner), before).Some?
    requires var st := Exec(Start(owner), before).value; run < |st.runs| && Exec(st, events).Some?
    ensures OwnMoves(events, run) <= 18
    ensures var st := Exec(Start(owner), before).value;
            st.lock == Some(run) ==>
              && OwnMoves(events, run) <= 6
              && (OwnMoves(events, run) == 6 ==>
                    var end := Exec(st, events).value;
                    run < |end.runs| && end.runs[run].phase.Finished? && end.lock != Some(run))
  {
    var st := Exec(Start(owner), before).value;
    OwnMovesBounded(st, events, run);
  }

  // ----- at most one exchange while the stored entry stays fresh -----

  function KeyText(r: Run): string {
    ToKey(r.Key())
  }

  /** On the way to an exchange. */
  predicate Asking(p: Phase) {
    p.LookingForRefreshToken? || p.Exchanging?
  }

  predicate NoneAsks(runs: seq<Run>, k: string) {
    forall i :: 0 <= i < |runs| && KeyText(runs[i]) == k ==> !Asking(runs[i].phase)
  }

  /** The clock reading of an event, when it takes one. */
  function Clock(e: Event): Option<real> {
    match e
    case CheckFirst(_, now) => Some(now)
    case CheckSecond(_, now) => Some(now)
    case LookForRefreshToken(_, _, now) => Some(now)
    case OtherGet(_, _, now) => Some(now)
    case _ => None
  }

  predicate IsExchange(st: State, e: Event, k: string) {
    e.ExchangeSucceeds? && e.run < |st.runs| && KeyText(st.runs[e.run]) == k
  }

  ghost function Exchanges(st: State, events: seq<Event>, k: string): nat
    requires Inv(st)
    decreases |events|
  {
    if events == [] || !Enabled(st, events[0]) then 0
    else
      NextInv(st, events[0]);
      (if IsExchange(st, events[0], k) then 1 else 0) + Exchanges(Next(st, events[0]), events[1..], k)
  }

  /** The complete entry under `k`, if there is one, is usable and fresh at this clock reading. */
  predicate FreshAt(cache: CacheState, k: string, now: real)
    requires Valid(cache)
  {
    FullAt(cache, k) ==>
      var w := cache.wrappers[cache.store.slots[k].id];
      w.body.entry.accessToken != "" && !Expired(w, 60.0, now)
  }

  /**
   * Nobody clears, no unfinished run ignores the cache for `k`, no clock reading makes the entry under `k` stale, and
   * no response for `k` names another client.
   */
  ghost predicate Calm(st: State, e: Event, k: string)
    requires Inv(st)
  {
    && !e.OtherClear?
    && (Clock(e).Some? ==> FreshAt(st.cache, k, Clock(e).value))
    && (e.OtherGet? ==> e.adjustment <= 60.0 && e.key.prefix == PREFIX)
    && (IsExchange(st, e, k) && e.json.clientId.Some? ==> e.json.clientId.value == st.runs[e.run].c.clientId)
    && (forall i :: 0 <= i < |st.runs| && KeyText(st.runs[i]) == k && !st.runs[i].phase.Finished? ==>
          !st.runs[i].ignoreCache)
  }

  ghost predicate CalmRun(st: State, events: seq<Event>, k: string)
    requires Inv(st)
    decreases |events|
  {
    events != [] && Enabled(st, events[0]) ==>
      Calm(st, events[0], k) && (NextInv(st, events[0]); CalmRun(Next(st, events[0]), events[1..], k))
  }

  /** Every run works on the options that its call normalised. */
  ghost predicate Normalised(st: State) {
    forall i :: 0 <= i < |st.runs| ==> st.runs[i].request == SilentRequest(st.runs[i].c, st.runs[i].o)
  }

  lemma NextNormalised(st: State, e: Event)
    requires Inv(st) && Normalised(st) && Enabled(st, e)
    ensures Normalised(Next(st, e))
  {
    match e
    case Call(page, c, o, ignoreCache) =>
      JoinedNormalised(st, NewRun(page, c, o, ignoreCache));
    case OtherSet(_, _) =>
    case OtherGet(_, _, _) =>
    case OtherClear =>
    case Settle(_) =>
    case _ =>
      var (cache, lock, phase) := Move(st, e);
      MovedNormalised(st, e.run, cache, lock, phase);
  }

  lemma JoinedRuns(st: State, r: Run)
    ensures Joined(st, r).runs == st.runs || Joined(st, r).runs == st.runs + [r]
  {
  }

  lemma JoinedNormalised(st: State, r: Run)
    requires Normalised(st) && r.request == SilentRequest(r.c, r.o)
    ensures Normalised(Joined(st, r))
  {
    JoinedRuns(st, r);
    AddedNormalised(st.runs, Joined(st, r).runs, r);
  }

  lemma AddedNormalised(runs: seq<Run>, runs': seq<Run>, r: Run)
    requires r.request == SilentRequest(r.c, r.o) && (runs' == runs || runs' == runs + [r])
    requires forall i :: 0 <= i < |runs| ==> runs[i].request == SilentRequest(runs[i].c, runs[i].o)
    ensures forall i :: 0 <= i < |runs'| ==> runs'[i].request == SilentRequest(runs'[i].c, runs'[i].o)
  {
    forall i | 0 <= i < |runs'|
      ensures runs'[i].request == SilentRequest(runs'[i].c, runs'[i].o)
    {
      assert runs'[i] == if i < |runs| then runs[i] else r;
    }
  }

  lemma MovedNormalised(st: State, run: nat, cache: CacheState, lock: Option<nat>, phase: Phase)
    requires Normalised(st) && run < |st.runs|
    ensures Normalised(Moved(st, run, cache, lock, phase))
  {
  }

  ghost predicate AboutToStore(st: State, k: string)
    requires Inv(st)
  {
    st.lock.Some? && st.runs[st.lock.value].phase.Storing? && ToKey(KeyOf(st.runs[st.lock.value].phase.entry)) == k
  }

  /** An exchange for `k` has been made and its entry is about to be stored, or is stored with nobody asking again. */
  ghost predicate Spent(st: State, k: string)
    requires Inv(st)
  {
    || AboutToStore(st, k)
    || (FullAt(st.cache, k) && NoneAsks(st.runs, k))
  }

  // ----- how the cache evolves under a complete, fresh entry -----

  lemma GetKeepsFull(cache: CacheState, key: CacheKey, adjustment: real, now: real, k: string)
    requires Valid(cache) && FullAt(cache, k) && FreshAt(cache, k, now)
    requires adjustment <= 60.0 && cache.manifestKey != Some(k)
    ensures Valid(Get(cache, key, adjustment, now).0) && FullAt(Get(cache, key, adjustment, now).0, k)
  {
    HeldStays(cache, DoGet(key, adjustment, now), k, cache.wrappers[cache.store.slots[k].id]);
  }

  lemma SetKeepsFull(cache: CacheState, entry: CacheEntry, now: real, k: string)
    requires Valid(cache) && cache.manifestKey != Some(k)
    requires FullAt(cache, k) || ToKey(KeyOf(entry)) == k
    ensures Valid(Set(cache, entry, now)) && FullAt(Set(cache, entry, now), k)
  {
    if ToKey(KeyOf(entry)) == k {
      SetHolds(cache, entry, now);
    } else {
      HeldStays(cache, DoSet(entry, now), k, cache.wrappers[cache.store.slots[k].id]);
    }
  }

  lemma TurnKeepsFull(cache: CacheState, r: Run, e: Event, k: string)
    requires Valid(cache) && FullAt(cache, k) && cache.manifestKey != Some(k)
    requires OwnMove(e) && Ready(r.phase, e) && (Clock(e).Some? ==> FreshAt(cache, k, Clock(e).value))
    ensures Valid(Looked(cache, r, e).0) && FullAt(Looked(cache, r, e).0, k)
  {
    match e
    case CheckFirst(_, now) => GetKeepsFull(cache, r.Key(), 60.0, now, k);
    case CheckSecond(_, now) => GetKeepsFull(cache, r.Key(), 60.0, now, k);
    case LookForRefreshToken(_, _, now) =>
      GetKeepsFull(cache, LookupKey(r.c, RefreshRequest(r.c, r.request)), 0.0, now, k);
    case Store(_, now) => SetKeepsFull(cache, r.phase.entry, now, k);
    case _ =>
  }

  /** A calm step keeps a complete entry under `k`. */
  lemma NextKeepsFull(st: State, e: Event, k: string)
    requires Inv(st) && Enabled(st, e) && Calm(st, e, k) && FullAt(st.cache, k) && st.cache.manifestKey != Some(k)
    ensures Valid(Next(st, e).cache) && FullAt(Next(st, e).cache, k)
  {
    match e
    case Call(_, _, _, _) =>
    case Settle(_) =>
    case OtherGet(key, adjustment, now) => GetKeepsFull(st.cache, key, adjustment, now, k);
    case OtherSet(entry, now) => SetKeepsFull(st.cache, entry, now, k);
    case OtherClear =>
    case _ => TurnKeepsFull(st.cache, st.runs[e.run], e, k);
  }

  /** A check that finds a complete, fresh entry under its own key returns its token. */
  lemma CheckHits(cache: CacheState, key: CacheKey, now: real)
    requires Valid(cache) && FullAt(cache, ToKey(key)) && FreshAt(cache, ToKey(key), now)
    ensures Check(cache, key, now).1.Some?
  {
    HeldServes(cache, key, cache.wrappers[cache.store.slots[ToKey(key)].id], 60.0, now);
  }

  // ----- phases under a calm step -----

  /** No calm step sends a run for `k` towards an exchange while the entry is there. */
  lemma NobodyAsks(st: State, e: Event, k: string)
    requires Inv(st) && Enabled(st, e) && Calm(st, e, k) && FullAt(st.cache, k)
    requires NoneAsks(st.runs, k)
    requires OwnMove(e) && KeyText(st.runs[e.run]) == k
    ensures !Asking(Move(st, e).2)
  {
    if e.CheckSecond? {
      CheckHits(st.cache, st.runs[e.run].Key(), e.now);
    }
  }

  /** Nobody asks for `k` in the next state either. */
  lemma StillNobodyAsks(st: State, e: Event, k: string)
    requires Inv(st) && Enabled(st, e) && Calm(st, e, k) && FullAt(st.cache, k)
    requires NoneAsks(st.runs, k)
    ensures NoneAsks(Next(st, e).runs, k)
  {
    match e
    case Call(page, c, o, ignoreCache) =>
      JoinedPhases(st, NewRun(page, c, o, ignoreCache), k);
    case OtherSet(_, _) =>
    case OtherGet(_, _, _) =>
    case OtherClear =>
    case Settle(_) =>
    case _ =>
      TurnPhases(st, e, k);
  }

  lemma TurnPhases(st: State, e: Event, k: string)
    requires Inv(st) && Enabled(st, e) && Calm(st, e, k) && FullAt(st.cache, k)
    requires NoneAsks(st.runs, k)
    requires OwnMove(e)
    ensures NoneAsks(Next(st, e).runs, k)
  {
    if KeyText(st.runs[e.run]) == k {
      NobodyAsks(st, e, k);
    }
    var (cache, lock, phase) := Move(st, e);
    MovedPhases(st, e.run, cache, lock, phase, k);
  }

  lemma JoinedPhases(st: State, r: Run, k: string)
    requires !Asking(r.phase)
    requires NoneAsks(st.runs, k)
    ensures NoneAsks(Joined(st, r).runs, k)
  {
    JoinedRuns(st, r);
  }

  lemma MovedPhases(st: State, run: nat, cache: CacheState, lock: Option<nat>, phase: Phase, k: string)
    requires run < |st.runs| && (KeyText(st.runs[run]) == k ==> !Asking(phase))
    requires NoneAsks(st.runs, k)
    ensures NoneAsks(Moved(st, run, cache, lock, phase).runs, k)
  {
  }

  lemma SpentStays(st: State, e: Event, k: string)
    requires Inv(st) && Enabled(st, e) && Calm(st, e, k) && Spent(st, k) && st.cache.manifestKey != Some(k)
    ensures !IsExchange(st, e, k)
    ensures Inv(Next(st, e)) && Spent(Next(st, e), k)
  {
    NextInv(st, e);
    if AboutToStore(st, k) {
      HolderStays(st, e, k);
    } else {
      NextKeepsFull(st, e, k);
      StillNobodyAsks(st, e, k);
    }
  }

  /** While a run is about to store, only its own step moves it, and nobody else is inside. */
  lemma HolderStays(st: State, e: Event, k: string)
    requires Inv(st) && Enabled(st, e) && st.cache.manifestKey != Some(k)
    requires AboutToStore(st, k)
    ensures !IsExchange(st, e, k)
    ensures Inv(Next(st, e)) && Spent(Next(st, e), k)
  {
    NextInv(st, e);
    var h, st' := st.lock.value, Next(st, e);
    if e.Store? && e.run == h {
      SetKeepsFull(st.cache, st.runs[h].phase.entry, e.now, k);
      forall i | 0 <= i < |st'.runs|
        ensures !Asking(st'.runs[i].phase)
      {
        assert st'.lock == Some(h) && st'.runs[h].phase.Releasing?;
        assert i != h ==> !st'.runs[i].phase.Inside();
      }
    } else {
      assert st'.lock == st.lock && st'.runs[h] == st.runs[h];
    }
  }

  lemma ExchangeSpends(st: State, e: Event, k: string)
    requires Inv(st) && Normalised(st) && Enabled(st, e) && Calm(st, e, k) && IsExchange(st, e, k)
    ensures Inv(Next(st, e)) && Spent(Next(st, e), k)
  {
    NextInv(st, e);
    var r := st.runs[e.run];
    SilentKeyCoherent(r.c, r.o, r.phase.path, e.json, e.exp, e.user);
  }

  lemma {:induction false} NoneWhenSpent(st: State, events: seq<Event>, k: string)
    requires Inv(st) && Spent(st, k) && CalmRun(st, events, k) && st.cache.manifestKey != Some(k)
    ensures Exchanges(st, events, k) == 0
    decreases |events|
  {
    if events != [] && Enabled(st, events[0]) {
      SpentStays(st, events[0], k);
      SameManifest(st, events[0]);
      NoneWhenSpent(Next(st, events[0]), events[1..], k);
    }
  }

  lemma TurnSameManifest(cache: CacheState, r: Run, e: Event)
    requires Valid(cache) && OwnMove(e) && Ready(r.phase, e)
    ensures Looked(cache, r, e).0.manifestKey == cache.manifestKey
  {
  }

  lemma SameManifest(st: State, e: Event)
    requires Inv(st) && Enabled(st, e)
    ensures Next(st, e).cache.manifestKey == st.cache.manifestKey
  {
    if OwnMove(e) {
      TurnSameManifest(st.cache, st.runs[e.run], e);
    }
  }

  lemma {:induction false} AtMostOnce(st: State, events: seq<Event>, k: string)
    requires Inv(st) && Normalised(st) && CalmRun(st, events, k) && st.cache.manifestKey != Some(k)
    ensures Exchanges(st, events, k) <= 1
    decreases |events|
  {
    if events != [] && Enabled(st, events[0]) {
      var st' := Next(st, events[0]);
      NextInv(st, events[0]);
      NextNormalised(st, events[0]);
      SameManifest(st, events[0]);
      if IsExchange(st, events[0], k) {
        ExchangeSpends(st, events[0], k);
        NoneWhenSpent(st', events[1..], k);
      } else {
        AtMostOnce(st', events[1..], k);
      }
    }
  }

  lemma {:induction false} ExecKeeps(st: State, events: seq<Event>)
    requires Inv(st) && Normalised(st)
    ensures var r := Exec(st, events);
            r.Some? ==> Normalised(r.value) && r.value.cache.manifestKey == st.cache.manifestKey
    decreases |events|
  {
    if events != [] && Enabled(st, events[0]) {
      NextInv(st, events[0]);
      NextNormalised(st, events[0]);
      SameManifest(st, events[0]);
      ExecKeeps(Next(st, events[0]), events[1..]);
    }
  }

  /**
   * From any reachable state, over any stretch of steps in which nobody clears, nobody ignores the cache for the key,
   * and no clock reading finds the entry under the key stale: the key is successfully exchanged at most once.
   */
  lemma AtMostOneExchange(owner: Option<string>, before: seq<Event>, events: seq<Event>, key: CacheKey)
    requires GoodOwner(owner) && key.prefix == PREFIX
    requires Inv(Start(owner)) && Exec(Start(owner), before).Some?
    requires CalmRun(Exec(Start(owner), before).value, events, ToKey(key))
    ensures Exchanges(Exec(Start(owner), before).value, events, ToKey(key)) <= 1
  {
    ExecKeeps(Start(owner), before);
    Apart(owner, key);
    AtMostOnce(Exec(Start(owner), before).value, events, ToKey(key));
  }

  lemma HeldTokenChecks(cache: CacheState, key: CacheKey, e: CacheEntry, expiresAt: real, now: real)
    requires Valid(cache) && Held(cache, ToKey(key), Wrapped(Full(e), expiresAt))
    requires !Expired(Wrapped(Full(e), expiresAt), 60.0, now) && e.accessToken != ""
    ensures Check(cache, key, now) == (cache, Some(e.accessToken))
  {
    HeldServes(cache, key, Wrapped(Full(e), expiresAt), 60.0, now);
  }

  /** A silent call is answered by its first check while the entry of a login with the same options is fresh. */
  lemma LoginServesSilentCall(st: State, c: Config, o: Options, json: Worker.TokenJson, exp: real, user: string,
                              t: real, run: nat, now: real)
    requires Inv(st) && Normalised(st) && Enabled(st, CheckFirst(run, now))
    requires st.runs[run].c == c && st.runs[run].o == o
    requires json.accessToken != ""
    requires var e := LoginEntry(c, o, json, exp, user);
             && Held(st.cache, ToKey(KeyOf(e)), Wrapped(Full(e), ExpiresAt(e, t)))
             && !Expired(Wrapped(Full(e), ExpiresAt(e, t)), 60.0, now)
    ensures Next(st, CheckFirst(run, now)).runs[run].phase == Finished(Token(json.accessToken))
    ensures Next(st, CheckFirst(run, now)).lock == st.lock
  {
    var e := LoginEntry(c, o, json, exp, user);
    LoginKeyCoherent(c, o, json, ViaIframe, json.(clientId := None), exp, user);
    assert st.runs[run].Key() == KeyOf(e) && e.accessToken == json.accessToken;
    HeldTokenChecks(st.cache, st.runs[run].Key(), e, ExpiresAt(e, t), now);
  }
}
