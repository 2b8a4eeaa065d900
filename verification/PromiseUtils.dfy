/** src/promise-utils.ts: one pending promise per key, and the bounded retry loop. */
module PromiseUtils {

  // ----- retryPromise -----

  /** Between two calls of the callback so many have failed; in the end one succeeded or none did. */
  datatype Retrying = Trying(failed: nat) | Ended(success: bool)

  /** One call of the callback. */
  function Attempt(failed: nat, max: nat, success: bool): Retrying {
    if success then Ended(true) else if failed + 1 < max then Trying(failed + 1) else Ended(false)
  }

  /** Where the loop ends when its calls yield `outcomes`, of which `failed` have been used up. */
  function Retried(outcomes: seq<bool>, failed: nat): bool
    requires failed <= |outcomes|
    decreases |outcomes| - failed
  {
    if failed == |outcomes| then false
    else
      match Attempt(failed, |outcomes|, outcomes[failed])
      case Ended(success) => success
      case Trying(n) => Retried(outcomes, n)
  }

  /** Calls `cb` until it yields true, at most `max` times; `outcomes` are what the calls yield. */
  method RetryPromise(outcomes: seq<bool>, max: nat := 3) returns (success: bool, calls: nat)
    requires |outcomes| == max
    ensures success == Retried(outcomes, 0)
    ensures success <==> true in outcomes
    ensures if success then 0 < calls <= max && outcomes[calls - 1] else calls == max
    ensures true !in outcomes[..if success then calls - 1 else calls]
  {
    for i := 0 to max
      invariant true !in outcomes[..i]
      invariant Retried(outcomes, 0) == Retried(outcomes, i)
    {
      if outcomes[i] {
        return true, i + 1;
      }
    }
    return false, max;
  }

  // ----- singlePromise -----

  /**
   * The life of a promise that `singlePromise` hands out: the callback's own promise is pending, then settled; then the
   * `finally` callback has run; then the promise itself is settled and its callers see the outcome.
   */
  datatype Stage<O> = Running | Done(outcome: O) | Cleared(outcome: O) | Settled(outcome: O)

  datatype Promise<K, O> = Promise(key: K, stage: Stage<O>)

  /** `singlePromiseMap`, and every promise ever made, numbered in order. */
  datatype Flights<!K(==), O> = Flights(current: map<K, nat>, promises: seq<Promise<K, O>>)

  /** `singlePromise(cb, key)`: join the promise listed for the key, or start one. */
  function Call<K, O>(f: Flights<K, O>, key: K): (Flights<K, O>, nat) {
    if key in f.current then (f, f.current[key])
    else (Flights(f.current[key := |f.promises|], f.promises + [Promise(key, Running)]), |f.promises|)
  }

  function MoveTo<K, O>(f: Flights<K, O>, id: nat, stage: Stage<O>): Flights<K, O>
    requires id < |f.promises|
  {
    f.(promises := f.promises[id := f.promises[id].(stage := stage)])
  }

  /** The next thing that happens to a promise; `outcome` is that of the callback, when it is the callback that ends. */
  function Advance<K, O>(f: Flights<K, O>, id: nat, outcome: O): Flights<K, O>
    requires id < |f.promises|
  {
    match f.promises[id].stage
    case Running => MoveTo(f, id, Done(outcome))
    case Done(o) => MoveTo(f.(current := f.current - {f.promises[id].key}), id, Cleared(o))
    case Cleared(o) => MoveTo(f, id, Settled(o))
    case Settled(_) => f
  }

  class SinglePromiseMap<K(!new, ==), O(!new)> {
    var current: map<K, nat>
    var promises: seq<Promise<K, O>>

    ghost function State(): Flights<K, O>
      reads this
    {
      Flights(current, promises)
    }

    constructor ()
      ensures State() == Flights(map[], [])
    {
      current, promises := map[], [];
    }

    method SinglePromise(key: K) returns (id: nat)
      modifies this
      ensures (State(), id) == Call(old(State()), key)
    {
      if key !in current {
        promises := promises + [Promise(key, Running)];
        current := current[key := |promises| - 1];
      }
      id := current[key];
    }

    /** The callback of `finally`: only the entry goes; the promise's callers see nothing yet. */
    method Finally(id: nat)
      requires id < |promises| && promises[id].stage.Done?
      modifies this
      ensures State() == Advance(old(State()), id, old(promises[id].stage.outcome))
      ensures current == old(current) - {old(promises[id].key)} && !promises[id].stage.Settled?
    {
      current := current - {promises[id].key};
      promises := promises[id := promises[id].(stage := Cleared(promises[id].stage.outcome))];
    }

    /** The engine's own steps before and after it: the callback's promise settles, then this one does. */
    method SettleStage(id: nat, outcome: O)
      requires id < |promises| && !promises[id].stage.Done?
      modifies this
      ensures State() == Advance(old(State()), id, outcome)
    {
      match promises[id].stage
      case Running => promises := promises[id := promises[id].(stage := Done(outcome))];
      case Cleared(o) => promises := promises[id := promises[id].(stage := Settled(o))];
      case Settled(_) =>
    }
  }

  /** The promise is listed in the map: its `finally` callback has not run. */
  predicate Listed<O>(s: Stage<O>) {
    s.Running? || s.Done?
  }

  /** The map has an entry for a key exactly when one promise for the key is not cleared yet, and it is that one. */
  ghost predicate Coherent<K(!new), O(!new)>(f: Flights<K, O>) {
    && (forall k :: k in f.current ==>
          f.current[k] < |f.promises| && f.promises[f.current[k]].key == k && Listed(f.promises[f.current[k]].stage))
    && (forall id :: 0 <= id < |f.promises| && Listed(f.promises[id].stage) ==>
          f.promises[id].key in f.current && f.current[f.promises[id].key] == id)
  }

  datatype Event<K, O> = Called(key: K) | Advanced(id: nat, outcome: O)

  function Step<K, O>(f: Flights<K, O>, e: Event<K, O>): Flights<K, O> {
    match e
    case Called(key) => Call(f, key).0
    case Advanced(id, outcome) => if id < |f.promises| then Advance(f, id, outcome) else f
  }

  function Run<K, O>(f: Flights<K, O>, events: seq<Event<K, O>>): Flights<K, O> {
    if events == [] then f else Step(Run(f, events[..|events| - 1]), events[|events| - 1])
  }

  lemma CallCoherent<K(!new), O(!new)>(f: Flights<K, O>, key: K)
    requires Coherent(f)
    ensures Coherent(Call(f, key).0)
    ensures var (f', id) := Call(f, key);
            id < |f'.promises| && f'.promises[id].key == key && Listed(f'.promises[id].stage)
  {
    var (f', id) := Call(f, key);
    assert forall i :: 0 <= i < |f.promises| ==> f'.promises[i] == f.promises[i];
  }

  lemma AdvanceCoherent<K(!new), O(!new)>(f: Flights<K, O>, id: nat, outcome: O)
    requires Coherent(f) && id < |f.promises|
    ensures Coherent(Advance(f, id, outcome))
  {
    var f' := Advance(f, id, outcome);
    assert forall i :: 0 <= i < |f.promises| && i != id ==> f'.promises[i] == f.promises[i];
    assert f'.promises[id].key == f.promises[id].key;
  }

  /** One listed promise per key, over all runs. */
  lemma {:induction false} SingleFlight<K(!new), O(!new)>(events: seq<Event<K, O>>)
    ensures Coherent(Run(Flights(map[], []), events))
  {
    if events != [] {
      var before, e := Run(Flights(map[], []), events[..|events| - 1]), events[|events| - 1];
      SingleFlight(events[..|events| - 1]);
      match e
      case Called(key) => CallCoherent(before, key);
      case Advanced(id, outcome) =>
        if id < |before.promises| {
          AdvanceCoherent(before, id, outcome);
        }
    }
  }

  /** Two callbacks for one key never run at the same time. */
  lemma CallbacksNeverOverlap<K(!new), O(!new)>(events: seq<Event<K, O>>, i: nat, j: nat)
    requires var f: Flights<K, O> := Run(Flights(map[], []), events);
             && i < |f.promises| && j < |f.promises| && f.promises[i].key == f.promises[j].key
             && f.promises[i].stage.Running? && f.promises[j].stage.Running?
    ensures i == j
  {
    SingleFlight(events);
  }

  /** Once the callback has an outcome the promise never gets another, so everybody who joined sees the same one. */
  lemma {:induction false} OutcomeStable<K(!new), O(!new)>(f: Flights<K, O>, events: seq<Event<K, O>>, id: nat)
    requires id < |f.promises| && !f.promises[id].stage.Running?
    ensures var p := Run(f, events).promises;
            id < |p| && !p[id].stage.Running? && p[id].stage.outcome == f.promises[id].stage.outcome
    ensures Run(f, events).promises[id].key == f.promises[id].key
    ensures !Listed(f.promises[id].stage) ==> !Listed(Run(f, events).promises[id].stage)
  {
    if events != [] {
      OutcomeStable(f, events[..|events| - 1], id);
    }
  }

  /**
   * When callers can see the outcome of a promise its entry is gone, and a later call for its key joins another
   * promise: a brand-new one, unless somebody else has started one since.
   */
  lemma LaterCallIsNew<K(!new), O(!new)>(events: seq<Event<K, O>>, id: nat)
    requires var f: Flights<K, O> := Run(Flights(map[], []), events);
             id < |f.promises| && f.promises[id].stage.Settled?
    ensures var f: Flights<K, O> := Run(Flights(map[], []), events);
            var key := f.promises[id].key;
            && (forall k :: k in f.current ==> f.current[k] != id)
            && Call(f, key).1 != id
            && (key !in f.current ==> Call(f, key).1 == |f.promises|)
  {
    SingleFlight(events);
  }

  /**
   * A promise settles in three steps: the callback's outcome comes with the entry still there, then the entry goes with
   * nobody having seen the outcome, then the callers see it.
   */
  lemma SettlesInOrder<K(!new), O(!new)>(f: Flights<K, O>, id: nat, outcome: O, other: O)
    requires Coherent(f) && id < |f.promises| && f.promises[id].stage.Running?
    ensures var key := f.promises[id].key;
            var f1 := Advance(f, id, outcome);
            && f1.promises[id].stage == Done(outcome) && f1.current == f.current && f.current[key] == id
            && var f2 := Advance(f1, id, other);
               && f2.promises[id].stage == Cleared(outcome) && f2.current == f.current - {key}
               && var f3 := Advance(f2, id, other);
                  f3.promises[id].stage == Settled(outcome) && f3.current == f2.current
  {
  }
}
