/** Applying a configuration to Caddy with rollback to the last good one. */
module ConfigSnapshot {
  import opened Options

  datatype RollbackFailure = NoPrevious | AllAttemptsFailed(attempts: nat) | Exhausted

  datatype Outcome = Applied | NotBuilt | LoadFailed | RollbackFailed(why: RollbackFailure)

  const MAX_ROLLBACK_ATTEMPTS: nat := 3

  /** How an apply changes what runs and what is last good; `built` is the configuration, if it could be built. */
  predicate Ends<T(==)>(r: Outcome, built: Option<T>, live: T, lastGood: Option<T>, live': T, lastGood': Option<T>) {
    match r
    case NotBuilt => built.None? && live' == live && lastGood' == lastGood
    case Applied => built.Some? && live' == built.value && lastGood' == built
    case LoadFailed => built.Some? && lastGood.Some? && live' == lastGood.value && lastGood' == lastGood
    case RollbackFailed(why) =>
      && built.Some? && lastGood' == lastGood
      && (why == NoPrevious <==> lastGood.None?)
      && live' in {live, built.value} + if lastGood.Some? then {lastGood.value} else {}
  }

  /**
   `live` is what Caddy runs. A load that fails may still have switched it: the answer can
   get lost on the way back.
   */
  class SnapshotManager<T(==)> {
    var lastGood: Option<T>
    var live: T
    var loads: nat

    constructor (initial: T)
      ensures lastGood == None && live == initial && loads == 0
    {
      lastGood, live, loads := None, initial, 0;
    }

    /** One POST to Caddy's admin endpoint, with whatever result it has. */
    method LoadConfig(config: T) returns (ok: bool)
      modifies this`live, this`loads
      ensures loads == old(loads) + 1
      ensures ok ==> live == config
      ensures !ok ==> live == old(live) || live == config
    {
      ok := *;
      var switched := *;
      if ok || switched {
        live := config;
      }
      loads := loads + 1;
    }

    method Apply(built: Option<T>) returns (r: Outcome)
      modifies this
      ensures Ends(r, built, old(live), old(lastGood), live, lastGood)
      ensures r.NotBuilt? ==> loads == old(loads)
      ensures r.Applied? ==> loads == old(loads) + 1
      ensures r.LoadFailed? ==> 2 <= loads - old(loads) <= 4
      ensures r == RollbackFailed(NoPrevious) ==> loads == old(loads) + 1
      ensures r.RollbackFailed? && r.why != NoPrevious ==>
                r.why == AllAttemptsFailed(3) && loads == old(loads) + 4
    {
      if built.None? {
        return NotBuilt;
      }
      var ok := LoadConfig(built.value);
      if ok {
        lastGood := built;
        return Applied;
      }
      r := Rollback();
      if r.Applied? {
        r := LoadFailed;
      }
    }

    /** Puts the last good configuration back, trying a fixed number of times. */
    method Rollback() returns (r: Outcome)
      modifies this`live, this`loads
      ensures r.Applied? || r.RollbackFailed?
      ensures r.Applied? ==>
                lastGood.Some? && live == lastGood.value && 1 <= loads - old(loads) <= 3
      ensures r.RollbackFailed? && lastGood.None? ==>
                r.why == NoPrevious && loads == old(loads) && live == old(live)
      ensures r.RollbackFailed? && lastGood.Some? ==>
                r.why == AllAttemptsFailed(3) && loads == old(loads) + 3 &&
                (live == old(live) || live == lastGood.value)
    {
      if lastGood.None? {
        return RollbackFailed(NoPrevious);
      }
      var attempt := 1;
      while attempt <= MAX_ROLLBACK_ATTEMPTS
        invariant 1 <= attempt <= MAX_ROLLBACK_ATTEMPTS
        invariant loads == old(loads) + attempt - 1
        invariant live == old(live) || live == lastGood.value
        decreases MAX_ROLLBACK_ATTEMPTS + 1 - attempt
      {
        var ok := LoadConfig(lastGood.value);
        if ok {
          return Applied;
        }
        if attempt == MAX_ROLLBACK_ATTEMPTS {
          return RollbackFailed(AllAttemptsFailed(MAX_ROLLBACK_ATTEMPTS));
        }
        attempt := attempt + 1;
      }
      r := RollbackFailed(Exhausted);
    }
  }
}
