/** The daily soft cap of a shared quota, and what the health of a pair remembers of its past. */
module CapacityLimits {
  import opened Text
  import opened Capacity
  import opened CapacityRuns

  // ------------------------------------------------------------------------- the daily cap

  ghost predicate DistinctModels(models: seq<string>) {
    forall i, j :: 0 <= i < j < |models| ==> models[i] != models[j]
  }

  /** Every reservation that draws on the shared models states them, and a daily cap within the limit. */
  ghost predicate SharesQuota(a: Action, pool: string, models: seq<string>, limit: nat) {
    a.Reserving? && a.q.policy.pool == pool && a.q.model in models ==>
      a.q.policy.shared == models && SoftLimit(a.q.policy.rpd, a.q.policy.softCap) <= limit
  }

  lemma {:induction false} OneMoreRequest(t: Tables, after: Tables, key: Key, day: int, pool: string, models: seq<string>)
    requires DistinctModels(models) && after.daily == t.daily[key := Daily(t, key) + 1]
    ensures DailyRequests(after, day, pool, models)
         == DailyRequests(t, day, pool, models) + if key.period == day && key.pool == pool && key.model in models then 1 else 0
  {
    if models != [] {
      var n := |models| - 1;
      assert models == models[..n] + [models[n]];
      OneMoreRequest(t, after, key, day, pool, models[..n]);
    }
  }

  lemma {:induction false} SameRequests(t: Tables, after: Tables, day: int, pool: string, models: seq<string>)
    requires after.daily == t.daily
    ensures DailyRequests(after, day, pool, models) == DailyRequests(t, day, pool, models)
  {
    if models != [] { SameRequests(t, after, day, pool, models[..|models| - 1]); }
  }

  lemma DailyStaysWithinStep(s: System, periods: Periods, a: Action, pool: string, models: seq<string>, limit: nat, day: int)
    requires DistinctModels(models) && SharesQuota(a, pool, models, limit)
    requires DailyRequests(s.tables, day, pool, models) <= limit
    ensures DailyRequests(Perform(s, periods, a).tables, day, pool, models) <= limit
  {
    hide DailyRequests, IsCooling, InFlightAt, HealthAfter, Find, DistinctModels;
    var after := Perform(s, periods, a).tables;
    if a.Reserving? && Reserve(s.tables, periods, a.q, a.now).1.Some? {
      var expired := s.tables.(rows := Expire(s.tables.rows, a.now));
      SameRequests(s.tables, expired, day, pool, models);
      OneMoreRequest(s.tables, after, Key(periods.day(a.now), a.q.policy.pool, a.q.model), day, pool, models);
    } else {
      SameRequests(s.tables, after, day, pool, models);
    }
  }

  /** Over every run the requests of a day against a shared quota never exceed its soft cap. */
  lemma {:induction false} DailyStaysWithin(periods: Periods, actions: seq<Action>, pool: string, models: seq<string>, limit: nat, day: int)
    requires DistinctModels(models) && forall k :: 0 <= k < |actions| ==> SharesQuota(actions[k], pool, models, limit)
    ensures DailyRequests(PerformAll(EMPTY, periods, actions).tables, day, pool, models) <= limit
  {
    hide Perform, SharesQuota, DistinctModels;
    if actions == [] {
      NoRequests(day, pool, models);
    } else {
      var n := |actions| - 1;
      DailyStaysWithin(periods, actions[..n], pool, models, limit, day);
      DailyStaysWithinStep(PerformAll(EMPTY, periods, actions[..n]), periods, actions[n], pool, models, limit, day);
    }
  }

  lemma {:induction false} NoRequests(day: int, pool: string, models: seq<string>)
    ensures DailyRequests(EMPTY.tables, day, pool, models) == 0
  {
    if models != [] { NoRequests(day, pool, models[..|models| - 1]); }
  }

  // ------------------------------------------------------------------------------ health

  /** An ending of a reservation, the policy the reservation was made under, and the time. */
  datatype Ended = Ended(policy: Policy, e: Ending, now: int)

  /** Whether an action ends a reservation of a pair that is still open. */
  predicate Ends(t: Tables, a: Action, pair: (string, string)) {
    a.Finishing? && (a.r.policy.pool, a.r.policy.model) == pair &&
    match Find(t.rows, a.r.id) case None => false case Some(k) => t.rows[k].state == InFlight
  }

  /** What ended the reservations of a pair in a run, in order. */
  function Endings(periods: Periods, actions: seq<Action>, pair: (string, string)): seq<Ended> {
    if actions == [] then []
    else
      var n := |actions| - 1;
      var before, a := Endings(periods, actions[..n], pair), actions[n];
      if Ends(PerformAll(EMPTY, periods, actions[..n]).tables, a, pair) then before + [Ended(a.r.policy, a.e, a.now)] else before
  }

  function HealthIn(t: Tables, pair: (string, string)): Option<Health> {
    if pair in t.health then Some(t.health[pair]) else None
  }

  function HealthOf(past: seq<Ended>): Option<Health> {
    if past == [] then None
    else
      var last := past[|past| - 1];
      HealthAfter(HealthOf(past[..|past| - 1]), last.policy, last.e, last.now)
  }

  lemma StepMovesHealth(s: System, periods: Periods, a: Action, pair: (string, string))
    ensures HealthIn(Perform(s, periods, a).tables, pair)
         == if Ends(s.tables, a, pair) then HealthAfter(HealthIn(s.tables, pair), a.r.policy, a.e, a.now) else HealthIn(s.tables, pair)
  {
    hide IsAvailable, HealthAfter;
    if a.Finishing? { HealthStays(HealthIn(s.tables, pair), a.r.policy, a.e, a.now); }
  }

  lemma HealthStays(prior: Option<Health>, policy: Policy, e: Ending, now: int)
    ensures prior.Some? ==> HealthAfter(prior, policy, e, now).Some?
  {}

  /** Over every run the health row of a pair comes from the endings of its own reservations and from nothing else. */
  lemma {:induction false} HealthComesFromEndings(periods: Periods, actions: seq<Action>, pair: (string, string))
    ensures HealthIn(PerformAll(EMPTY, periods, actions).tables, pair) == HealthOf(Endings(periods, actions, pair))
  {
    hide Perform, HealthAfter;
    if actions != [] {
      var n := |actions| - 1;
      HealthComesFromEndings(periods, actions[..n], pair);
      StepMovesHealth(PerformAll(EMPTY, periods, actions[..n]), periods, actions[n], pair);
      var before := Endings(periods, actions[..n], pair);
      assert forall one :: (before + [one])[..|before|] == before;
    }
  }

  predicate IsFailure(e: Ending) {
    e.state != Succeeded && e.affectsHealth
  }

  predicate IsThrottle(e: Ending) {
    IsFailure(e) && e.status == Some(429)
  }

  function Failures(past: seq<Ended>): nat {
    if past == [] then 0 else Failures(past[..|past| - 1]) + if IsFailure(past[|past| - 1].e) then 1 else 0
  }

  function Throttles(past: seq<Ended>): nat {
    if past == [] then 0 else Throttles(past[..|past| - 1]) + if IsThrottle(past[|past| - 1].e) then 1 else 0
  }

  /** The failures since the last success. */
  function Streak(past: seq<Ended>): nat {
    if past == [] then 0
    else
      var n := |past| - 1;
      if past[n].e.state == Succeeded then 0 else Streak(past[..n]) + if IsFailure(past[n].e) then 1 else 0
  }

  /** A failure to cool down after: a throttle, or a transient one that reaches the policy's threshold. */
  predicate Cools(last: Ended, streak: nat) {
    last.e.status == Some(429) || ((last.e.status.None? || last.e.status.value in {500, 502, 503, 504}) && streak >= last.policy.threshold)
  }

  /** The last failure, if no success came after it, and whether it was one to cool down after. */
  function LastFailure(past: seq<Ended>): Option<(Ended, bool)> {
    if past == [] then None
    else
      var last := past[|past| - 1];
      if last.e.state == Succeeded then None
      else if IsFailure(last.e) then Some((last, Cools(last, Streak(past))))
      else LastFailure(past[..|past| - 1])
  }

  lemma {:induction false} HealthOfEndings(past: seq<Ended>)
    ensures Remembers(HealthOf(past), past)
  {
    if past != [] {
      var n := |past| - 1;
      HealthOfEndings(past[..n]);
      if HealthOf(past[..n]).None? { NothingToCount(past[..n]); }
      assert past == past[..n] + [past[n]];
    }
  }

  predicate IsQuiet(past: seq<Ended>) {
    forall k :: 0 <= k < |past| ==> past[k].e.state != Succeeded && !IsFailure(past[k].e)
  }

  lemma {:induction false} NothingToCount(past: seq<Ended>)
    requires IsQuiet(past)
    ensures Failures(past) == Throttles(past) == Streak(past) == 0 && LastFailure(past).None?
  {
    if past != [] { NothingToCount(past[..|past| - 1]); }
  }

  /** A health row counts all failures and throttles and the failures since the last success, and cools down as the last failure says. */
  predicate Remembers(health: Option<Health>, past: seq<Ended>) {
    match health
    case None => IsQuiet(past)
    case Some(h) =>
      && !IsQuiet(past)
      && h.failures == Failures(past) && h.throttles == Throttles(past) && h.consecutive == Streak(past)
      && match LastFailure(past)
         case None => h.condition == Healthy && h.until == None
         case Some((last, cools)) =>
           if cools then h.condition == Cooldown && h.until == Some(last.now + last.policy.cooldown * SECOND)
           else h.condition == Degraded && h.until == None
  }

  /**
    Over every run the health of a pair is what the endings of its reservations say, each under its own
    policy: all failures and throttles are counted, consecutive ones since the last success, and the pair
    cools down exactly after a throttle or a transient failure that reaches the threshold, from that failure's time.
   */
  lemma HealthRemembers(periods: Periods, actions: seq<Action>, pair: (string, string))
    ensures Remembers(HealthIn(PerformAll(EMPTY, periods, actions).tables, pair), Endings(periods, actions, pair))
  {
    hide Remembers, Perform, HealthAfter;
    HealthComesFromEndings(periods, actions, pair);
    HealthOfEndings(Endings(periods, actions, pair));
  }
}
