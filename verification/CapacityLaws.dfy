/** When a request gets a reservation, told from the reservations of the run alone. */
module CapacityLaws {
  import opened Text
  import opened Capacity
  import opened CapacityRuns
  import opened CapacityLimits

  // ------------------------------------------------------------------ counting reservations

  /** The reservations of a day on a pool's shared models. */
  function OfDay(rows: seq<Row>, day: int, pool: string, models: seq<string>): set<nat> {
    set k: nat | k < |rows| && rows[k].day == day && rows[k].pool == pool && rows[k].model in models
  }

  /** The open reservations of a pair that have not expired at an instant. */
  function OpenAt(rows: seq<Row>, pool: string, model: string, now: int): set<nat> {
    set k: nat | k < |rows| && rows[k].pool == pool && rows[k].model == model && rows[k].state == InFlight && rows[k].expires > now
  }

  lemma {:induction false} InFlightCounts(rows: seq<Row>, pool: string, model: string, now: int)
    ensures InFlightAt(rows, pool, model, now) == |OpenAt(rows, pool, model, now)|
  {
    hide OpenAt;
    OpenAtEnd(rows, pool, model, now);
    if rows != [] { InFlightCounts(rows[..|rows| - 1], pool, model, now); }
  }

  lemma OpenAtEnd(rows: seq<Row>, pool: string, model: string, now: int)
    ensures rows == [] ==> OpenAt(rows, pool, model, now) == {}
    ensures rows != [] ==>
      var n := |rows| - 1;
      |OpenAt(rows, pool, model, now)| == |OpenAt(rows[..n], pool, model, now)| + if IsOpen(rows[n], pool, model) && rows[n].expires > now then 1 else 0
  {
    if rows != [] {
      var n := |rows| - 1;
      var before, all := OpenAt(rows[..n], pool, model, now), OpenAt(rows, pool, model, now);
      forall k: nat
        ensures k in all <==> k in before || (k == n && IsOpen(rows[n], pool, model) && rows[n].expires > now)
      {
        assert k < n ==> rows[..n][k] == rows[k];
      }
      assert all == before + if IsOpen(rows[n], pool, model) && rows[n].expires > now then {n} else {};
    }
  }

  lemma {:induction false} DayCounts(rows: seq<Row>, day: int, pool: string, model: string)
    ensures DayCount(rows, Key(day, pool, model)) == |OfDay(rows, day, pool, [model])|
  {
    if rows == [] {
      assert OfDay(rows, day, pool, [model]) == {};
    } else {
      var n := |rows| - 1;
      DayCounts(rows[..n], day, pool, model);
      assert OfDay(rows, day, pool, [model]) == OfDay(rows[..n], day, pool, [model]) +
        if IsOfDay(rows[n], Key(day, pool, model)) then {n} else {};
    }
  }

  lemma OneModelMore(rows: seq<Row>, day: int, pool: string, models: seq<string>, model: string)
    requires model !in models
    ensures |OfDay(rows, day, pool, models + [model])| == |OfDay(rows, day, pool, models)| + |OfDay(rows, day, pool, [model])|
  {
    var a, b := OfDay(rows, day, pool, models), OfDay(rows, day, pool, [model]);
    assert OfDay(rows, day, pool, models + [model]) == a + b;
    assert a * b == {};
  }

  lemma {:induction false} DailyCounts(t: Tables, day: int, pool: string, models: seq<string>)
    requires SumsAgree(t) && DistinctModels(models)
    ensures DailyRequests(t, day, pool, models) == |OfDay(t.rows, day, pool, models)|
  {
    hide Daily, DayCount, OfDay;
    if models == [] {
      NoModels(t.rows, day, pool);
    } else {
      var n := |models| - 1;
      DailyCounts(t, day, pool, models[..n]);
      assert models == models[..n] + [models[n]] && models[n] !in models[..n];
      OneModelMore(t.rows, day, pool, models[..n], models[n]);
      DayCounts(t.rows, day, pool, models[n]);
      assert Daily(t, Key(day, pool, models[n])) == DayCount(t.rows, Key(day, pool, models[n]));
    }
  }

  lemma NoModels(rows: seq<Row>, day: int, pool: string)
    ensures OfDay(rows, day, pool, []) == {}
  {}

  // -------------------------------------------------------------------------- the limits

  /** A use stays within a limit's share, in basis points; a share of less than one admits nothing. */
  predicate FitsShare(used: int, limit: int, basisPoints: int) {
    limit * basisPoints >= 10_000 && used * 10_000 <= limit * basisPoints
  }

  lemma ShareIs(used: int, limit: int, basisPoints: int)
    ensures Capacity.Within(used, SoftLimit(limit, basisPoints)) <==> FitsShare(used, limit, basisPoints)
  {
    var x := limit * basisPoints;
    assert SoftLimit(limit, basisPoints) == x / 10_000;
  }

  /** The pair's last failure, with no success after it, was one to cool down after, and the time is not over. */
  predicate CoolsDown(past: seq<Ended>, now: int) {
    match LastFailure(past)
    case None => false
    case Some((last, cools)) => cools && last.now + last.policy.cooldown * 1_000_000 > now
  }

  /**
    What a request needs, counted from the reservations that were made and how they ended: no cooldown, and
    room for one more request of the day, of the last minute, for its tokens, and in flight.
   */
  ghost predicate HasRoom(periods: Periods, actions: seq<Action>, rows: seq<Row>, q: Request, now: int) {
    var p := q.policy;
    && !CoolsDown(Endings(periods, actions, (p.pool, p.model)), now)
    && FitsShare(|OfDay(rows, periods.day(now), p.pool, p.shared)| + 1, p.rpd, p.softCap)
    && FitsShare(q.rolling.requests + 1, p.rpm, p.softCap)
    && FitsShare(q.rolling.tokens + q.estimated, p.tpm, p.softCap)
    && |OpenAt(rows, p.pool, p.model, now)| + 1 <= p.maxInFlight
  }

  lemma CoolingIs(periods: Periods, actions: seq<Action>, p: Policy, now: int)
    ensures IsCooling(PerformAll(EMPTY, periods, actions).tables, p, now)
       <==> CoolsDown(Endings(periods, actions, (p.pool, p.model)), now)
  {
    hide PerformAll, Endings, LastFailure, IsQuiet, Failures, Throttles, Streak;
    HealthRemembers(periods, actions, (p.pool, p.model));
    var past := Endings(periods, actions, (p.pool, p.model));
    if IsQuiet(past) { NothingToCount(past); }
  }

  /** The rows that a reservation finds: those whose time is over are closed first. */
  lemma ExpiredCounts(rows: seq<Row>, day: int, pool: string, models: seq<string>, model: string, now: int)
    ensures OfDay(Expire(rows, now), day, pool, models) == OfDay(rows, day, pool, models)
    ensures OpenAt(Expire(rows, now), pool, model, now) == OpenAt(rows, pool, model, now)
  {}

  /**
    Over every run of the transactions: a request gets a reservation exactly when it has room and its identity
    is new; then one row is added for it, open until its time is over, and otherwise nothing changes.
   */
  lemma ReservesExactly(periods: Periods, actions: seq<Action>, q: Request, now: int)
    requires AreProper(EMPTY, periods, actions) && DistinctModels(q.policy.shared)
    ensures var t := PerformAll(EMPTY, periods, actions).tables;
      var (after, made) := Reserve(t, periods, q, now);
      && (made.Some? <==> HasRoom(periods, actions, t.rows, q, now) && !HasId(t.rows, q.id))
      && (made.None? ==> after == t)
      && (made.Some? ==>
           && made.value == Reservation(q.id, q.model, q.estimated, q.policy) && |after.rows| == |t.rows| + 1
           && (forall k :: 0 <= k < |t.rows| ==> after.rows[k] == IfExpired(t.rows[k], now))
           && var row := after.rows[|t.rows|];
              && row.id == q.id && row.pool == q.policy.pool && row.model == q.model && row.state == InFlight
              && row.day == periods.day(now) && row.minute == periods.minute(now)
              && row.estimated == q.estimated == row.reserved && row.expires == now + q.policy.ttl * 1_000_000)
  {
    hide PerformAll, Endings, HasId, CoolsDown, IsCooling, FitsShare, OfDay, OpenAt, SoftLimit, InFlightAt, DailyRequests;
    var t := PerformAll(EMPTY, periods, actions).tables;
    var expired := t.(rows := Expire(t.rows, now));
    var p := q.policy;
    TablesStayInStep(periods, actions);
    CoolingIs(periods, actions, p, now);
    CoolingStays(t, expired, p, now);
    DailyCounts(t, periods.day(now), p.pool, p.shared);
    SameRequests(t, expired, periods.day(now), p.pool, p.shared);
    InFlightCounts(expired.rows, p.pool, p.model, now);
    ExpiredCounts(t.rows, periods.day(now), p.pool, p.shared, p.model, now);
    ShareIs(|OfDay(t.rows, periods.day(now), p.pool, p.shared)| + 1, p.rpd, p.softCap);
    ShareIs(q.rolling.requests + 1, p.rpm, p.softCap);
    ShareIs(q.rolling.tokens + q.estimated, p.tpm, p.softCap);
    UsageKnowsIds(PerformAll(EMPTY, periods, actions), q.id);
  }

  /** A row as the next reservation leaves it: closed if its time is over. */
  function IfExpired(row: Row, now: int): Row {
    if row.state == InFlight && row.expires <= now
    then row.(state := Abandoned, code := Some("RESERVATION_EXPIRED"), completed := Some(now)) else row
  }

  lemma CoolingStays(t: Tables, expired: Tables, p: Policy, now: int)
    requires expired.health == t.health
    ensures IsCooling(expired, p, now) == IsCooling(t, p, now)
  {}

  lemma UsageKnowsIds(s: System, id: string)
    requires InStep(s)
    ensures id in s.tables.usage <==> HasId(s.tables.rows, id)
  {
    hide SumsAgree, AsEstimated;
  }

  // -------------------------------------------------------------------- exact token counts

  /**
    In step, a reservation that is not confirmed yet is confirmed exactly for valid usage that its estimate
    covers, or that the minute still has room for while it is open; then the row holds the larger number.
   */
  lemma ConfirmsExactly(s: System, r: Reservation, u: Metered, recent: int, k: nat)
    requires InStep(s) && k < |s.tables.rows|
    requires var row := s.tables.rows[k]; row.id == r.id && row.pool == r.policy.pool && row.model == r.model && row.estimated == r.estimated
    requires r.id !in s.confirmed
    ensures var row := s.tables.rows[k];
      var (after, confirmed, ok) := ReserveMetered(s.tables, r, false, u, recent);
      var hasRoom := row.state == InFlight && (recent + u.tokens - row.estimated) * 10_000 <= r.policy.tpm * r.policy.softCap;
      var isUsage := u.model == r.model && !u.blankPurpose && 1 <= u.tokens <= 1_000_000_000;
      && confirmed == (ok == Some(true)) && (ok.None? <==> !isUsage)
      && (ok == Some(true) <==> isUsage && (u.tokens <= row.estimated || hasRoom))
      && (if ok == Some(true) && u.tokens > row.estimated
          then after.rows == s.tables.rows[k := row.(reserved := u.tokens)] else after == s.tables)
  {
    hide SumsAgree, UsageLists;
    DistinctIdsIn(s);
    UniqueFind(s.tables.rows, k);
    RoomIs(recent + u.tokens - s.tables.rows[k].estimated, r.policy.tpm, r.policy.softCap);
  }

  lemma DistinctIdsIn(s: System)
    requires InStep(s)
    ensures DistinctIds(s.tables.rows)
  {}

  lemma RoomIs(used: int, limit: int, basisPoints: int)
    ensures used <= SoftLimit(limit, basisPoints) <==> used * 10_000 <= limit * basisPoints
  {
    var x := limit * basisPoints;
    assert SoftLimit(limit, basisPoints) == x / 10_000;
  }
}
