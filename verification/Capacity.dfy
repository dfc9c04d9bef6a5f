/** Durable capacity reservations: four tables changed together by transactions. */
module Capacity {
  import opened Text

  // ------------------------------------------------------------------------------ tables

  datatype State = InFlight | Succeeded | Failed | Throttled | CapacityRejected | Abandoned

  /** A row of the reservation table; times are instants in one unit. */
  datatype Row = Row(id: string, pool: string, model: string, day: int, minute: int, estimated: int, reserved: int,
                     state: State, status: Option<int>, code: Option<string>, expires: int, completed: Option<int>)

  datatype Key = Key(period: int, pool: string, model: string)

  datatype Counted = Counted(requests: int, tokens: int)

  datatype Used = Used(pool: string, model: string, requests: int, tokens: int)

  datatype Condition = Healthy | Degraded | Cooldown

  datatype Health = Health(condition: Condition, consecutive: nat, failures: nat, throttles: nat, until: Option<int>)

  /** The daily, minute and request usage, the reservations in the order they were made, and the health table. */
  datatype Tables = Tables(daily: map<Key, int>, minutes: map<Key, Counted>, usage: map<string, Used>,
                           rows: seq<Row>, health: map<(string, string), Health>)

  /** `quota_day` and `minute_bucket`. */
  datatype Periods = Periods(day: int -> int, minute: int -> int)

  datatype Policy = Policy(pool: string, model: string, shared: seq<string>, rpd: int, rpm: int, tpm: int, softCap: int,
                           maxInFlight: int, ttl: int, cooldown: int, threshold: int)

  /** What the caller of a reservation holds. */
  datatype Reservation = Reservation(id: string, model: string, estimated: int, policy: Policy)

  const SECOND := 1_000_000

  function SoftLimit(limit: int, basisPoints: int): int {
    limit * basisPoints / 10_000
  }

  function Daily(t: Tables, key: Key): int {
    if key in t.daily then t.daily[key] else 0
  }

  function Minutes(t: Tables, key: Key): Counted {
    if key in t.minutes then t.minutes[key] else Counted(0, 0)
  }

  // ------------------------------------------------------------------------- availability

  function DailyRequests(t: Tables, day: int, pool: string, models: seq<string>): int {
    if models == [] then 0
    else DailyRequests(t, day, pool, models[..|models| - 1]) + Daily(t, Key(day, pool, models[|models| - 1]))
  }

  predicate IsOpen(row: Row, pool: string, model: string) {
    row.pool == pool && row.model == model && row.state == InFlight
  }

  /** The open reservations of a pair that have not expired. */
  function InFlightAt(rows: seq<Row>, pool: string, model: string, now: int): nat {
    if rows == [] then 0
    else
      var n := |rows| - 1;
      InFlightAt(rows[..n], pool, model, now) + if IsOpen(rows[n], pool, model) && rows[n].expires > now then 1 else 0
  }

  predicate IsCooling(t: Tables, policy: Policy, now: int) {
    (policy.pool, policy.model) in t.health &&
    var h := t.health[(policy.pool, policy.model)];
    h.condition == Cooldown && h.until.Some? && h.until.value > now
  }

  predicate Within(used: int, limit: int) {
    0 < limit && used <= limit
  }

  /** `_capacity_snapshot(...).available`; the rolling usage of the last minute is given. */
  predicate IsAvailable(t: Tables, policy: Policy, periods: Periods, estimated: int, rolling: Counted, now: int) {
    && !IsCooling(t, policy, now)
    && Within(DailyRequests(t, periods.day(now), policy.pool, policy.shared) + 1, SoftLimit(policy.rpd, policy.softCap))
    && Within(rolling.requests + 1, SoftLimit(policy.rpm, policy.softCap))
    && Within(rolling.tokens + estimated, SoftLimit(policy.tpm, policy.softCap))
    && Within(InFlightAt(t.rows, policy.pool, policy.model, now) + 1, policy.maxInFlight)
  }

  // -------------------------------------------------------------------------- transactions

  function Expired(row: Row, now: int): Row {
    if row.state == InFlight && row.expires <= now
    then row.(state := Abandoned, code := Some("RESERVATION_EXPIRED"), completed := Some(now)) else row
  }

  function Expire(rows: seq<Row>, now: int): (r: seq<Row>)
    ensures |r| == |rows| && forall k :: 0 <= k < |rows| ==> r[k] == Expired(rows[k], now)
  {
    seq(|rows|, k requires 0 <= k < |rows| => Expired(rows[k], now))
  }

  predicate HasId(rows: seq<Row>, id: string) {
    exists k :: 0 <= k < |rows| && rows[k].id == id
  }

  /** The position of a reservation. */
  function Find(rows: seq<Row>, id: string): (r: Option<nat>)
    ensures r.Some? ==> r.value < |rows| && rows[r.value].id == id
    ensures r.None? ==> !HasId(rows, id)
  {
    if rows == [] then None
    else
      var n := |rows| - 1;
      if rows[n].id == id then Some(n) else Find(rows[..n], id)
  }

  /** A request for capacity: a policy, the caller's model and estimate, a new identity. */
  datatype Request = Request(policy: Policy, model: string, estimated: int, rolling: Counted, id: string)

  function NewRow(periods: Periods, q: Request, now: int): Row {
    Row(q.id, q.policy.pool, q.model, periods.day(now), periods.minute(now), q.estimated, q.estimated,
        InFlight, None, None, now + q.policy.ttl * SECOND, None)
  }

  /** `_reserve_assistant_capacity`: all four tables or none. A used identity breaks a primary key. */
  function Reserve(t: Tables, periods: Periods, q: Request, now: int): (r: (Tables, Option<Reservation>)) {
    var expired := t.(rows := Expire(t.rows, now));
    if !IsAvailable(expired, q.policy, periods, q.estimated, q.rolling, now) || q.id in t.usage || HasId(t.rows, q.id)
    then (t, None)
    else
      var day, minute := Key(periods.day(now), q.policy.pool, q.model), Key(periods.minute(now), q.policy.pool, q.model);
      var before := Minutes(t, minute);
      (Tables(
         t.daily[day := Daily(t, day) + 1],
         t.minutes[minute := Counted(before.requests + 1, before.tokens + q.estimated)],
         t.usage[q.id := Used(q.policy.pool, q.model, 1, q.estimated)],
         expired.rows + [NewRow(periods, q, now)], t.health),
       Some(Reservation(q.id, q.model, q.estimated, q.policy)))
  }

  /** `_confirm_reserved_tokens`; `None` is the error for a number out of range. */
  function Confirm(t: Tables, r: Reservation, actual: int, recentTokens: int): (Tables, Option<bool>) {
    if !(1 <= actual <= 1_000_000_000) then (t, None)
    else if actual <= r.estimated then (t, Some(true))
    else
      var delta := actual - r.estimated;
      match Find(t.rows, r.id)
      case None => (t, Some(false))
      case Some(k) =>
        var row := t.rows[k];
        if row.state != InFlight || recentTokens + delta > SoftLimit(r.policy.tpm, r.policy.softCap) then (t, Some(false))
        else
          var minute := Key(row.minute, r.policy.pool, r.model);
          (t.(minutes := if minute in t.minutes
                         then t.minutes[minute := t.minutes[minute].(tokens := t.minutes[minute].tokens + delta)] else t.minutes,
              usage := if r.id in t.usage then t.usage[r.id := t.usage[r.id].(tokens := t.usage[r.id].tokens + delta)] else t.usage,
              rows := t.rows[k := row.(reserved := actual)]),
           Some(true))
  }

  /** How a reservation ends. */
  datatype Ending = Ending(state: State, status: Option<int>, code: Option<string>, affectsHealth: bool)

  function HealthAfter(prior: Option<Health>, policy: Policy, e: Ending, now: int): Option<Health> {
    if e.state == Succeeded then
      Some(match prior case None => Health(Healthy, 0, 0, 0, None) case Some(h) => h.(condition := Healthy, consecutive := 0, until := None))
    else if !e.affectsHealth then prior
    else
      var h := match prior case None => Health(Healthy, 0, 0, 0, None) case Some(h) => h;
      var throttled := e.status == Some(429);
      var cooling := throttled
        || ((e.status.None? || e.status.value in {500, 502, 503, 504}) && h.consecutive + 1 >= policy.threshold);
      Some(Health(if cooling then Cooldown else Degraded, h.consecutive + 1, h.failures + 1,
                  h.throttles + (if throttled then 1 else 0), if cooling then Some(now + policy.cooldown * SECOND) else None))
  }

  /** `_finish_reservation`: nothing happens to a reservation that is no longer open. */
  function Finish(t: Tables, r: Reservation, e: Ending, now: int): Tables {
    match Find(t.rows, r.id)
    case None => t
    case Some(k) =>
      if t.rows[k].state != InFlight then t
      else
        var pair := (r.policy.pool, r.policy.model);
        var after := HealthAfter(if pair in t.health then Some(t.health[pair]) else None, r.policy, e, now);
        t.(rows := t.rows[k := t.rows[k].(state := e.state, status := e.status, code := e.code, completed := Some(now))],
           health := if after.Some? then t.health[pair := after.value] else t.health)
  }

  // ---------------------------------------------------------------------- the database

  class Connection {
    var daily: map<Key, int>
    var minutes: map<Key, Counted>
    var usage: map<string, Used>
    var rows: seq<Row>
    var health: map<(string, string), Health>
    const periods: Periods

    function Contents(): Tables
      reads this
    {
      Tables(daily, minutes, usage, rows, health)
    }

    constructor (periods: Periods)
      ensures this.periods == periods && Contents() == Tables(map[], map[], map[], [], map[])
    {
      this.periods := periods;
      daily, minutes, usage, rows, health := map[], map[], map[], [], map[];
    }

    /** `_capacity_snapshot(...).available`. */
    method Snapshot(policy: Policy, estimated: int, rolling: Counted, now: int) returns (available: bool)
      ensures available == IsAvailable(Contents(), policy, periods, estimated, rolling, now)
    {
      if (policy.pool, policy.model) in health {
        var h := health[(policy.pool, policy.model)];
        if h.condition == Cooldown && h.until.Some? && h.until.value > now {
          return false;
        }
      }
      var inFlight := CountInFlight(rows, policy.pool, policy.model, now);
      var requests := DailyRequests(Contents(), periods.day(now), policy.pool, policy.shared);
      return Within(requests + 1, SoftLimit(policy.rpd, policy.softCap))
          && Within(rolling.requests + 1, SoftLimit(policy.rpm, policy.softCap))
          && Within(rolling.tokens + estimated, SoftLimit(policy.tpm, policy.softCap))
          && Within(inFlight + 1, policy.maxInFlight);
    }

    method ReserveAssistantCapacity(q: Request, now: int) returns (r: Option<Reservation>)
      modifies this
      ensures (Contents(), r) == Reserve(old(Contents()), periods, q, now)
    {
      var before := rows;
      rows := Expire(rows, now);
      var available := Snapshot(q.policy, q.estimated, q.rolling, now);
      if !available || q.id in usage || HasId(before, q.id) {
        rows := before;
        return None;
      }
      var day := Key(periods.day(now), q.policy.pool, q.model);
      var minute := Key(periods.minute(now), q.policy.pool, q.model);
      daily := daily[day := if day in daily then daily[day] + 1 else 1];
      var counted := if minute in minutes then minutes[minute] else Counted(0, 0);
      minutes := minutes[minute := Counted(counted.requests + 1, counted.tokens + q.estimated)];
      usage := usage[q.id := Used(q.policy.pool, q.model, 1, q.estimated)];
      rows := rows + [NewRow(periods, q, now)];
      return Some(Reservation(q.id, q.model, q.estimated, q.policy));
    }

    method ConfirmReservedTokens(r: Reservation, actual: int, recentTokens: int) returns (ok: Option<bool>)
      modifies this
      ensures (Contents(), ok) == Confirm(old(Contents()), r, actual, recentTokens)
    {
      if !(1 <= actual <= 1_000_000_000) {
        return None;
      }
      if actual <= r.estimated {
        return Some(true);
      }
      var delta := actual - r.estimated;
      var found := Find(rows, r.id);
      if found.None? || rows[found.value].state != InFlight {
        return Some(false);
      }
      if recentTokens + delta > SoftLimit(r.policy.tpm, r.policy.softCap) {
        return Some(false);
      }
      var row := rows[found.value];
      var minute := Key(row.minute, r.policy.pool, r.model);
      if minute in minutes {
        minutes := minutes[minute := minutes[minute].(tokens := minutes[minute].tokens + delta)];
      }
      if r.id in usage {
        usage := usage[r.id := usage[r.id].(tokens := usage[r.id].tokens + delta)];
      }
      rows := rows[found.value := row.(reserved := actual)];
      return Some(true);
    }

    method FinishReservation(r: Reservation, e: Ending, now: int)
      modifies this
      ensures Contents() == Finish(old(Contents()), r, e, now)
    {
      var found := Find(rows, r.id);
      if found.None? || rows[found.value].state != InFlight {
        return;
      }
      var row := rows[found.value];
      rows := rows[found.value := row.(state := e.state, status := e.status, code := e.code, completed := Some(now))];
      var pair := (r.policy.pool, r.policy.model);
      var after := HealthAfter(if pair in health then Some(health[pair]) else None, r.policy, e, now);
      if after.Some? {
        health := health[pair := after.value];
      }
    }
  }

  /** `SELECT count(*)` over the open, unexpired reservations of a pair. */
  method CountInFlight(rows: seq<Row>, pool: string, model: string, now: int) returns (count: nat)
    ensures count == InFlightAt(rows, pool, model, now)
  {
    count := 0;
    for k := 0 to |rows|
      invariant count == InFlightAt(rows[..k], pool, model, now)
    {
      assert rows[..k + 1][..k] == rows[..k];
      if IsOpen(rows[k], pool, model) && rows[k].expires > now {
        count := count + 1;
      }
    }
    assert rows[..|rows|] == rows;
  }

  /** `PreReservedAssistantAccountant`: one reservation is confirmed at most once. */
  class Accountant {
    const connection: Connection
    const reservation: Reservation
    var confirmed: bool

    constructor (connection: Connection, reservation: Reservation)
      ensures this.connection == connection && this.reservation == reservation && !confirmed
    {
      this.connection, this.reservation, confirmed := connection, reservation, false;
    }

    /** `reserve`; `None` is the error for usage that is not the reservation's. */
    method Reserve(u: Metered, recentTokens: int) returns (ok: Option<bool>)
      modifies this, connection
      ensures (connection.Contents(), confirmed, ok)
           == ReserveMetered(old(connection.Contents()), reservation, old(confirmed), u, recentTokens)
    {
      if confirmed {
        return Some(false);
      }
      if u.model != reservation.model || u.blankPurpose {
        return None;
      }
      ok := connection.ConfirmReservedTokens(reservation, u.tokens, recentTokens);
      confirmed := ok == Some(true);
    }
  }

  /** What the gateway reports before a request. */
  datatype Metered = Metered(model: string, blankPurpose: bool, tokens: int)

  /** The tables, the accountant's flag and its answer after a report. */
  function ReserveMetered(t: Tables, r: Reservation, confirmed: bool, u: Metered, recentTokens: int): (Tables, bool, Option<bool>) {
    if confirmed then (t, true, Some(false))
    else if u.model != r.model || u.blankPurpose then (t, false, None)
    else
      var (after, ok) := Confirm(t, r, u.tokens, recentTokens);
      (after, ok == Some(true), ok)
  }
}
