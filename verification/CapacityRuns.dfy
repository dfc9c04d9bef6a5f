/** What every interleaving of reservations, confirmations, endings and expiries keeps. */
module CapacityRuns {
  import opened Text
  import opened Capacity

  // ------------------------------------------------------------------------------- runs

  /** The tables, and the reservations whose accountant has confirmed them. */
  datatype System = System(tables: Tables, confirmed: set<string>)

  datatype Action =
    | Reserving(q: Request, now: int)
    | Confirming(r: Reservation, u: Metered, recentTokens: int)
    | Finishing(r: Reservation, e: Ending, now: int)

  function Perform(s: System, periods: Periods, a: Action): System {
    match a
    case Reserving(q, now) => s.(tables := Reserve(s.tables, periods, q, now).0)
    case Confirming(r, u, recent) =>
      var (after, confirmed, _) := ReserveMetered(s.tables, r, r.id in s.confirmed, u, recent);
      System(after, if confirmed then s.confirmed + {r.id} else s.confirmed)
    case Finishing(r, e, now) => s.(tables := Finish(s.tables, r, e, now))
  }

  /** A caller holds only what a reservation returned. */
  ghost predicate IsIssued(rows: seq<Row>, r: Reservation) {
    exists k :: 0 <= k < |rows| && rows[k].id == r.id && rows[k].pool == r.policy.pool && rows[k].model == r.model && rows[k].estimated == r.estimated
  }

  /** How the module's own code uses its transactions. */
  ghost predicate IsProper(s: System, a: Action) {
    match a
    case Reserving(q, _) => q.model == q.policy.model
    case Confirming(r, _, _) => IsIssued(s.tables.rows, r)
    case Finishing(r, e, _) => IsIssued(s.tables.rows, r) && e.state != InFlight
  }

  function PerformAll(s: System, periods: Periods, actions: seq<Action>): System {
    if actions == [] then s
    else Perform(PerformAll(s, periods, actions[..|actions| - 1]), periods, actions[|actions| - 1])
  }

  ghost predicate AreProper(s: System, periods: Periods, actions: seq<Action>) {
    forall k :: 0 <= k < |actions| ==> IsProper(PerformAll(s, periods, actions[..k]), actions[k])
  }

  const EMPTY := System(Tables(map[], map[], map[], [], map[]), {})

  // --------------------------------------------------------------------- sums over the rows

  predicate IsOfDay(row: Row, key: Key) {
    Key(row.day, row.pool, row.model) == key
  }

  predicate IsOfMinute(row: Row, key: Key) {
    Key(row.minute, row.pool, row.model) == key
  }

  function DayCount(rows: seq<Row>, key: Key): int {
    if rows == [] then 0 else DayCount(rows[..|rows| - 1], key) + if IsOfDay(rows[|rows| - 1], key) then 1 else 0
  }

  function MinuteCount(rows: seq<Row>, key: Key): Counted {
    if rows == [] then Counted(0, 0)
    else
      var before, row := MinuteCount(rows[..|rows| - 1], key), rows[|rows| - 1];
      if IsOfMinute(row, key) then Counted(before.requests + 1, before.tokens + row.reserved) else before
  }

  /** Rows that count alike: only their state may differ. */
  predicate CountsAlike(a: Row, b: Row) {
    a.id == b.id && a.pool == b.pool && a.model == b.model && a.day == b.day && a.minute == b.minute && a.estimated == b.estimated
  }

  lemma {:induction false} AlikeCounts(a: seq<Row>, b: seq<Row>, key: Key)
    requires |a| == |b| && forall k :: 0 <= k < |a| ==> CountsAlike(a[k], b[k])
    ensures DayCount(a, key) == DayCount(b, key) && MinuteCount(a, key).requests == MinuteCount(b, key).requests
    ensures (forall k :: 0 <= k < |a| ==> a[k].reserved == b[k].reserved) ==> MinuteCount(a, key) == MinuteCount(b, key)
  {
    if a != [] { AlikeCounts(a[..|a| - 1], b[..|b| - 1], key); }
  }

  lemma {:induction false} MoreTokens(rows: seq<Row>, k: nat, tokens: int, key: Key)
    requires k < |rows|
    ensures MinuteCount(rows[k := rows[k].(reserved := tokens)], key)
         == var before := MinuteCount(rows, key);
            if IsOfMinute(rows[k], key) then before.(tokens := before.tokens + tokens - rows[k].reserved) else before
  {
    var n := |rows| - 1;
    var after := rows[k := rows[k].(reserved := tokens)];
    if k < n {
      assert after[..n] == rows[..n][k := rows[k].(reserved := tokens)];
      MoreTokens(rows[..n], k, tokens, key);
    } else {
      assert after[..n] == rows[..n];
    }
  }

  lemma AppendCounts(rows: seq<Row>, row: Row, key: Key)
    ensures DayCount(rows + [row], key) == DayCount(rows, key) + if IsOfDay(row, key) then 1 else 0
    ensures MinuteCount(rows + [row], key) == WithRow(MinuteCount(rows, key), row, key)
  {
    assert (rows + [row])[..|rows|] == rows;
  }

  // ------------------------------------------------------------------ the tables keep step

  ghost predicate DistinctIds(rows: seq<Row>) {
    forall i, j :: 0 <= i < j < |rows| ==> rows[i].id != rows[j].id
  }

  ghost predicate SumsAgree(t: Tables) {
    && (forall key :: Daily(t, key) == DayCount(t.rows, key))
    && (forall key :: Minutes(t, key) == MinuteCount(t.rows, key))
  }

  ghost predicate UsageLists(t: Tables) {
    && DistinctIds(t.rows)
    && (forall id :: id in t.usage ==> HasId(t.rows, id))
    && forall k :: 0 <= k < |t.rows| ==>
         var row := t.rows[k];
         row.id in t.usage && t.usage[row.id] == Used(row.pool, row.model, 1, row.reserved)
  }

  ghost predicate AsEstimated(s: System) {
    forall k :: 0 <= k < |s.tables.rows| && s.tables.rows[k].id !in s.confirmed ==> s.tables.rows[k].reserved == s.tables.rows[k].estimated
  }

  /** Daily and minute usage are the sums of the reservations, request usage lists them one by one. */
  ghost predicate InStep(s: System) {
    SumsAgree(s.tables) && UsageLists(s.tables) && AsEstimated(s)
  }

  lemma EmptyInStep()
    ensures InStep(EMPTY)
  {}

  lemma UniqueFind(rows: seq<Row>, k: nat)
    requires DistinctIds(rows) && k < |rows|
    ensures Find(rows, rows[k].id) == Some(k)
  {
    var found := Find(rows, rows[k].id).value;
    assert found == k;
  }

  lemma {:induction false} MinuteListed(rows: seq<Row>, k: nat)
    requires k < |rows|
    ensures MinuteCount(rows, Key(rows[k].minute, rows[k].pool, rows[k].model)).requests > 0
  {
    var n := |rows| - 1;
    if k < n {
      MinuteListed(rows[..n], k);
      NonNegative(rows[..n], Key(rows[k].minute, rows[k].pool, rows[k].model));
    } else {
      NonNegative(rows[..n], Key(rows[k].minute, rows[k].pool, rows[k].model));
    }
  }

  lemma {:induction false} NonNegative(rows: seq<Row>, key: Key)
    ensures MinuteCount(rows, key).requests >= 0
  {
    if rows != [] { NonNegative(rows[..|rows| - 1], key); }
  }

  function WithRow(before: Counted, row: Row, key: Key): Counted {
    if IsOfMinute(row, key) then Counted(before.requests + 1, before.tokens + row.reserved) else before
  }

  /** The sums after one more row, if the tables are counted up by it. */
  lemma AddedSums(t: Tables, after: Tables, expired: seq<Row>, row: Row)
    requires SumsAgree(t) && |expired| == |t.rows| && forall k :: 0 <= k < |expired| ==>
      CountsAlike(expired[k], t.rows[k]) && expired[k].reserved == t.rows[k].reserved
    requires after.rows == expired + [row]
    requires forall key :: Daily(after, key) == Daily(t, key) + if IsOfDay(row, key) then 1 else 0
    requires forall key :: Minutes(after, key) == WithRow(Minutes(t, key), row, key)
    ensures SumsAgree(after)
  {
    hide Daily, Minutes, CountsAlike, IsOfDay, IsOfMinute, DayCount, MinuteCount;
    forall key
      ensures Daily(after, key) == DayCount(after.rows, key)
      ensures Minutes(after, key) == MinuteCount(after.rows, key)
    {
      AlikeCounts(expired, t.rows, key);
      AppendCounts(expired, row, key);
      assert Daily(t, key) == DayCount(t.rows, key) && Minutes(t, key) == MinuteCount(t.rows, key);
    }
  }

  lemma ReserveSums(t: Tables, periods: Periods, q: Request, now: int)
    requires SumsAgree(t)
    ensures SumsAgree(Reserve(t, periods, q, now).0)
  {
    hide IsAvailable, SumsAgree;
    if Reserve(t, periods, q, now).1.Some? {
      AddedSums(t, Reserve(t, periods, q, now).0, Expire(t.rows, now), NewRow(periods, q, now));
    }
  }

  lemma ReserveInStep(s: System, periods: Periods, q: Request, now: int)
    requires InStep(s)
    ensures InStep(Perform(s, periods, Reserving(q, now)))
  {
    hide IsAvailable, SumsAgree, UsageLists, AsEstimated, Minutes, Daily;
    ReserveSums(s.tables, periods, q, now);
    if Reserve(s.tables, periods, q, now).1.Some? {
      RowsInStep(s, q, NewRow(periods, q, now), Expire(s.tables.rows, now), Reserve(s.tables, periods, q, now).0);
    }
  }

  lemma RowsInStep(s: System, q: Request, row: Row, expired: seq<Row>, after: Tables)
    requires UsageLists(s.tables) && AsEstimated(s) && q.id !in s.tables.usage && !HasId(s.tables.rows, q.id)
    requires |expired| == |s.tables.rows| && forall k :: 0 <= k < |expired| ==>
      CountsAlike(expired[k], s.tables.rows[k]) && expired[k].reserved == s.tables.rows[k].reserved
    requires row.id == q.id && row.pool == q.policy.pool && row.model == q.model && row.estimated == row.reserved == q.estimated
    requires after.rows == expired + [row] && after.usage == s.tables.usage[q.id := Used(q.policy.pool, q.model, 1, q.estimated)]
    ensures UsageLists(after) && AsEstimated(s.(tables := after))
  {
    hide AsEstimated;
    var n := |expired|;
    EstimatesStay(s, row, expired, after);
    assert after.rows[n] == row;
    forall k | 0 <= k < n
      ensures after.rows[k] == expired[k] && s.tables.rows[k].id != q.id
    {
    }
    forall id | id in after.usage
      ensures HasId(after.rows, id)
    {
      if id in s.tables.usage {
        var k :| 0 <= k < n && s.tables.rows[k].id == id;
        assert after.rows[k].id == id;
      } else {
        assert after.rows[n].id == id;
      }
    }
  }

  lemma EstimatesStay(s: System, row: Row, expired: seq<Row>, after: Tables)
    requires AsEstimated(s) && |expired| == |s.tables.rows| && row.estimated == row.reserved && after.rows == expired + [row]
    requires forall k :: 0 <= k < |expired| ==>
      CountsAlike(expired[k], s.tables.rows[k]) && expired[k].reserved == s.tables.rows[k].reserved
    ensures AsEstimated(s.(tables := after))
  {
    forall k | 0 <= k < |after.rows| && after.rows[k].id !in s.confirmed
      ensures after.rows[k].reserved == after.rows[k].estimated
    {
      if k < |expired| { assert CountsAlike(expired[k], s.tables.rows[k]); }
    }
  }

  /** The three updates of a confirmation that goes past the estimate. */
  function Confirmed(t: Tables, k: nat, actual: int): Tables
    requires k < |t.rows| && Key(t.rows[k].minute, t.rows[k].pool, t.rows[k].model) in t.minutes && t.rows[k].id in t.usage
  {
    var row := t.rows[k];
    var minute, delta := Key(row.minute, row.pool, row.model), actual - row.estimated;
    t.(minutes := t.minutes[minute := t.minutes[minute].(tokens := t.minutes[minute].tokens + delta)],
       usage := t.usage[row.id := t.usage[row.id].(tokens := t.usage[row.id].tokens + delta)],
       rows := t.rows[k := row.(reserved := actual)])
  }

  lemma IssuedRow(t: Tables, r: Reservation) returns (k: nat)
    requires SumsAgree(t) && UsageLists(t) && IsIssued(t.rows, r)
    ensures k < |t.rows| && Find(t.rows, r.id) == Some(k)
    ensures t.rows[k].id == r.id && t.rows[k].pool == r.policy.pool && t.rows[k].model == r.model && t.rows[k].estimated == r.estimated
    ensures Key(t.rows[k].minute, t.rows[k].pool, t.rows[k].model) in t.minutes && t.rows[k].id in t.usage
  {
    k :| 0 <= k < |t.rows| && t.rows[k].id == r.id && t.rows[k].pool == r.policy.pool && t.rows[k].model == r.model && t.rows[k].estimated == r.estimated;
    UniqueFind(t.rows, k);
    MinuteListed(t.rows, k);
    assert Minutes(t, Key(t.rows[k].minute, t.rows[k].pool, t.rows[k].model)).requests > 0;
  }

  lemma ConfirmedSums(t: Tables, k: nat, actual: int)
    requires SumsAgree(t) && k < |t.rows| && Key(t.rows[k].minute, t.rows[k].pool, t.rows[k].model) in t.minutes && t.rows[k].id in t.usage
    requires t.rows[k].reserved == t.rows[k].estimated
    ensures SumsAgree(Confirmed(t, k, actual))
  {
    var after := Confirmed(t, k, actual);
    forall key
      ensures Daily(after, key) == DayCount(after.rows, key)
      ensures Minutes(after, key) == MinuteCount(after.rows, key)
    {
      assert Daily(t, key) == DayCount(t.rows, key) && Minutes(t, key) == MinuteCount(t.rows, key);
      AlikeCounts(t.rows, after.rows, key);
      MoreTokens(t.rows, k, actual, key);
    }
  }

  lemma ConfirmedLists(t: Tables, k: nat, actual: int)
    requires UsageLists(t) && k < |t.rows| && Key(t.rows[k].minute, t.rows[k].pool, t.rows[k].model) in t.minutes && t.rows[k].id in t.usage
    requires t.rows[k].reserved == t.rows[k].estimated
    ensures UsageLists(Confirmed(t, k, actual))
  {
    SameIds(t.rows, Confirmed(t, k, actual).rows);
  }

  lemma ConfirmInStep(s: System, r: Reservation, u: Metered, recent: int, periods: Periods)
    requires InStep(s) && IsIssued(s.tables.rows, r)
    ensures InStep(Perform(s, periods, Confirming(r, u, recent)))
  {
    hide SumsAgree, UsageLists, IsIssued;
    var t := s.tables;
    var k := IssuedRow(t, r);
    var after := Perform(s, periods, Confirming(r, u, recent)).tables;
    if after != t {
      assert after == Confirmed(t, k, u.tokens);
      ConfirmedSums(t, k, u.tokens);
      ConfirmedLists(t, k, u.tokens);
    }
  }

  lemma SameIds(a: seq<Row>, b: seq<Row>)
    requires |a| == |b| && forall k :: 0 <= k < |a| ==> a[k].id == b[k].id
    ensures forall id :: HasId(a, id) <==> HasId(b, id)
    ensures DistinctIds(a) ==> DistinctIds(b)
  {
    forall id
      ensures HasId(a, id) <==> HasId(b, id)
    {
      if HasId(a, id) { var k :| 0 <= k < |a| && a[k].id == id; assert b[k].id == id; }
      if HasId(b, id) { var k :| 0 <= k < |b| && b[k].id == id; assert a[k].id == id; }
    }
  }

  lemma EndedSums(t: Tables, after: Tables)
    requires SumsAgree(t) && after.daily == t.daily && after.minutes == t.minutes
    requires |after.rows| == |t.rows| && forall k :: 0 <= k < |t.rows| ==> CountsAlike(t.rows[k], after.rows[k]) && t.rows[k].reserved == after.rows[k].reserved
    ensures SumsAgree(after)
  {
    hide CountsAlike, DayCount, MinuteCount;
    forall key
      ensures Daily(after, key) == DayCount(after.rows, key)
      ensures Minutes(after, key) == MinuteCount(after.rows, key)
    {
      assert Daily(t, key) == DayCount(t.rows, key) && Minutes(t, key) == MinuteCount(t.rows, key);
      AlikeCounts(t.rows, after.rows, key);
    }
  }

  lemma EndedInStep(s: System, k: nat, row: Row, after: Tables)
    requires InStep(s) && k < |s.tables.rows| && CountsAlike(row, s.tables.rows[k]) && row.reserved == s.tables.rows[k].reserved
    requires after == s.tables.(rows := s.tables.rows[k := row], health := after.health)
    ensures InStep(s.(tables := after))
  {
    hide SumsAgree;
    EndedSums(s.tables, after);
    SameIds(s.tables.rows, after.rows);
  }

  lemma FinishInStep(s: System, r: Reservation, e: Ending, now: int, periods: Periods)
    requires InStep(s)
    ensures InStep(Perform(s, periods, Finishing(r, e, now)))
  {
    hide HealthAfter, InStep;
    var t, after := s.tables, Perform(s, periods, Finishing(r, e, now)).tables;
    if after != t {
      var k := Find(t.rows, r.id).value;
      EndedInStep(s, k, after.rows[k], after);
    }
  }

  /** Over every run from empty tables the four tables agree on requests and tokens. */
  lemma {:induction false} TablesStayInStep(periods: Periods, actions: seq<Action>)
    requires AreProper(EMPTY, periods, actions)
    ensures InStep(PerformAll(EMPTY, periods, actions))
  {
    hide InStep, Perform, IsProper;
    if actions == [] {
      EmptyInStep();
    } else {
      var n := |actions| - 1;
      forall k | 0 <= k < n
        ensures IsProper(PerformAll(EMPTY, periods, actions[..n][..k]), actions[..n][k])
      {
        assert actions[..n][..k] == actions[..k];
      }
      TablesStayInStep(periods, actions[..n]);
      StepInStep(PerformAll(EMPTY, periods, actions[..n]), periods, actions[n]);
    }
  }

  lemma StepInStep(s: System, periods: Periods, a: Action)
    requires InStep(s) && IsProper(s, a)
    ensures InStep(Perform(s, periods, a))
  {
    hide InStep, Perform, IsIssued;
    match a
    case Reserving(q, now) => ReserveInStep(s, periods, q, now);
    case Confirming(r, u, recent) => ConfirmInStep(s, r, u, recent, periods);
    case Finishing(r, e, now) => FinishInStep(s, r, e, now, periods);
  }

  /** It is the accountant's flag that keeps the tables in step: confirming twice past the estimate counts tokens twice. */
  lemma SecondConfirmationBreaksStep(s: System, k: nat, r: Reservation, first: int, recent: int, second: int, recent': int)
    requires InStep(s) && k < |s.tables.rows| && s.tables.rows[k].id == r.id && r.id !in s.confirmed
    requires s.tables.rows[k].estimated == r.estimated < first && r.estimated < second
    requires var (t, ok) := Confirm(s.tables, r, first, recent); t != s.tables && ok == Some(true)
    requires var (t, ok) := Confirm(Confirm(s.tables, r, first, recent).0, r, second, recent');
      t != Confirm(s.tables, r, first, recent).0 && ok == Some(true)
    ensures var t := Confirm(Confirm(s.tables, r, first, recent).0, r, second, recent').0;
      t.usage[r.id].tokens == t.rows[k].reserved + (first - r.estimated)
  {
    UniqueFind(s.tables.rows, k);
    var once := Confirm(s.tables, r, first, recent).0;
    SameIds(s.tables.rows, once.rows);
    UniqueFind(once.rows, k);
  }

  // ------------------------------------------------------------------------- in flight

  /** All open reservations of a pair, expired or not. */
  function OpenCount(rows: seq<Row>, pool: string, model: string): nat {
    if rows == [] then 0
    else OpenCount(rows[..|rows| - 1], pool, model) + if IsOpen(rows[|rows| - 1], pool, model) then 1 else 0
  }

  predicate OpensNoMore(before: Row, after: Row) {
    after.pool == before.pool && after.model == before.model && (after.state == InFlight ==> before.state == InFlight)
  }

  lemma {:induction false} FewerOpen(a: seq<Row>, b: seq<Row>, pool: string, model: string)
    requires |a| == |b| && forall k :: 0 <= k < |a| ==> OpensNoMore(a[k], b[k])
    ensures OpenCount(b, pool, model) <= OpenCount(a, pool, model)
  {
    if a != [] { FewerOpen(a[..|a| - 1], b[..|b| - 1], pool, model); }
  }

  /** Once the expired are abandoned, every open reservation is unexpired. */
  lemma {:induction false} OpenIsUnexpired(rows: seq<Row>, pool: string, model: string, now: int)
    ensures InFlightAt(rows, pool, model, now) <= OpenCount(rows, pool, model)
    ensures (forall k :: 0 <= k < |rows| && rows[k].state == InFlight ==> rows[k].expires > now) ==>
      InFlightAt(rows, pool, model, now) == OpenCount(rows, pool, model)
  {
    if rows != [] { OpenIsUnexpired(rows[..|rows| - 1], pool, model, now); }
  }

  /** The limit a pair's policies state. */
  type Limits = (string, string) -> nat

  ghost predicate RespectsLimits(a: Action, limits: Limits) {
    a.Reserving? ==> a.q.model == a.q.policy.model && a.q.policy.maxInFlight <= limits(a.q.policy.pool, a.q.policy.model)
  }

  lemma ReservedWithin(t: Tables, periods: Periods, q: Request, now: int, limit: nat, pool: string, model: string)
    requires OpenCount(t.rows, pool, model) <= limit
    requires q.policy.pool == pool && q.policy.model == model ==> q.policy.maxInFlight <= limit
    requires q.model == q.policy.model
    ensures OpenCount(Reserve(t, periods, q, now).0.rows, pool, model) <= limit
  {
    var (after, made) := Reserve(t, periods, q, now);
    if made.Some? {
      var expired := Expire(t.rows, now);
      FewerOpen(t.rows, expired, pool, model);
      OpenIsUnexpired(expired, q.policy.pool, q.policy.model, now);
      LastOpen(expired, NewRow(periods, q, now), pool, model);
      WasAvailable(t, periods, q, now);
    }
  }

  lemma WasAvailable(t: Tables, periods: Periods, q: Request, now: int)
    requires Reserve(t, periods, q, now).1.Some?
    ensures InFlightAt(Expire(t.rows, now), q.policy.pool, q.policy.model, now) + 1 <= q.policy.maxInFlight
  {
    hide DailyRequests, SoftLimit, IsCooling;
  }

  lemma LastOpen(rows: seq<Row>, row: Row, pool: string, model: string)
    ensures OpenCount(rows + [row], pool, model) == OpenCount(rows, pool, model) + if IsOpen(row, pool, model) then 1 else 0
  {
    assert (rows + [row])[..|rows|] == rows;
  }

  lemma FollowingOpensNoMore(a: seq<Row>, b: seq<Row>, pool: string, model: string)
    requires RowsFollow(a, b) && |a| == |b|
    ensures OpenCount(b, pool, model) <= OpenCount(a, pool, model)
  {
    forall k | 0 <= k < |a|
      ensures OpensNoMore(a[k], b[k])
    {
      assert Follows(a[k], b[k]);
    }
    FewerOpen(a, b, pool, model);
  }

  lemma OnlyReservingAddsRows(s: System, periods: Periods, a: Action)
    ensures !a.Reserving? ==> |Perform(s, periods, a).tables.rows| == |s.tables.rows|
  {
    hide HealthAfter;
  }

  lemma OpenStaysWithin(s: System, periods: Periods, a: Action, limits: Limits, pool: string, model: string)
    requires IsProper(s, a) && RespectsLimits(a, limits) && OpenCount(s.tables.rows, pool, model) <= limits(pool, model)
    ensures OpenCount(Perform(s, periods, a).tables.rows, pool, model) <= limits(pool, model)
  {
    hide OpenCount, RowsFollow, Finish, Confirm, Reserve;
    match a {
      case Reserving(q, now) => ReservedWithin(s.tables, periods, q, now, limits(pool, model), pool, model);
      case _ =>
        StepFollows(s, periods, a);
        OnlyReservingAddsRows(s, periods, a);
        FollowingOpensNoMore(s.tables.rows, Perform(s, periods, a).tables.rows, pool, model);
    }
  }

  /**
    Over every run, whatever its clock does, the open reservations of a pair never exceed its limit;
    so neither do the unexpired ones at any instant.
   */
  lemma {:induction false} InFlightStaysWithin(periods: Periods, actions: seq<Action>, limits: Limits, pool: string, model: string, now: int)
    requires AreProper(EMPTY, periods, actions) && forall k :: 0 <= k < |actions| ==> RespectsLimits(actions[k], limits)
    ensures OpenCount(PerformAll(EMPTY, periods, actions).tables.rows, pool, model) <= limits(pool, model)
    ensures InFlightAt(PerformAll(EMPTY, periods, actions).tables.rows, pool, model, now) <= limits(pool, model)
  {
    hide Perform, IsProper;
    if actions != [] {
      var n := |actions| - 1;
      forall k | 0 <= k < n
        ensures IsProper(PerformAll(EMPTY, periods, actions[..n][..k]), actions[..n][k])
      {
        assert actions[..n][..k] == actions[..k];
      }
      InFlightStaysWithin(periods, actions[..n], limits, pool, model, now);
      OpenStaysWithin(PerformAll(EMPTY, periods, actions[..n]), periods, actions[n], limits, pool, model);
    }
    OpenIsUnexpired(PerformAll(EMPTY, periods, actions).tables.rows, pool, model, now);
  }

  // ---------------------------------------------------------------- leaving once and for all

  /** A reservation that is no longer open does not change any more; an open one keeps what it is counted by. */
  predicate Follows(before: Row, after: Row) {
    CountsAlike(before, after) && (before.state != InFlight ==> after == before)
  }

  ghost predicate RowsFollow(before: seq<Row>, after: seq<Row>) {
    |before| <= |after| && forall k :: 0 <= k < |before| ==> Follows(before[k], after[k])
  }

  lemma StepFollows(s: System, periods: Periods, a: Action)
    ensures RowsFollow(s.tables.rows, Perform(s, periods, a).tables.rows)
  {
    hide RowsFollow, Reserve, Confirm, Finish;
    match a
    case Reserving(q, now) => ReserveFollows(s.tables, periods, q, now);
    case Confirming(r, u, recent) => ConfirmFollows(s.tables, r, u.tokens, recent);
    case Finishing(r, e, now) => FinishFollows(s.tables, r, e, now);
  }

  lemma ReserveFollows(t: Tables, periods: Periods, q: Request, now: int)
    ensures RowsFollow(t.rows, Reserve(t, periods, q, now).0.rows)
  {
    hide IsAvailable, Minutes, Daily;
  }

  lemma ConfirmFollows(t: Tables, r: Reservation, actual: int, recentTokens: int)
    ensures RowsFollow(t.rows, t.rows) && RowsFollow(t.rows, Confirm(t, r, actual, recentTokens).0.rows)
  {
    hide SoftLimit;
  }

  lemma FinishFollows(t: Tables, r: Reservation, e: Ending, now: int)
    ensures RowsFollow(t.rows, Finish(t, r, e, now).rows)
  {
    hide HealthAfter;
  }

  /** A reservation leaves the open state at most once: what it was when it left it stays, over any further actions. */
  lemma {:induction false} LeavesOnce(s: System, periods: Periods, actions: seq<Action>)
    ensures RowsFollow(s.tables.rows, PerformAll(s, periods, actions).tables.rows)
  {
    hide Perform;
    if actions != [] {
      LeavesOnce(s, periods, actions[..|actions| - 1]);
      StepFollows(PerformAll(s, periods, actions[..|actions| - 1]), periods, actions[|actions| - 1]);
    }
  }
}
