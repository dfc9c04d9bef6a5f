/** The route over profiles, pools and credentials: whatever happens, none of its own reservations stays open. */
module CapacityRoute {
  import opened Text
  import opened Capacity
  import opened CapacityRuns

  const MAX_ATTEMPTS := 128

  /** A pool that has room for a profile, in the order the route tries them, with its credentials. */
  datatype Pool = Pool(policy: Policy, credentials: nat)

  datatype Profile = Profile(model: string, pools: seq<Pool>)

  /** How the invocation of a model ends. */
  datatype Invoked = Value | CapacityExhausted | HttpError(status: int) | TransportError | OtherError

  /**
    What happens around one try: the callback or the reserving transaction may raise, other processes act
    before and during it, the gateway reports, the invocation ends, and the ending transaction may raise.
   */
  datatype Try = Try(before: seq<Action>, startFails: bool, id: string, rolling: Counted, reservedAt: int,
                     during: seq<Action>, reports: seq<(Metered, int)>, result: Invoked, endedAt: int, endFails: bool)

  datatype Routed = Answered(model: string, attempts: nat) | Raised | Unavailable

  predicate IsClosed(rows: seq<Row>, id: string) {
    forall k :: 0 <= k < |rows| && rows[k].id == id ==> rows[k].state != InFlight
  }

  ghost predicate AllClosed(rows: seq<Row>, ids: seq<string>) {
    forall id :: id in ids ==> HasId(rows, id) && IsClosed(rows, id)
  }

  lemma ClosedStaysClosed(before: seq<Row>, after: seq<Row>, ids: seq<string>)
    requires AllClosed(before, ids) && RowsFollow(before, after) && DistinctIds(after)
    ensures AllClosed(after, ids)
  {
    forall id | id in ids
      ensures HasId(after, id) && IsClosed(after, id)
    {
      var i :| 0 <= i < |before| && before[i].id == id;
      assert Follows(before[i], after[i]);
      forall k | 0 <= k < |after| && after[k].id == id
        ensures after[k].state != InFlight
      {
        assert k == i;
      }
    }
  }

  lemma FollowsOn(a: seq<Row>, b: seq<Row>, c: seq<Row>)
    requires RowsFollow(a, b) && RowsFollow(b, c)
    ensures RowsFollow(a, c)
  {
    forall k | 0 <= k < |a|
      ensures Follows(a[k], c[k])
    {
      assert Follows(a[k], b[k]) && Follows(b[k], c[k]);
    }
  }

  lemma StaysPut(rows: seq<Row>)
    ensures RowsFollow(rows, rows)
  {}

  lemma ActionKeepsIds(s: System, periods: Periods, a: Action)
    requires DistinctIds(s.tables.rows)
    ensures DistinctIds(Perform(s, periods, a).tables.rows)
  {
    hide IsAvailable, HealthAfter;
  }

  /** Transactions of other processes on the same database. */
  method Interfere(connection: Connection, actions: seq<Action>)
    requires DistinctIds(connection.rows)
    modifies connection
    ensures RowsFollow(old(connection.rows), connection.rows) && DistinctIds(connection.rows)
    ensures actions == [] ==> connection.rows == old(connection.rows)
  {
    hide Reserve, Confirm, Finish, DistinctIds, RowsFollow;
    StaysPut(connection.rows);
    for k := 0 to |actions|
      invariant RowsFollow(old(connection.rows), connection.rows) && DistinctIds(connection.rows)
      invariant k == 0 ==> connection.rows == old(connection.rows)
    {
      ghost var before := System(connection.Contents(), {});
      StepFollows(before, connection.periods, actions[k]);
      ActionKeepsIds(before, connection.periods, actions[k]);
      match actions[k] {
        case Reserving(q, now) =>
          var made := connection.ReserveAssistantCapacity(q, now);
        case Confirming(r, u, recent) =>
          var accountant := new Accountant(connection, r);
          var ok := accountant.Reserve(u, recent);
        case Finishing(r, e, now) =>
          connection.FinishReservation(r, e, now);
      }
      FollowsOn(old(connection.rows), before.tables.rows, connection.rows);
    }
  }

  /** The gateway's reports to the accountant of one reservation. */
  method Report(accountant: Accountant, reports: seq<(Metered, int)>)
    requires DistinctIds(accountant.connection.rows)
    modifies accountant, accountant.connection
    ensures RowsFollow(old(accountant.connection.rows), accountant.connection.rows) && DistinctIds(accountant.connection.rows)
    ensures |accountant.connection.rows| == |old(accountant.connection.rows)|
    ensures forall k :: 0 <= k < |accountant.connection.rows| ==> accountant.connection.rows[k].state == old(accountant.connection.rows)[k].state
  {
    hide Confirm, DistinctIds, RowsFollow;
    var connection := accountant.connection;
    StaysPut(connection.rows);
    for k := 0 to |reports|
      invariant RowsFollow(old(connection.rows), connection.rows) && DistinctIds(connection.rows)
      invariant |connection.rows| == |old(connection.rows)|
      invariant forall k :: 0 <= k < |connection.rows| ==> connection.rows[k].state == old(connection.rows)[k].state
    {
      ghost var before := System(connection.Contents(), if accountant.confirmed then {accountant.reservation.id} else {});
      var report := reports[k];
      ghost var a := Confirming(accountant.reservation, report.0, report.1);
      StepFollows(before, connection.periods, a);
      ActionKeepsIds(before, connection.periods, a);
      ReportAddsNothing(before.tables, accountant.reservation, accountant.confirmed, report.0, report.1);
      var ok := accountant.Reserve(report.0, report.1);
      FollowsOn(old(connection.rows), before.tables.rows, connection.rows);
    }
  }

  lemma ReportAddsNothing(t: Tables, r: Reservation, confirmed: bool, u: Metered, recent: int)
    ensures var rows := ReserveMetered(t, r, confirmed, u, recent).0.rows;
      |rows| == |t.rows| && forall k :: 0 <= k < |rows| ==> rows[k].state == t.rows[k].state
  {}

  lemma FinishCloses(t: Tables, r: Reservation, e: Ending, now: int)
    requires DistinctIds(t.rows) && HasId(t.rows, r.id) && e.state != InFlight
    ensures var rows := Finish(t, r, e, now).rows;
      && RowsFollow(t.rows, rows) && DistinctIds(rows) && |rows| == |t.rows| && HasId(rows, r.id) && IsClosed(rows, r.id)
      && forall k :: 0 <= k < |rows| && t.rows[k].id == r.id && t.rows[k].state == InFlight ==> EndedAs(rows[k], e)
  {
    hide HealthAfter;
    var k := Find(t.rows, r.id).value;
    var rows := Finish(t, r, e, now).rows;
    assert rows[k].id == r.id;
    forall j | 0 <= j < |rows| && rows[j].id == r.id
      ensures j == k
    {
    }
  }

  predicate EndedAs(row: Row, e: Ending) {
    row.state == e.state && row.status == e.status && row.code == e.code
  }

  predicate IsRetryable(status: int) {
    status in {401, 403, 429, 500, 502, 503, 504}
  }

  /** How the route ends a reservation whose invocation ended in this way. */
  function EndingOf(result: Invoked, confirmed: bool): Ending {
    match result
    case Value => if confirmed then Ending(Succeeded, None, None, false) else Ending(Failed, None, Some("MODEL_REQUEST_FAILED"), false)
    case CapacityExhausted => Ending(CapacityRejected, None, Some("EXACT_TOKEN_CAPACITY_REJECTED"), false)
    case HttpError(status) =>
      Ending(if status == 429 then Throttled else Failed, Some(status), Some("PROVIDER_HTTP_" + IntText(status)), IsRetryable(status))
    case TransportError => Ending(Failed, None, Some("PROVIDER_TRANSPORT_UNAVAILABLE"), true)
    case OtherError => Ending(Failed, None, Some("MODEL_REQUEST_FAILED"), false)
  }

  /**
    What an invocation does to the health of its pair: a confirmed answer heals it; a 429, or one transport
    or server error too many in a row, cools it down; the other errors a provider is to blame for degrade it;
    everything else leaves it as it was.
   */
  lemma InvocationMarksHealth(prior: Option<Health>, policy: Policy, result: Invoked, confirmed: bool, now: int)
    ensures var after := HealthAfter(prior, policy, EndingOf(result, confirmed), now);
      var streak := 1 + match prior case None => 0 case Some(h) => h.consecutive;
      var isServerError := result.TransportError? || (result.HttpError? && result.status in {500, 502, 503, 504});
      var isRefusal := result.HttpError? && result.status in {401, 403};
      var cools := result == HttpError(429) || (isServerError && streak >= policy.threshold);
      if result.Value? && confirmed then
        after.Some? && after.value.condition == Healthy && after.value.consecutive == 0 && after.value.until == None
      else if cools then
        && after.Some? && after.value.condition == Cooldown && after.value.consecutive == streak
        && after.value.until == Some(now + policy.cooldown * 1_000_000)
      else if isServerError || isRefusal then
        after.Some? && after.value.condition == Degraded && after.value.consecutive == streak && after.value.until == None
      else after == prior
  {
    hide IntText;
  }

  /** The reservation made, whether it was confirmed, and whether the transaction to end it raised. */
  datatype Attempted = Attempted(reserved: Option<string>, confirmed: bool, stuck: bool)

  /** Whether nobody else writes during the tries. */
  predicate IsAlone(t: Try) {
    t.before == [] && t.during == []
  }

  /** One try: reserve, invoke, and end the reservation whatever the invocation did, unless ending it raises. */
  method Attempt(connection: Connection, policy: Policy, model: string, estimated: int, t: Try) returns (a: Attempted)
    requires DistinctIds(connection.rows)
    modifies connection
    ensures RowsFollow(old(connection.rows), connection.rows) && DistinctIds(connection.rows)
    ensures a.reserved.Some? ==> !HasId(old(connection.rows), a.reserved.value) && HasId(connection.rows, a.reserved.value)
    ensures a.reserved.Some? && !a.stuck ==> IsClosed(connection.rows, a.reserved.value)
    ensures a.stuck ==> a.reserved.Some?
    ensures a.reserved.Some? ==> (a.stuck <==> t.endFails)
    ensures IsAlone(t) ==> |connection.rows| == |old(connection.rows)| + if a.reserved.Some? then 1 else 0
    ensures IsAlone(t) && a.reserved.Some? ==> connection.rows[|connection.rows| - 1].id == a.reserved.value
    ensures IsAlone(t) && a.reserved.Some? && !a.stuck ==> EndedAs(connection.rows[|connection.rows| - 1], EndingOf(t.result, a.confirmed))
  {
    hide Reserve, Finish, DistinctIds, RowsFollow, EndingOf, IsClosed;
    Interfere(connection, t.before);
    ghost var start := connection.rows;
    var q := Request(policy, model, estimated, t.rolling, t.id);
    ReserveMakesRow(connection.Contents(), connection.periods, q, t.reservedAt);
    FreshBefore(old(connection.rows), start, t.id);
    var reservation := connection.ReserveAssistantCapacity(q, t.reservedAt);
    ghost var reserved := connection.rows;
    FollowsOn(old(connection.rows), start, reserved);
    if reservation.None? {
      return Attempted(None, false, false);
    }
    var accountant := new Accountant(connection, reservation.value);
    Interfere(connection, t.during);
    FollowsOn(old(connection.rows), reserved, connection.rows);
    ghost var interfered := connection.rows;
    Report(accountant, t.reports);
    FollowsOn(old(connection.rows), interfered, connection.rows);
    StillThere(reserved, interfered, t.id);
    StillThere(interfered, connection.rows, t.id);
    ghost var invoked := connection.rows;
    LastKeepsId(reserved, interfered);
    LastKeepsId(interfered, invoked);
    if t.endFails {
      return Attempted(Some(t.id), accountant.confirmed, true);
    }
    EndingIsFinal(t.result, accountant.confirmed);
    FinishCloses(connection.Contents(), reservation.value, EndingOf(t.result, accountant.confirmed), t.endedAt);
    connection.FinishReservation(reservation.value, EndingOf(t.result, accountant.confirmed), t.endedAt);
    FollowsOn(old(connection.rows), invoked, connection.rows);
    LastKeepsId(invoked, connection.rows);
    return Attempted(Some(t.id), accountant.confirmed, false);
  }

  lemma LastKeepsId(before: seq<Row>, after: seq<Row>)
    requires RowsFollow(before, after)
    ensures before != [] && |before| == |after| ==> before[|before| - 1].id == after[|after| - 1].id
  {
    if before != [] { assert Follows(before[|before| - 1], after[|before| - 1]); }
  }

  lemma EndingIsFinal(result: Invoked, confirmed: bool)
    ensures EndingOf(result, confirmed).state != InFlight
  {}

  lemma StillThere(before: seq<Row>, after: seq<Row>, id: string)
    requires RowsFollow(before, after) && HasId(before, id)
    ensures HasId(after, id)
  {
    var k :| 0 <= k < |before| && before[k].id == id;
    assert Follows(before[k], after[k]);
  }

  lemma FreshBefore(before: seq<Row>, after: seq<Row>, id: string)
    requires RowsFollow(before, after)
    ensures !HasId(after, id) ==> !HasId(before, id)
  {
    if HasId(before, id) { StillThere(before, after, id); }
  }

  lemma ReserveMakesRow(t: Tables, periods: Periods, q: Request, now: int)
    requires DistinctIds(t.rows)
    ensures var (after, made) := Reserve(t, periods, q, now);
      && RowsFollow(t.rows, after.rows) && DistinctIds(after.rows)
      && (made.None? ==> after == t)
      && (made.Some? ==> made.value.id == q.id && !HasId(t.rows, q.id) && HasId(after.rows, q.id)
                         && |after.rows| == |t.rows| + 1 && after.rows[|t.rows|].id == q.id && after.rows[|t.rows|].state == InFlight)
  {
    hide IsAvailable;
    var (after, made) := Reserve(t, periods, q, now);
    if made.Some? { assert after.rows[|t.rows|].id == q.id; }
  }

  /**
    What the route has done so far: the reservations it made and ended, the one it could not end,
    and whether it met a full pool or a provider's error.
   */
  datatype Progress = Progress(own: seq<string>, stuck: Option<string>, tries: nat, pressure: bool, retryable: bool) {
    function Made(): seq<string> {
      if stuck.Some? then own + [stuck.value] else own
    }
  }

  /** The reservation that could not be ended is one of the route's own, and the route raises. */
  ghost predicate StuckRaises(start: seq<Row>, rows: seq<Row>, stuck: Option<string>, done: Option<Routed>) {
    stuck.Some? ==> done == Some(Raised) && !HasId(start, stuck.value) && HasId(rows, stuck.value)
  }

  /** Everything the route itself has reserved is closed, and all of it is new. */
  ghost predicate KeepsClean(start: seq<Row>, rows: seq<Row>, own: seq<string>) {
    RowsFollow(start, rows) && DistinctIds(rows) && AllClosed(rows, own) && forall id :: id in own ==> !HasId(start, id)
  }

  ghost predicate AreOwn(start: seq<Row>, rows: seq<Row>, own: seq<string>) {
    |start| <= |rows| && forall k :: |start| <= k < |rows| ==> rows[k].id in own
  }

  /** No row is added but the one of the reservation. */
  predicate AddsOnly(before: seq<Row>, after: seq<Row>, reserved: Option<string>) {
    |after| == |before| + (if reserved.Some? then 1 else 0) && (reserved.Some? ==> after[|after| - 1].id == reserved.value)
  }

  lemma CleanStep(start: seq<Row>, before: seq<Row>, after: seq<Row>, own: seq<string>, reserved: Option<string>, stuck: bool)
    requires KeepsClean(start, before, own) && RowsFollow(before, after) && DistinctIds(after)
    requires reserved.Some? ==> !HasId(before, reserved.value) && HasId(after, reserved.value)
    requires reserved.Some? && !stuck ==> IsClosed(after, reserved.value)
    ensures KeepsClean(start, after, if reserved.Some? && !stuck then own + [reserved.value] else own)
    ensures reserved.Some? ==> !HasId(start, reserved.value)
    ensures AreOwn(start, before, own) && AddsOnly(before, after, reserved) ==>
      AreOwn(start, after, if reserved.Some? then own + [reserved.value] else own)
  {
    hide IsClosed, DistinctIds;
    FollowsOn(start, before, after);
    ClosedStaysClosed(before, after, own);
    if reserved.Some? { FreshBefore(start, before, reserved.value); }
    if AreOwn(start, before, own) && AddsOnly(before, after, reserved) {
      forall k | |start| <= k < |before|
        ensures after[k].id in own
      {
        assert Follows(before[k], after[k]);
      }
    }
  }

  // ---------------------------------------------------------------------- what a route does

  /** What becomes of one credential: nothing starts, the route is at its limit, no capacity, an ending that raised, or an ended try. */
  datatype Fate = NotStarted | Full | NoRoom | Stuck | Ended(result: Invoked, confirmed: bool)

  predicate Answers(f: Fate) {
    f.Ended? && f.result.Value? && f.confirmed
  }

  /** The route gives up with an error: its own, or one of the provider's that another credential would not mend. */
  predicate Raises(f: Fate) {
    || f.NotStarted? || f.Stuck?
    || (f.Ended? && ((f.result.Value? && !f.confirmed) || f.result.OtherError?
                     || (f.result.HttpError? && f.result.status !in {401, 403, 429, 500, 502, 503, 504})))
  }

  /** A credential is refused: the next one of the same pool is tried. */
  predicate IsRefused(f: Fate) {
    f.Ended? && f.result.HttpError? && f.result.status in {401, 403}
  }

  predicate IsPressure(f: Fate) {
    f.Full? || f.NoRoom? || (f.Ended? && (f.result.CapacityExhausted? || f.result == HttpError(429)))
  }

  predicate IsProviderError(f: Fate) {
    f.Ended? && (f.result.TransportError? || (f.result.HttpError? && f.result.status in {401, 403, 429, 500, 502, 503, 504}))
  }

  /** A fate is that of the try it belongs to. */
  predicate Fits(f: Fate, t: Try) {
    match f
    case NotStarted => t.startFails
    case Full => true
    case NoRoom => !t.startFails
    case Stuck => !t.startFails && t.endFails
    case Ended(result, _) => !t.startFails && !t.endFails && result == t.result
  }

  /** A pool's credentials in turn: a further one is tried exactly after one that is refused. */
  ghost predicate PoolFates(credentials: nat, fates: seq<Fate>, tries: nat -> Try) {
    && |fates| <= credentials && (credentials > 0 ==> fates != [])
    && (forall k :: 0 <= k < |fates| - 1 ==> IsRefused(fates[k]))
    && (fates != [] && IsRefused(fates[|fates| - 1]) ==> |fates| == credentials)
    && (forall k :: 0 <= k < |fates| ==> exists n :: Fits(fates[k], tries(n)))
  }

  /** The fate that ends a pool's part of the route. */
  function LastFate(fates: seq<Fate>): Option<Fate> {
    if fates == [] then None else Some(fates[|fates| - 1])
  }

  predicate IsFinal(f: Option<Fate>) {
    f.Some? && (Answers(f.value) || Raises(f.value))
  }

  /** How many of some fates belong to a reservation of the route. */
  function Reserved(fates: seq<Fate>): nat {
    if fates == [] then 0
    else Reserved(fates[..|fates| - 1]) + if fates[|fates| - 1].Stuck? || fates[|fates| - 1].Ended? then 1 else 0
  }

  function AllReserved(log: seq<seq<Fate>>): nat {
    if log == [] then 0 else AllReserved(log[..|log| - 1]) + Reserved(log[|log| - 1])
  }

  /** The pools of the profiles, one profile after another, with the model each is asked for. */
  function Places(profiles: seq<Profile>): seq<(Pool, string)> {
    if profiles == [] then []
    else
      var last := profiles[|profiles| - 1];
      Places(profiles[..|profiles| - 1]) + PlacesOf(last, |last.pools|)
  }

  function PlacesOf(profile: Profile, n: nat): (r: seq<(Pool, string)>)
    requires n <= |profile.pools|
    ensures |r| == n && forall j :: 0 <= j < n ==> r[j] == (profile.pools[j], profile.model)
  {
    seq(n, j requires 0 <= j < n => (profile.pools[j], profile.model))
  }

  /** The pools are taken in turn until one ends the route. */
  ghost predicate IsLog(places: seq<(Pool, string)>, log: seq<seq<Fate>>, tries: nat -> Try) {
    && |log| <= |places| && (forall k :: 0 <= k < |log| ==> PoolFates(places[k].0.credentials, log[k], tries))
    && (forall k :: 0 <= k < |log| - 1 ==> !IsFinal(LastFate(log[k])))
  }

  predicate Meets(log: seq<seq<Fate>>, what: Fate -> bool) {
    exists k, n :: 0 <= k < |log| && 0 <= n < |log[k]| && what(log[k][n])
  }

  /**
    The result of a route: the answer of the try that gave one, the error of the one that raised; when all
    pools are through, the last provider's error if there was one and nowhere a want of capacity, else unavailable.
   */
  ghost predicate IsResult(profiles: seq<Profile>, log: seq<seq<Fate>>, r: Routed) {
    var places := Places(profiles);
    var last := if log == [] then None else LastFate(log[|log| - 1]);
    && |log| <= |places|
    && if last.Some? && Answers(last.value) then r == Answered(places[|log| - 1].1, AllReserved(log))
       else if last.Some? && Raises(last.value) then r == Raised
       else
         && |log| == |places|
         && r == if Meets(log, IsProviderError) && !Meets(log, IsPressure) && forall i :: 0 <= i < |profiles| ==> profiles[i].pools != []
                 then Raised else Unavailable
  }

  datatype Verdict = NextCredential | NextPool | Done(r: Routed)

  /** What the route does after an invocation that did not answer. */
  function After(result: Invoked, last: bool): Verdict {
    match result
    case HttpError(status) =>
      if !IsRetryable(status) then Done(Raised)
      else if (status == 401 || status == 403) && !last then NextCredential
      else NextPool
    case CapacityExhausted => NextPool
    case TransportError => NextPool
    case _ => Done(Raised)
  }

  predicate HasFate(fates: seq<Fate>, what: Fate -> bool) {
    exists n :: 0 <= n < |fates| && what(fates[n])
  }

  /** What the route remembers of some fates. */
  ghost predicate Counts(p: Progress, fates: seq<Fate>, p': Progress) {
    && |p'.Made()| == |p.Made()| + Reserved(fates)
    && (p'.pressure <==> p.pressure || HasFate(fates, IsPressure))
    && (p'.retryable <==> p.retryable || HasFate(fates, IsProviderError))
  }

  /** All credentials so far are refused, so the next one is tried. */
  ghost predicate AllRefused(fates: seq<Fate>, tries: nat -> Try) {
    forall k :: 0 <= k < |fates| ==> IsRefused(fates[k]) && exists n :: Fits(fates[k], tries(n))
  }

  lemma OneMoreFate(fates: seq<Fate>, f: Fate)
    ensures Reserved(fates + [f]) == Reserved(fates) + if f.Stuck? || f.Ended? then 1 else 0
    ensures forall what :: HasFate(fates + [f], what) <==> HasFate(fates, what) || what(f)
  {
    assert (fates + [f])[..|fates|] == fates;
    forall what: Fate -> bool
      ensures HasFate(fates + [f], what) <==> HasFate(fates, what) || what(f)
    {
      assert (fates + [f])[|fates|] == f;
      assert forall n :: 0 <= n < |fates| ==> (fates + [f])[n] == fates[n];
    }
  }

  lemma PoolEnds(credentials: nat, fates: seq<Fate>, f: Fate, tries: nat -> Try, n: nat)
    requires AllRefused(fates, tries) && |fates| < credentials && Fits(f, tries(n))
    requires IsRefused(f) ==> |fates| + 1 == credentials
    ensures PoolFates(credentials, fates + [f], tries) && LastFate(fates + [f]) == Some(f)
  {
    var all := fates + [f];
    forall k | 0 <= k < |all|
      ensures exists n :: Fits(all[k], tries(n))
    {
      if k < |fates| { assert all[k] == fates[k]; }
    }
  }

  /** What the fate of an ended try means for the route. */
  lemma FateOf(result: Invoked, confirmed: bool, last: bool)
    ensures var f := Ended(result, confirmed);
      && (Answers(f) <==> result == Value && confirmed)
      && (!Answers(f) && Raises(f) <==> After(result, last) == Done(Raised) && !Answers(f))
      && (IsRefused(f) && !last <==> After(result, last) == NextCredential)
      && (After(result, last).Done? ==> After(result, last) == Done(Raised))
      && (IsPressure(f) <==> result == CapacityExhausted || result == HttpError(429))
      && (IsProviderError(f) <==> result == TransportError || (result.HttpError? && IsRetryable(result.status)))
      && (Answers(f) ==> !IsRefused(f) && !Raises(f)) && (IsRefused(f) ==> !Raises(f))
  {}

  lemma CountsMore(p: Progress, fates: seq<Fate>, p0: Progress, f: Fate, p1: Progress)
    requires Counts(p, fates, p0) && |p1.Made()| == |p0.Made()| + if f.Stuck? || f.Ended? then 1 else 0
    requires p1.pressure <==> p0.pressure || IsPressure(f)
    requires p1.retryable <==> p0.retryable || IsProviderError(f)
    ensures Counts(p, fates + [f], p1)
  {
    hide HasFate, IsPressure, IsProviderError, Reserved;
    OneMoreFate(fates, f);
  }

  lemma RefusedMore(fates: seq<Fate>, f: Fate, tries: nat -> Try, n: nat)
    requires AllRefused(fates, tries) && IsRefused(f) && Fits(f, tries(n))
    ensures AllRefused(fates + [f], tries)
  {
    hide IsRefused, Fits;
  }

  /** The credentials of one pool, one after another. */
  method RoutePool(connection: Connection, pool: Pool, model: string, estimated: int, tries: nat -> Try, p: Progress,
                   ghost start: seq<Row>, ghost alone: bool)
    returns (p': Progress, done: Option<Routed>, ghost fates: seq<Fate>)
    requires KeepsClean(start, connection.rows, p.own) && |p.own| <= MAX_ATTEMPTS && p.stuck.None?
    requires alone ==> AreOwn(start, connection.rows, p.Made()) && forall n :: IsAlone(tries(n))
    modifies connection
    ensures KeepsClean(start, connection.rows, p'.own) && |p'.Made()| <= MAX_ATTEMPTS
    ensures StuckRaises(start, connection.rows, p'.stuck, done)
    ensures p'.stuck.Some? ==> exists n :: tries(n).endFails
    ensures alone ==> AreOwn(start, connection.rows, p'.Made())
    ensures PoolFates(pool.credentials, fates, tries) && Counts(p, fates, p')
    ensures done.None? ==> !IsFinal(LastFate(fates)) && p'.stuck.None?
    ensures done.Some? ==> IsFinal(LastFate(fates)) && done.value == if Answers(LastFate(fates).value) then Answered(model, |p'.Made()|) else Raised
  {
    hide KeepsClean, AreOwn, RowsFollow, DistinctIds, IsClosed, HasId, HasFate, PoolFates, IsRefused, Answers, Raises, IsPressure, IsProviderError,
         IsRetryable, After, Counts, AllRefused, LastFate;
    p', done, fates := p, None, [];
    NothingYet(p, pool.credentials, tries);
    for c := 0 to pool.credentials
      invariant KeepsClean(start, connection.rows, p'.own) && |p'.own| <= MAX_ATTEMPTS && p'.stuck.None?
      invariant alone ==> AreOwn(start, connection.rows, p'.Made())
      invariant |fates| == c && AllRefused(fates, tries) && Counts(p, fates, p') && (c > 0 ==> c < pool.credentials)
    {
      ghost var p0 := p';
      if |p'.own| >= MAX_ATTEMPTS {
        PlainFates(tries(0));
        PoolEnds(pool.credentials, fates, Full, tries, 0);
        p' := p'.(pressure := true);
        CountsMore(p, fates, p0, Full, p');
        fates := fates + [Full];
        return;
      }
      var n := p'.tries;
      var t := tries(n);
      PlainFates(t);
      p' := p'.(tries := p'.tries + 1);
      if t.startFails {
        PoolEnds(pool.credentials, fates, NotStarted, tries, n);
        CountsMore(p, fates, p0, NotStarted, p');
        return p', Some(Raised), fates + [NotStarted];
      }
      ghost var before := connection.rows;
      CleanIds(start, before, p'.own);
      var a := Attempt(connection, pool.policy, model, estimated, t);
      CleanStep(start, before, connection.rows, p'.own, a.reserved, a.stuck);
      if a.reserved.None? {
        PoolEnds(pool.credentials, fates, NoRoom, tries, n);
        p' := p'.(pressure := true);
        CountsMore(p, fates, p0, NoRoom, p');
        fates := fates + [NoRoom];
        return;
      }
      if a.stuck {
        PoolEnds(pool.credentials, fates, Stuck, tries, n);
        p' := p'.(stuck := a.reserved);
        CountsMore(p, fates, p0, Stuck, p');
        return p', Some(Raised), fates + [Stuck];
      }
      ghost var f := Ended(t.result, a.confirmed);
      FateOf(t.result, a.confirmed, c + 1 >= pool.credentials);
      p' := p'.(own := p'.own + [a.reserved.value],
                pressure := p'.pressure || t.result == CapacityExhausted || t.result == HttpError(429),
                retryable := p'.retryable || t.result == TransportError || (t.result.HttpError? && IsRetryable(t.result.status)));
      CountsMore(p, fates, p0, f, p');
      if !IsRefused(f) || c + 1 == pool.credentials { PoolEnds(pool.credentials, fates, f, tries, n); }
      if IsRefused(f) { RefusedMore(fates, f, tries, n); }
      fates := fates + [f];
      if t.result == Value && a.confirmed {
        return p', Some(Answered(model, |p'.own|)), fates;
      }
      match After(t.result, c + 1 >= pool.credentials) {
        case NextCredential =>
        case NextPool => return;
        case Done(r) => return p', Some(r), fates;
      }
    }
  }

  lemma NothingYet(p: Progress, credentials: nat, tries: nat -> Try)
    ensures AllRefused([], tries) && Counts(p, [], p) && LastFate([]) == None
    ensures credentials == 0 ==> PoolFates(credentials, [], tries)
  {
    NoFates();
  }

  lemma NoFates()
    ensures forall what :: !HasFate([], what)
  {}

  /** The fates without an invocation. */
  lemma PlainFates(t: Try)
    ensures !Answers(Full) && !Raises(Full) && !IsRefused(Full) && IsPressure(Full) && !IsProviderError(Full) && Fits(Full, t)
    ensures !Answers(NoRoom) && !Raises(NoRoom) && !IsRefused(NoRoom) && IsPressure(NoRoom) && !IsProviderError(NoRoom)
    ensures !Answers(NotStarted) && Raises(NotStarted) && !IsRefused(NotStarted) && !IsPressure(NotStarted) && !IsProviderError(NotStarted)
    ensures !Answers(Stuck) && Raises(Stuck) && !IsRefused(Stuck) && !IsPressure(Stuck) && !IsProviderError(Stuck)
  {}

  lemma CleanIds(start: seq<Row>, rows: seq<Row>, own: seq<string>)
    requires KeepsClean(start, rows, own)
    ensures DistinctIds(rows)
  {}

  lemma CleanStart(rows: seq<Row>)
    requires DistinctIds(rows)
    ensures KeepsClean(rows, rows, []) && AreOwn(rows, rows, [])
  {}

  lemma PlacesGrow(profiles: seq<Profile>, i: nat, j: nat)
    requires i < |profiles| && j <= |profiles[i].pools|
    ensures Places(profiles[..i + 1]) == Places(profiles[..i]) + PlacesOf(profiles[i], |profiles[i].pools|)
    ensures Places(profiles[..i]) + PlacesOf(profiles[i], j) <= Places(profiles)
    ensures j < |profiles[i].pools| ==>
      PlacesOf(profiles[i], j + 1) == PlacesOf(profiles[i], j) + [(profiles[i].pools[j], profiles[i].model)]
  {
    assert profiles[..i + 1][..i] == profiles[..i];
    PlacesPrefix(profiles, i + 1);
    assert PlacesOf(profiles[i], j) <= PlacesOf(profiles[i], |profiles[i].pools|);
  }

  lemma {:induction false} PlacesPrefix(profiles: seq<Profile>, i: nat)
    requires i <= |profiles|
    ensures Places(profiles[..i]) <= Places(profiles)
    decreases |profiles| - i
  {
    if i < |profiles| {
      assert profiles[..i + 1][..i] == profiles[..i];
      PlacesPrefix(profiles, i + 1);
    } else {
      assert profiles[..i] == profiles;
    }
  }

  lemma MeetsMore(log: seq<seq<Fate>>, fates: seq<Fate>, what: Fate -> bool)
    ensures Meets(log + [fates], what) <==> Meets(log, what) || HasFate(fates, what)
  {
    var all := log + [fates];
    if Meets(log, what) {
      var k, n :| 0 <= k < |log| && 0 <= n < |log[k]| && what(log[k][n]);
      assert what(all[k][n]);
    }
    if HasFate(fates, what) {
      var n :| 0 <= n < |fates| && what(fates[n]);
      assert what(all[|log|][n]);
    }
  }

  lemma MeetsGrow(log: seq<seq<Fate>>, fates: seq<Fate>)
    ensures forall what :: Meets(log + [fates], what) <==> Meets(log, what) || HasFate(fates, what)
  {
    hide Meets, HasFate;
    forall what: Fate -> bool
      ensures Meets(log + [fates], what) <==> Meets(log, what) || HasFate(fates, what)
    {
      MeetsMore(log, fates, what);
    }
  }

  lemma ReservedGrow(log: seq<seq<Fate>>, fates: seq<Fate>)
    ensures AllReserved(log + [fates]) == AllReserved(log) + Reserved(fates)
  {
    hide Reserved;
    assert (log + [fates])[..|log|] == log;
  }

  /** One more pool of the log. */
  lemma LogGrows(places: seq<(Pool, string)>, log: seq<seq<Fate>>, fates: seq<Fate>, tries: nat -> Try)
    requires IsLog(places, log, tries) && |log| < |places| && PoolFates(places[|log|].0.credentials, fates, tries)
    requires log != [] ==> !IsFinal(LastFate(log[|log| - 1]))
    ensures IsLog(places, log + [fates], tries) && AllReserved(log + [fates]) == AllReserved(log) + Reserved(fates)
    ensures forall what :: Meets(log + [fates], what) <==> Meets(log, what) || HasFate(fates, what)
  {
    hide PoolFates, IsFinal, Meets, HasFate, AllReserved, Reserved, LastFate;
    MeetsGrow(log, fates);
    ReservedGrow(log, fates);
  }

  /** What the route knows after some pools. */
  ghost predicate Knows(profiles: seq<Profile>, seen: nat, log: seq<seq<Fate>>, p: Progress)
    requires seen <= |profiles|
  {
    && |p.Made()| == AllReserved(log)
    && (p.pressure <==> Meets(log, IsPressure) || exists i :: 0 <= i < seen && profiles[i].pools == [])
    && (p.retryable <==> Meets(log, IsProviderError))
  }

  /** No pool so far has ended the route. */
  ghost predicate GoesOn(log: seq<seq<Fate>>) {
    log != [] ==> !IsFinal(LastFate(log[|log| - 1]))
  }

  lemma KnowsMore(profiles: seq<Profile>, seen: nat, log: seq<seq<Fate>>, fates: seq<Fate>, p: Progress, p': Progress, tries: nat -> Try)
    requires seen <= |profiles| && Knows(profiles, seen, log, p) && Counts(p, fates, p')
    requires AllReserved(log + [fates]) == AllReserved(log) + Reserved(fates)
    requires forall what :: Meets(log + [fates], what) <==> Meets(log, what) || HasFate(fates, what)
    ensures Knows(profiles, seen, log + [fates], p')
  {
    hide Meets, HasFate;
  }

  lemma NothingMet()
    ensures forall what :: !Meets([], what)
  {}

  /** A route that goes on to its end. */
  lemma RouteEnds(profiles: seq<Profile>, log: seq<seq<Fate>>, p: Progress)
    requires |log| == |Places(profiles)| && GoesOn(log) && Knows(profiles, |profiles|, log, p)
    ensures IsResult(profiles, log, if !p.pressure && p.retryable then Raised else Unavailable)
  {
    hide Meets, Answers, Raises, Places;
  }

  /** A route that a pool has ended. */
  lemma RouteStops(profiles: seq<Profile>, log: seq<seq<Fate>>, r: Routed)
    requires log != [] && |log| <= |Places(profiles)| && IsFinal(LastFate(log[|log| - 1]))
    requires r == if Answers(LastFate(log[|log| - 1]).value) then Answered(Places(profiles)[|log| - 1].1, AllReserved(log)) else Raised
    ensures IsResult(profiles, log, r)
  {
    hide Meets, Answers, Raises, Places;
  }

  /**
    `execute_assistant_capacity_route`: whatever the models, the gateway and other processes do, it returns
    or raises with none of its own reservations open but one whose ending itself raised, and then it raises
    too; with nobody else writing, no other row it added is open. The pools are tried in turn and the result
    is what became of them.
   */
  method ExecuteRoute(connection: Connection, profiles: seq<Profile>, estimated: int, tries: nat -> Try, ghost alone: bool)
    returns (r: Routed, own: seq<string>, stuck: Option<string>, ghost log: seq<seq<Fate>>)
    requires DistinctIds(connection.rows) && (alone ==> forall n :: IsAlone(tries(n)))
    modifies connection
    ensures RowsFollow(old(connection.rows), connection.rows) && DistinctIds(connection.rows)
    ensures forall id :: id in own ==> !HasId(old(connection.rows), id) && HasId(connection.rows, id) && IsClosed(connection.rows, id)
    ensures StuckRaises(old(connection.rows), connection.rows, stuck, Some(r))
    ensures (forall n :: !tries(n).endFails) ==> stuck.None?
    ensures |own| + (if stuck.Some? then 1 else 0) <= MAX_ATTEMPTS
    ensures alone ==> forall k :: |old(connection.rows)| <= k < |connection.rows| ==>
      connection.rows[k].state != InFlight || stuck == Some(connection.rows[k].id)
    ensures IsLog(Places(profiles), log, tries) && IsResult(profiles, log, r)
    ensures AllReserved(log) == |own| + if stuck.Some? then 1 else 0
  {
    hide RowsFollow, DistinctIds, IsClosed, HasId, KeepsClean, AreOwn, Places, IsLog, IsFinal, Knows, GoesOn, IsResult, AllReserved, PoolFates, Counts;
    ghost var start := connection.rows;
    CleanStart(start);
    log := [];
    var p := Progress([], None, 0, false, false);
    NoLog(profiles, tries, p);
    for i := 0 to |profiles|
      invariant KeepsClean(start, connection.rows, p.own) && |p.own| <= MAX_ATTEMPTS && p.stuck.None?
      invariant alone ==> AreOwn(start, connection.rows, p.Made())
      invariant IsLog(Places(profiles), log, tries) && GoesOn(log) && |log| == |Places(profiles[..i])| && Knows(profiles, i, log, p)
    {
      ghost var p0 := p;
      if profiles[i].pools == [] {
        p := p.(pressure := true);
      }
      KnowsProfile(profiles, i, log, p0, p);
      for j := 0 to |profiles[i].pools|
        invariant KeepsClean(start, connection.rows, p.own) && |p.own| <= MAX_ATTEMPTS && p.stuck.None?
        invariant alone ==> AreOwn(start, connection.rows, p.Made())
        invariant IsLog(Places(profiles), log, tries) && GoesOn(log) && |log| == |Places(profiles[..i])| + j && Knows(profiles, i + 1, log, p)
      {
        PlacesGrow(profiles, i, j + 1);
        ThisPlace(profiles, i, j);
        ghost var before, q := log, p;
        var done;
        ghost var fates;
        p, done, fates := RoutePool(connection, profiles[i].pools[j], profiles[i].model, estimated, tries, p, start, alone);
        MayGrow(before);
        LogGrows(Places(profiles), before, fates, tries);
        KnowsMore(profiles, i + 1, before, fates, q, p, tries);
        log := before + [fates];
        GoesOnIff(before, fates);
        KnowsMade(profiles, i + 1, log, p);
        if done.Some? {
          CleanEnd(start, connection.rows, p);
          RouteStops(profiles, log, done.value);
          return done.value, p.own, p.stuck, log;
        }
      }
      PlacesGrow(profiles, i, |profiles[i].pools|);
    }
    CleanEnd(start, connection.rows, p);
    assert profiles[..|profiles|] == profiles;
    RouteEnds(profiles, log, p);
    KnowsMade(profiles, |profiles|, log, p);
    if !p.pressure && p.retryable {
      return Raised, p.own, None, log;
    }
    return Unavailable, p.own, None, log;
  }

  lemma NoLog(profiles: seq<Profile>, tries: nat -> Try, p: Progress)
    requires p == Progress([], None, 0, false, false)
    ensures IsLog(Places(profiles), [], tries) && GoesOn([]) && |Places(profiles[..0])| == 0 && Knows(profiles, 0, [], p)
  {
    NothingMet();
  }

  lemma KnowsProfile(profiles: seq<Profile>, i: nat, log: seq<seq<Fate>>, p: Progress, p': Progress)
    requires i < |profiles| && Knows(profiles, i, log, p) && p' == if profiles[i].pools == [] then p.(pressure := true) else p
    ensures Knows(profiles, i + 1, log, p')
  {
    hide Meets, AllReserved;
  }

  lemma ThisPlace(profiles: seq<Profile>, i: nat, j: nat)
    requires i < |profiles| && j < |profiles[i].pools|
    ensures var k := |Places(profiles[..i])| + j; k < |Places(profiles)| && Places(profiles)[k] == (profiles[i].pools[j], profiles[i].model)
  {
    hide Places;
    PlacesGrow(profiles, i, j + 1);
    var some := Places(profiles[..i]) + PlacesOf(profiles[i], j + 1);
    assert some[|Places(profiles[..i])| + j] == (profiles[i].pools[j], profiles[i].model);
  }

  lemma MayGrow(log: seq<seq<Fate>>)
    requires GoesOn(log)
    ensures log != [] ==> !IsFinal(LastFate(log[|log| - 1]))
  {}

  lemma GoesOnIff(log: seq<seq<Fate>>, fates: seq<Fate>)
    ensures GoesOn(log + [fates]) <==> !IsFinal(LastFate(fates))
  {
    hide IsFinal;
  }

  lemma KnowsMade(profiles: seq<Profile>, seen: nat, log: seq<seq<Fate>>, p: Progress)
    requires seen <= |profiles| && Knows(profiles, seen, log, p)
    ensures |p.Made()| == AllReserved(log)
  {}

  lemma CleanEnd(start: seq<Row>, rows: seq<Row>, p: Progress)
    requires KeepsClean(start, rows, p.own)
    ensures RowsFollow(start, rows) && DistinctIds(rows)
    ensures forall id :: id in p.own ==> !HasId(start, id) && HasId(rows, id) && IsClosed(rows, id)
    ensures AreOwn(start, rows, p.Made()) ==> forall k :: |start| <= k < |rows| ==> rows[k].state != InFlight || p.stuck == Some(rows[k].id)
  {
    assert forall id :: id in p.Made() ==> id in p.own || p.stuck == Some(id);
  }

  /** A reservation that could not be ended stays open only until a reservation is made after it expired. */
  lemma StuckExpires(t: Tables, periods: Periods, q: Request, now: int, k: nat)
    requires DistinctIds(t.rows) && k < |t.rows| && t.rows[k].expires <= now && Reserve(t, periods, q, now).1.Some?
    ensures IsClosed(Reserve(t, periods, q, now).0.rows, t.rows[k].id)
  {
    hide IsAvailable;
    assert HasId(t.rows, t.rows[k].id);
  }
}
