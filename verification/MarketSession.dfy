/** The weekly closure: a predicate on instants, the time the market is open, and horizons that cross a closure. */
module MarketSession {
  import opened Text

  /** Instants are microseconds; local instant 0 is a Monday at midnight. */
  const HOUR := 3_600_000_000
  const DAY := 24 * HOUR
  const WEEK := 7 * DAY

  function Weekday(local: int): int {
    local / DAY % 7
  }

  function HourOf(local: int): int {
    local % DAY / HOUR
  }

  /** The local times of the closure. */
  predicate IsClosedLocally(local: int) {
    || (Weekday(local) == 4 && HourOf(local) >= 17)
    || Weekday(local) == 5
    || (Weekday(local) == 6 && HourOf(local) < 18)
  }

  function Friday(w: int): int {
    w * WEEK + 4 * DAY + 17 * HOUR
  }

  function Sunday(w: int): int {
    w * WEEK + 6 * DAY + 18 * HOUR
  }

  /**
    New York's clock. Its offset from UTC changes only while the market is closed: `offset(w)` is in
    force up to the closure of week `w`, `offset(w + 1)` after it, and `change(w)` is the instant of
    the change, if there is one.
   */
  datatype Zone = Zone(offset: int -> int, change: int -> int)

  ghost predicate IsZone(z: Zone) {
    forall w: int ::
      && -15 * HOUR <= z.offset(w) <= 15 * HOUR
      && -2 * HOUR <= z.offset(w + 1) - z.offset(w) <= 2 * HOUR
      && Friday(w) < z.change(w) + z.offset(w) < Sunday(w)
      && Friday(w) < z.change(w) + z.offset(w + 1) < Sunday(w)
  }

  /** Such a clock exists: an offset that never changes is one. */
  lemma ZoneExists() returns (z: Zone)
    ensures IsZone(z)
  {
    z := Zone(w => -5 * HOUR, w => Sunday(w) + 4 * HOUR);
    forall w: int
      ensures z.offset(w) == -5 * HOUR
    {
    }
    forall w: int
      ensures z.change(w) == Sunday(w) + 4 * HOUR && Sunday(w) == Friday(w) + 49 * HOUR
    {
    }
    hide Sunday, Friday;
  }

  /** The closure of a week in UTC: from Friday 17:00 local time up to Sunday 18:00. */
  function Close(z: Zone, w: int): int {
    Friday(w) - z.offset(w)
  }

  function Reopen(z: Zone, w: int): int {
    Sunday(w) - z.offset(w + 1)
  }

  /** The week an instant belongs to; weeks end when the market reopens. */
  function WeekAt(z: Zone, t: int): int {
    var w := t / WEEK;
    if t < Reopen(z, w - 1) then w - 1 else if t < Reopen(z, w) then w else w + 1
  }

  /** `t.astimezone(NEW_YORK)`. */
  function Local(z: Zone, t: int): int {
    var w := WeekAt(z, t);
    t + if t < z.change(w) then z.offset(w) else z.offset(w + 1)
  }

  /** `expected_weekly_closure`. */
  predicate ExpectedWeeklyClosure(z: Zone, t: int) {
    IsClosedLocally(Local(z, t))
  }

  // --------------------------------------------------------------------- the windows

  lemma ZoneAt(z: Zone, w: int)
    requires IsZone(z)
    ensures -15 * HOUR <= z.offset(w) <= 15 * HOUR && -15 * HOUR <= z.offset(w + 1) <= 15 * HOUR
    ensures -2 * HOUR <= z.offset(w + 1) - z.offset(w) <= 2 * HOUR
    ensures Friday(w) < z.change(w) + z.offset(w) < Sunday(w) && Friday(w) < z.change(w) + z.offset(w + 1) < Sunday(w)
    ensures 47 * HOUR <= Reopen(z, w) - Close(z, w) <= 51 * HOUR
  {
    assert -15 * HOUR <= z.offset(w + 1);
  }

  lemma ReopenAbout(z: Zone, w: int)
    requires IsZone(z)
    ensures w * WEEK + 6 * DAY + 3 * HOUR <= Reopen(z, w) <= w * WEEK + 7 * DAY + 9 * HOUR
  {
    ZoneAt(z, w);
  }

  lemma WeekAtIs(z: Zone, t: int)
    requires IsZone(z)
    ensures var w := WeekAt(z, t); Reopen(z, w - 1) <= t < Reopen(z, w)
  {
    hide IsZone, Reopen;
    var w := t / WEEK;
    assert w * WEEK <= t < w * WEEK + WEEK;
    ReopenAbout(z, w - 2);
    ReopenAbout(z, w - 1);
    ReopenAbout(z, w);
    ReopenAbout(z, w + 1);
  }

  lemma WeeksInOrder(z: Zone, v: int, w: int)
    requires IsZone(z) && v < w
    ensures Reopen(z, v) + 117 * HOUR <= Close(z, w) && Sunday(v) < Friday(w)
  {
    hide IsZone, Friday, Sunday;
    ZoneAt(z, v);
    ZoneAt(z, w);
    WeeksApart(v, w);
    if w == v + 1 { assert z.offset(v + 1) == z.offset(w); }
  }

  lemma WeeksApart(v: int, w: int)
    requires v < w
    ensures Friday(w) - Sunday(v) >= 119 * HOUR && (w > v + 1 ==> Friday(w) - Sunday(v) >= 119 * HOUR + WEEK)
  {
    assert w * WEEK - v * WEEK == (w - v) * WEEK;
    assert w > v + 1 ==> (w - v) * WEEK >= 2 * WEEK;
  }

  lemma ReopensInOrder(z: Zone, v: int, w: int)
    requires IsZone(z) && v < w
    ensures Reopen(z, v) < Reopen(z, w)
  {
    WeeksInOrder(z, v, w);
    ZoneAt(z, w);
  }

  lemma WeekIsUnique(z: Zone, t: int, w: int)
    requires IsZone(z) && Reopen(z, w - 1) <= t < Reopen(z, w)
    ensures WeekAt(z, t) == w
  {
    WeekAtIs(z, t);
    var v := WeekAt(z, t);
    hide IsZone, Reopen, WeekAt;
    if v < w - 1 { ReopensInOrder(z, v, w - 1); }
    if w < v - 1 { ReopensInOrder(z, w, v - 1); }
  }

  /** Between one Sunday evening and the next the local clock shows a closure from Friday evening on. */
  lemma ClosedLocallyIs(local: int, w: int)
    requires Sunday(w - 1) <= local < Sunday(w)
    ensures IsClosedLocally(local) <==> local >= Friday(w)
  {
    assert (w - 1) * WEEK == w * WEEK - WEEK;
    var r := local - w * WEEK;
    assert -DAY <= r < WEEK;
    if r < 0 {
      DayIs(local, 7 * w - 1);
      assert (7 * w - 1) % 7 == 6;
    } else {
      var d := r / DAY;
      assert d * DAY <= r < d * DAY + DAY && 0 <= d < 7;
      DayIs(local, 7 * w + d);
      assert (7 * w + d) % 7 == d;
    }
  }

  lemma DayIs(local: int, day: int)
    requires day * DAY <= local < day * DAY + DAY
    ensures local / DAY == day && local % DAY == local - day * DAY
    ensures HourOf(local) >= 17 <==> local - day * DAY >= 17 * HOUR
    ensures HourOf(local) < 18 <==> local - day * DAY < 18 * HOUR
  {
    var r := local - day * DAY;
    assert local == day * DAY + r;
  }

  lemma LocalIs(z: Zone, t: int)
    requires IsZone(z)
    ensures var w := WeekAt(z, t);
      Sunday(w - 1) <= Local(z, t) < Sunday(w) && (Local(z, t) >= Friday(w) <==> t >= Close(z, w))
  {
    hide IsZone, WeekAt, Close, Reopen, Friday, Sunday;
    var w := WeekAt(z, t);
    WeekAtIs(z, t);
    WeekIs(z, w - 1);
    WeekIs(z, w);
    LocalWithin(t, Sunday(w - 1), Friday(w), Sunday(w), z.offset(w), z.offset(w + 1), z.change(w));
  }

  lemma WeekIs(z: Zone, w: int)
    requires IsZone(z)
    ensures Close(z, w) == Friday(w) - z.offset(w) && Reopen(z, w) == Sunday(w) - z.offset(w + 1)
    ensures Friday(w) < z.change(w) + z.offset(w) < Sunday(w) && Friday(w) < z.change(w) + z.offset(w + 1) < Sunday(w)
    ensures -2 * HOUR <= z.offset(w + 1) - z.offset(w) <= 2 * HOUR && Sunday(w) == Friday(w) + 49 * HOUR
    ensures Sunday(w - 1) == Sunday(w) - WEEK
  {
    assert (w - 1) * WEEK == w * WEEK - WEEK;
  }

  /** The local time of one week, with its offsets before and after the change. */
  lemma LocalWithin(t: int, sunday: int, friday: int, nextSunday: int, before: int, after: int, change: int)
    requires sunday - before <= t < nextSunday - after
    requires friday < change + before < nextSunday && friday < change + after < nextSunday && sunday < friday
    ensures var local := t + if t < change then before else after;
      sunday <= local < nextSunday && (local >= friday <==> t >= friday - before)
  {}

  /** The pointwise test is membership in the closure of the week. */
  lemma ClosureIsWindow(z: Zone, t: int)
    requires IsZone(z)
    ensures ExpectedWeeklyClosure(z, t) <==> Close(z, WeekAt(z, t)) <= t < Reopen(z, WeekAt(z, t))
  {
    WeekAtIs(z, t);
    LocalIs(z, t);
    ClosedLocallyIs(Local(z, t), WeekAt(z, t));
  }

  /** The UTC ends of a closure are the instants at which the local clock shows Friday 17:00 and Sunday 18:00. */
  lemma WindowEndsAreLocalTimes(z: Zone, w: int)
    requires IsZone(z)
    ensures Local(z, Close(z, w)) == Friday(w) && Local(z, Reopen(z, w)) == Sunday(w)
  {
    ZoneAt(z, w);
    ZoneAt(z, w + 1);
    WeeksInOrder(z, w - 1, w);
    WeeksInOrder(z, w, w + 1);
    hide IsZone, WeekAt;
    WeekIsUnique(z, Close(z, w), w);
    WeekIsUnique(z, Reopen(z, w), w + 1);
  }

  predicate InWindow(z: Zone, w: int, t: int) {
    Close(z, w) <= t < Reopen(z, w)
  }

  /** An instant is closed exactly when it lies in a window, and then in one only. */
  lemma OnlyWindow(z: Zone, t: int, w: int)
    requires IsZone(z)
    ensures InWindow(z, w, t) <==> ExpectedWeeklyClosure(z, t) && w == WeekAt(z, t)
  {
    ClosureIsWindow(z, t);
    if InWindow(z, w, t) {
      WeeksInOrder(z, w - 1, w);
      WeekIsUnique(z, t, w);
    }
  }

  // ---------------------------------------------------------------------- time elapsed

  /** The time units of [a, b) in which the market is open. */
  function OpenTime(z: Zone, a: int, b: int): nat
    decreases b - a
  {
    if b <= a then 0 else OpenTime(z, a, b - 1) + if ExpectedWeeklyClosure(z, b - 1) then 0 else 1
  }

  function Overlap(z: Zone, w: int, a: int, b: int): nat {
    var from := if a > Close(z, w) then a else Close(z, w);
    var to := if b < Reopen(z, w) then b else Reopen(z, w);
    if to > from then to - from else 0
  }

  predicate IsFriday(date: int) {
    date % 7 == 4
  }

  /** The closed time of the windows whose Fridays are among the dates. */
  function Closed(z: Zone, first: int, stop: int, a: int, b: int): nat
    decreases stop - first
  {
    if stop <= first then 0
    else Closed(z, first, stop - 1, a, b) + if IsFriday(stop - 1) then Overlap(z, (stop - 1) / 7, a, b) else 0
  }

  lemma {:induction false} ClosedOfNothing(z: Zone, first: int, stop: int, a: int)
    requires IsZone(z)
    ensures Closed(z, first, stop, a, a) == 0
    decreases stop - first
  {
    if first < stop { ClosedOfNothing(z, first, stop - 1, a); }
  }

  /** One more time unit is in at most one of the windows. */
  lemma {:induction false} ClosedGrows(z: Zone, first: int, stop: int, a: int, b: int)
    requires IsZone(z) && a <= b
    ensures Closed(z, first, stop, a, b + 1) == Closed(z, first, stop, a, b)
          + if ExpectedWeeklyClosure(z, b) && first <= 7 * WeekAt(z, b) + 4 < stop then 1 else 0
    decreases stop - first
  {
    hide ExpectedWeeklyClosure, WeekAt, Close, Reopen;
    if first < stop {
      ClosedGrows(z, first, stop - 1, a, b);
      var date := stop - 1;
      if IsFriday(date) {
        OnlyWindow(z, b, date / 7);
        OverlapGrows(z, date / 7, a, b);
        assert date == 7 * (date / 7) + 4;
      }
    }
  }

  lemma OverlapGrows(z: Zone, w: int, a: int, b: int)
    requires a <= b
    ensures Overlap(z, w, a, b + 1) == Overlap(z, w, a, b) + if InWindow(z, w, b) then 1 else 0
  {
    hide Close, Reopen;
  }

  /** The dates the loop visits include the Friday of every closure that meets [a, b). */
  lemma DatesSuffice(z: Zone, a: int, t: int, b: int)
    requires IsZone(z) && a <= t < b && ExpectedWeeklyClosure(z, t)
    ensures Local(z, a) / DAY - 7 <= 7 * WeekAt(z, t) + 4 <= Local(z, b) / DAY
  {
    var w := WeekAt(z, t);
    ClosureIsWindow(z, t);
    LaterLocal(z, w, b);
    EarlierLocal(z, w, a);
    DateAfter(Local(z, b), w);
    DateBefore(Local(z, a), w);
  }

  lemma DateAfter(local: int, w: int)
    requires local >= Friday(w)
    ensures local / DAY >= 7 * w + 4
  {
    assert local >= (7 * w + 4) * DAY;
  }

  lemma DateBefore(local: int, w: int)
    requires local < Sunday(w)
    ensures local / DAY <= 7 * w + 6
  {
    assert local < (7 * w + 7) * DAY;
  }

  lemma LaterLocal(z: Zone, w: int, b: int)
    requires IsZone(z) && Close(z, w) < b
    ensures Local(z, b) >= Friday(w)
  {
    hide Local, IsZone, WeekAt;
    LocalIs(z, b);
    WeekAtIs(z, b);
    var v := WeekAt(z, b);
    if v < w {
      WeeksInOrder(z, v, w);
    } else if w < v {
      if w < v - 1 { WeeksInOrder(z, w, v - 1); }
      assert Sunday(v - 1) >= Friday(w);
    }
  }

  lemma EarlierLocal(z: Zone, w: int, a: int)
    requires IsZone(z) && a < Reopen(z, w)
    ensures Local(z, a) < Sunday(w)
  {
    hide Local, IsZone, WeekAt;
    LocalIs(z, a);
    WeekAtIs(z, a);
    var v := WeekAt(z, a);
    if w < v {
      ZoneAt(z, v - 1);
      if w < v - 1 { WeeksInOrder(z, w, v - 1); }
    } else if v < w {
      WeeksInOrder(z, v, w);
      assert Friday(w) < Sunday(w);
    }
  }

  /** The sum over the visited windows is the closed part of [a, b). */
  lemma {:induction false} ClosedIsMeasure(z: Zone, a: int, m: int, b: int)
    requires IsZone(z) && a <= m <= b
    ensures OpenTime(z, a, m) + Closed(z, Local(z, a) / DAY - 7, Local(z, b) / DAY + 1, a, m) == m - a
    decreases m - a
  {
    hide ExpectedWeeklyClosure, WeekAt, Local, Closed;
    var first, stop := Local(z, a) / DAY - 7, Local(z, b) / DAY + 1;
    if a == m {
      ClosedOfNothing(z, first, stop, a);
    } else {
      ClosedIsMeasure(z, a, m - 1, b);
      ClosedGrows(z, first, stop, a, m - 1);
      if ExpectedWeeklyClosure(z, m - 1) { DatesSuffice(z, a, m - 1, b); }
    }
  }

  /** `market_open_elapsed`: the sum over windows is the measure of the open instants; `None` is the error. */
  method MarketOpenElapsed(z: Zone, start: int, end: int) returns (r: Option<int>)
    requires IsZone(z)
    ensures r == if end < start then None else Some(OpenTime(z, start, end))
  {
    hide Local, OpenTime, Close, Reopen;
    if end < start {
      return None;
    }
    var closed := 0;
    var first := Local(z, start) / DAY - 7;
    var cursor := first;
    var final := Local(z, end) / DAY;
    FirstBeforeFinal(z, start, end);
    while cursor <= final
      invariant first <= cursor <= final + 1
      invariant closed == Closed(z, first, cursor, start, end)
    {
      if IsFriday(cursor) {
        var w := cursor / 7;
        var overlapStart := if start > Close(z, w) then start else Close(z, w);
        var overlapEnd := if end < Reopen(z, w) then end else Reopen(z, w);
        if overlapEnd > overlapStart {
          closed := closed + (overlapEnd - overlapStart);
        }
      }
      cursor := cursor + 1;
    }
    ClosedIsMeasure(z, start, end, end);
    return Some(end - start - closed);
  }

  lemma LocalAbout(z: Zone, t: int)
    requires IsZone(z)
    ensures t - 15 * HOUR <= Local(z, t) <= t + 15 * HOUR
  {
    ZoneAt(z, WeekAt(z, t));
    hide WeekAt, IsZone;
  }

  lemma FirstBeforeFinal(z: Zone, a: int, b: int)
    requires IsZone(z) && a <= b
    ensures Local(z, a) / DAY - 7 <= Local(z, b) / DAY
  {
    hide Local, IsZone;
    LocalAbout(z, a);
    LocalAbout(z, b);
  }

  /** Open time adds up over adjoining intervals and lies between nothing and the whole interval. */
  lemma {:induction false} OpenTimeIsAdditive(z: Zone, a: int, b: int, c: int)
    requires a <= b <= c
    ensures OpenTime(z, a, c) == OpenTime(z, a, b) + OpenTime(z, b, c)
    ensures OpenTime(z, b, c) <= c - b
    decreases c - b
  {
    hide ExpectedWeeklyClosure;
    if b < c { OpenTimeIsAdditive(z, a, b, c - 1); }
  }

  // ------------------------------------------------------------------------- horizons

  /** `horizon_crosses_weekly_closure`; `None` is the error. */
  function HorizonCrosses(z: Zone, decision: int, horizon: int): Option<bool> {
    if horizon <= 0 then None
    else if ExpectedWeeklyClosure(z, decision) then Some(true)
    else Some(ExpectedWeeklyClosure(z, decision + horizon))
  }

  ghost predicate Crosses(z: Zone, decision: int, horizon: int) {
    exists t :: decision <= t <= decision + horizon && ExpectedWeeklyClosure(z, t)
  }

  function Length(z: Zone, w: int): int {
    Reopen(z, w) - Close(z, w)
  }

  /** A horizon no longer than any closure that starts inside it is judged by its two ends alone. */
  lemma EndsDecide(z: Zone, decision: int, horizon: int)
    requires IsZone(z) && horizon > 0 && forall w :: horizon <= Length(z, w)
    ensures HorizonCrosses(z, decision, horizon) == Some(Crosses(z, decision, horizon))
  {
    hide ExpectedWeeklyClosure, WeekAt;
    if Crosses(z, decision, horizon) && !ExpectedWeeklyClosure(z, decision) {
      var t :| decision <= t <= decision + horizon && ExpectedWeeklyClosure(z, t);
      var w := WeekAt(z, t);
      OnlyWindow(z, t, w);
      OnlyWindow(z, decision, w);
      OnlyWindow(z, decision + horizon, w);
      assert horizon <= Length(z, w);
    }
  }

  /** For a longer horizon there is a decision whose two ends miss a closure between them. */
  lemma EndsMiss(z: Zone, w: int, horizon: int) returns (decision: int)
    requires IsZone(z) && horizon > Length(z, w)
    ensures HorizonCrosses(z, decision, horizon) == Some(false) && Crosses(z, decision, horizon)
  {
    hide ExpectedWeeklyClosure, WeekAt, Close, Reopen, IsZone;
    LengthAbout(z, w);
    WeeksInOrder(z, w - 1, w);
    decision := Close(z, w) - 1;
    var t := decision + horizon;
    var k := WeekAt(z, t);
    OnlyWindow(z, t, k);
    ClosureIsWindow(z, t);
    if ExpectedWeeklyClosure(z, t) {
      LengthAbout(z, k);
      OpenBefore(z, k);
      if k < w { WeeksInOrder(z, k, w); }
      if w < k { WeeksInOrder(z, w, k); }
      decision := decision - (t - (Close(z, k) - 1));
    }
    IsOpenBetween(z, w, decision);
    OnlyWindow(z, Close(z, w), w);
    assert ExpectedWeeklyClosure(z, Close(z, w)) && decision <= Close(z, w) <= decision + horizon;
  }

  lemma LengthAbout(z: Zone, w: int)
    requires IsZone(z)
    ensures 47 * HOUR <= Length(z, w) <= 51 * HOUR
  {
    ZoneAt(z, w);
  }

  lemma OpenBefore(z: Zone, k: int)
    requires IsZone(z)
    ensures !ExpectedWeeklyClosure(z, Close(z, k) - 1)
  {
    WeeksInOrder(z, k - 1, k);
    IsOpenBetween(z, k, Close(z, k) - 1);
  }

  lemma IsOpenBetween(z: Zone, w: int, t: int)
    requires IsZone(z) && Reopen(z, w - 1) <= t < Close(z, w)
    ensures !ExpectedWeeklyClosure(z, t)
  {
    ZoneAt(z, w);
    WeekIsUnique(z, t, w);
    ClosureIsWindow(z, t);
  }

  /** The test by two ends is right for every decision exactly when no closure is shorter than the horizon. */
  lemma EndpointTestIsExact(z: Zone, horizon: int)
    requires IsZone(z) && horizon > 0
    ensures (forall d: int :: HorizonCrosses(z, d, horizon) == Some(Crosses(z, d, horizon))) <==> forall w: int :: horizon <= Length(z, w)
  {
    hide HorizonCrosses, Crosses, Length;
    if forall w: int :: horizon <= Length(z, w) {
      forall d: int
        ensures HorizonCrosses(z, d, horizon) == Some(Crosses(z, d, horizon))
      {
        EndsDecide(z, d, horizon);
      }
    } else {
      var w: int :| horizon > Length(z, w);
      var d := EndsMiss(z, w, horizon);
      assert HorizonCrosses(z, d, horizon) != Some(Crosses(z, d, horizon));
    }
  }

  /** With a fixed offset every closure lasts 49 hours, so the default half hour is always judged rightly. */
  lemma FixedOffset(z: Zone, w: int)
    requires forall v: int, u: int :: z.offset(v) == z.offset(u)
    ensures Length(z, w) == 49 * HOUR
  {
    assert z.offset(w) == z.offset(w + 1);
  }
}
