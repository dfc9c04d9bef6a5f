/** What each tier of the retention policy holds, told from the days of the backups. */
module RetentionTiers {
  import opened Sorting
  import opened Retention

  /** The Monday of a day's ISO week; day 1 is a Monday. */
  function Monday(day: int): int {
    day - (day - 1) % 7
  }

  /** Two days are of one ISO week exactly when they have the same Monday, the last one up to them. */
  lemma WeekIsMonday(a: int, b: int)
    ensures WEEK(a) == WEEK(b) <==> Monday(a) == Monday(b)
    ensures Monday(a) <= a < Monday(a) + 7 && Monday(a) % 7 == 1
  {
    assert Monday(a) == 7 * WEEK(a) + 1 && Monday(b) == 7 * WEEK(b) + 1;
  }

  ghost predicate Descending(xs: seq<Backup>) {
    forall i, j :: 0 <= i < j < |xs| ==> xs[i].day > xs[j].day
  }

  lemma NewestFirstDescends(entries: seq<Backup>)
    requires DistinctDays(entries)
    ensures Descending(NewestFirst(entries)) && |NewestFirst(entries)| == |entries|
    ensures forall e :: e in NewestFirst(entries) <==> e in entries
  {
    hide SortBy;
    SortByIncreasing(entries, AgeKey);
    var r := NewestFirst(entries);
    forall i, j | 0 <= i < j < |r|
      ensures r[i].day > r[j].day
    {
      AgeOrder(r[i], r[j]);
    }
  }

  lemma AgeOrder(a: Backup, b: Backup)
    ensures Less(AgeKey(a), AgeKey(b)) <==> a.day > b.day
  {}

  lemma {:induction false} WithoutDescends(xs: seq<Backup>, keep: seq<Backup>)
    requires Descending(xs)
    ensures Descending(Without(xs, keep))
  {
    if xs != [] {
      WithoutDescends(xs[1..], keep);
      var rest := Without(xs[1..], keep);
      forall i | 0 <= i < |rest|
        ensures xs[0].day > rest[i].day
      {
        assert rest[i] in rest;
        var k :| 0 <= k < |xs[1..]| && xs[1..][k] == rest[i];
        assert xs[k + 1] == rest[i];
      }
      assert Descending([xs[0]] + rest);
    }
  }

  // ------------------------------------------------------------------- one tier of periods

  lemma PrefixPeriods(xs: seq<Backup>, k: nat, period: Calendar)
    requires 0 < k <= |xs|
    ensures Periods(xs[..k], period) == {period(xs[0].day)} + Periods(xs[1..][..k - 1], period)
  {
    assert xs[..k] == [xs[0]] + xs[1..][..k - 1];
  }

  lemma Grows(a: set<int>, b: set<int>)
    requires a <= b
    ensures |a| <= |b|
  {
    Subset(a, b);
  }

  /** A candidate is taken exactly when it is the first of its period and places are left for that period. */
  lemma {:induction false} TakenIff(xs: seq<Backup>, count: nat, period: Calendar, seen: set<int>, k: nat)
    requires (seen == {} || |seen| < count) && k < |xs| && xs[k] !in xs[..k]
    ensures xs[k] in AddUnique(xs, count, period, seen) <==>
      period(xs[k].day) !in seen + Periods(xs[..k], period) && |seen + Periods(xs[..k], period)| < AtLeastOne(count)
    decreases |xs|
  {
    hide Periods;
    var p := period(xs[0].day);
    if k == 0 {
      FirstTaken(xs, count, period, seen);
    } else {
      PrefixPeriods(xs, k, period);
      var later := Periods(xs[1..][..k - 1], period);
      assert xs[1..][k - 1] == xs[k] && xs[k] !in xs[1..][..k - 1] && xs[0] != xs[k] by { NotEarlier(xs, k); }
      if p in seen {
        assert seen + ({p} + later) == seen + later;
        TakenIff(xs[1..], count, period, seen, k - 1);
      } else if |seen + {p}| >= count {
        Grows(seen + {p}, seen + ({p} + later));
        assert |seen + {p}| == |seen| + 1;
      } else {
        assert seen + ({p} + later) == seen + {p} + later;
        TakenIff(xs[1..], count, period, seen + {p}, k - 1);
      }
    }
  }

  lemma NotEarlier(xs: seq<Backup>, k: nat)
    requires 0 < k < |xs| && xs[k] !in xs[..k]
    ensures xs[k] !in xs[1..][..k - 1] && xs[0] != xs[k]
  {
    assert xs[..k] == [xs[0]] + xs[1..][..k - 1];
  }

  lemma FirstTaken(xs: seq<Backup>, count: nat, period: Calendar, seen: set<int>)
    requires (seen == {} || |seen| < count) && xs != []
    ensures xs[0] in AddUnique(xs, count, period, seen) <==> period(xs[0].day) !in seen
    ensures Periods(xs[..0], period) == {} && seen + Periods(xs[..0], period) == seen && |seen| < AtLeastOne(count)
  {
    AddUniqueDiffer(xs, count, period, seen);
    assert xs[..0] == [];
  }

  /** The periods of the backups that are not taken yet and newer than a day. */
  function NewerPeriods(entries: seq<Backup>, taken: seq<Backup>, period: Calendar, day: int): set<int> {
    set d | d in entries && d !in taken && d.day > day :: period(d.day)
  }

  /**
    A tier chooses a backup that is not taken yet exactly when it is the newest such backup of its period,
    and fewer periods than the tier has places are newer.
   */
  ghost predicate Chooses(entries: seq<Backup>, taken: seq<Backup>, count: nat, period: Calendar, e: Backup) {
    && e in entries && e !in taken
    && (forall d :: d in entries && d !in taken && d.day > e.day ==> period(d.day) != period(e.day))
    && |NewerPeriods(entries, taken, period, e.day)| < AtLeastOne(count)
  }

  lemma NewerArePrefix(entries: seq<Backup>, taken: seq<Backup>, period: Calendar, rest: seq<Backup>, k: nat)
    requires Descending(rest) && k < |rest| && forall e :: e in rest <==> e in entries && e !in taken
    ensures Periods(rest[..k], period) == NewerPeriods(entries, taken, period, rest[k].day)
    ensures rest[k] !in rest[..k]
    ensures (forall d :: d in entries && d !in taken && d.day > rest[k].day ==> period(d.day) != period(rest[k].day))
       <==> period(rest[k].day) !in Periods(rest[..k], period)
  {
    forall d: Backup
      ensures d in rest[..k] <==> d in entries && d !in taken && d.day > rest[k].day
    {
      if d in entries && d !in taken && d.day > rest[k].day {
        assert d in rest;
        var j :| 0 <= j < |rest| && rest[j] == d;
        assert j < k;
        assert rest[..k][j] == d;
      }
    }
  }

  lemma TierIs(entries: seq<Backup>, taken: seq<Backup>, count: nat, period: Calendar, rest: seq<Backup>)
    requires Descending(rest) && forall e :: e in rest <==> e in entries && e !in taken
    ensures forall e :: e in AddUnique(rest, count, period, {}) <==> Chooses(entries, taken, count, period, e)
  {
    hide Periods, NewerPeriods;
    var r := AddUnique(rest, count, period, {});
    forall e: Backup
      ensures e in r <==> Chooses(entries, taken, count, period, e)
    {
      if e in rest {
        var k :| 0 <= k < |rest| && rest[k] == e;
        NewerArePrefix(entries, taken, period, rest, k);
        TakenIff(rest, count, period, {}, k);
        assert {} + Periods(rest[..k], period) == Periods(rest[..k], period);
      }
    }
  }

  lemma {:induction false} AddUniqueDescends(xs: seq<Backup>, count: nat, period: Calendar, seen: set<int>)
    requires Descending(xs)
    ensures Descending(AddUnique(xs, count, period, seen))
  {
    if xs != [] {
      var p := period(xs[0].day);
      AddUniqueDescends(xs[1..], count, period, seen);
      AddUniqueDescends(xs[1..], count, period, seen + {p});
      forall e | e in xs[1..]
        ensures xs[0].day > e.day
      {
        var k :| 0 <= k < |xs[1..]| && xs[1..][k] == e;
        assert xs[k + 1] == e;
      }
      var rest := AddUnique(xs[1..], count, period, seen + {p});
      assert forall i :: 0 <= i < |rest| ==> rest[i] in rest;
    }
  }

  // ---------------------------------------------------------------------- the three tiers

  /**
    The tiers: the newest daily backups; of the rest the newest of each of the first ISO weeks; of what is
    left the newest of each of the first months; in each tier as many as there are places, newest first.
   */
  lemma TiersAre(entries: seq<Backup>, policy: Policy, month: Calendar)
    returns (daily: seq<Backup>, weekly: seq<Backup>, monthly: seq<Backup>)
    requires DistinctDays(entries)
    ensures Tiers(entries, policy, month) == daily + weekly + monthly
    ensures Descending(daily) && Descending(weekly) && Descending(monthly)
    ensures |daily| == if |entries| < policy.daily then |entries| else policy.daily
    ensures forall e :: e in daily ==> e in entries && forall d :: d in entries && d !in daily ==> d.day < e.day
    ensures forall e :: e in weekly <==> Chooses(entries, daily, policy.weekly, WEEK, e)
    ensures forall e :: e in monthly <==> Chooses(entries, daily + weekly, policy.monthly, month, e)
    ensures |weekly| == Limited(|Periods(Without(NewestFirst(entries), daily), WEEK)|, policy.weekly)
    ensures |monthly| == Limited(|Periods(Without(NewestFirst(entries), daily + weekly), month)|, policy.monthly)
  {
    hide AddUnique, Without, NewestFirst, Periods, Chooses, Limited;
    var ordered := NewestFirst(entries);
    NewestFirstDescends(entries);
    daily := Take(ordered, policy.daily);
    var left := Without(ordered, daily);
    weekly := AddUnique(left, policy.weekly, WEEK, {});
    var last := Without(ordered, daily + weekly);
    monthly := AddUnique(last, policy.monthly, month, {});
    DailyAreNewest(entries, ordered, policy.daily);
    WithoutDescends(ordered, daily);
    WithoutDescends(ordered, daily + weekly);
    AddUniqueDescends(left, policy.weekly, WEEK, {});
    AddUniqueDescends(last, policy.monthly, month, {});
    TierIs(entries, daily, policy.weekly, WEEK, left);
    TierIs(entries, daily + weekly, policy.monthly, month, last);
    AddUniqueIs(left, policy.weekly, WEEK, {});
    AddUniqueIs(last, policy.monthly, month, {});
    assert Periods(left, WEEK) + {} == Periods(left, WEEK) && Periods(last, month) + {} == Periods(last, month);
  }

  lemma DailyAreNewest(entries: seq<Backup>, ordered: seq<Backup>, n: nat)
    requires Descending(ordered) && forall e :: e in ordered <==> e in entries
    ensures var daily := Take(ordered, n);
      && Descending(daily) && |daily| == (if |ordered| < n then |ordered| else n)
      && forall e :: e in daily ==> e in entries && forall d :: d in entries && d !in daily ==> d.day < e.day
  {
    var daily := Take(ordered, n);
    forall e, d | e in daily && d in entries && d !in daily
      ensures d.day < e.day
    {
      var i :| 0 <= i < |daily| && daily[i] == e;
      assert d in ordered;
      var j :| 0 <= j < |ordered| && ordered[j] == d;
      assert ordered[i] == e && forall q :: 0 <= q < |daily| ==> daily[q] == ordered[q];
    }
  }

  /** The chosen backups at increasing positions. */
  ghost predicate IsSelection(xs: seq<Backup>, chosen: seq<Backup>, p: seq<nat>) {
    && |p| == |chosen| && (forall k :: 0 <= k < |p| ==> p[k] < |xs| && chosen[k] == xs[p[k]])
    && (forall i, j :: 0 <= i < j < |p| ==> p[i] < p[j])
  }

  lemma SelectMore(xs: seq<Backup>, chosen: seq<Backup>, p: seq<nat>, e: Backup)
    requires IsSelection(xs, chosen, p)
    ensures IsSelection(xs + [e], chosen, p) && IsSelection(xs + [e], chosen + [e], p + [|xs|])
  {}

  /** The backups young enough, in the order of the tiers. */
  lemma {:induction false} HorizonIs(xs: seq<Backup>, horizon: int) returns (p: seq<nat>)
    ensures IsSelection(xs, InHorizon(xs, horizon), p)
    ensures forall i :: i in p <==> 0 <= i < |xs| && xs[i].day >= horizon
  {
    hide IsSelection, InHorizon;
    if xs == [] {
      p := [];
      NothingYoung(horizon);
    } else {
      var n := |xs| - 1;
      p := HorizonIs(xs[..n], horizon);
      HorizonAppend(xs[..n], xs[n], horizon);
      SelectMore(xs[..n], InHorizon(xs[..n], horizon), p, xs[n]);
      assert xs == xs[..n] + [xs[n]];
      assert InHorizon(xs[..n], horizon) + [] == InHorizon(xs[..n], horizon);
      if xs[n].day >= horizon { p := p + [n]; }
    }
  }

  lemma NothingYoung(horizon: int)
    ensures IsSelection([], InHorizon([], horizon), [])
  {}

  lemma {:induction false} HorizonAppend(xs: seq<Backup>, e: Backup, horizon: int)
    ensures InHorizon(xs + [e], horizon) == InHorizon(xs, horizon) + if e.day >= horizon then [e] else []
  {
    if xs == [] {
      assert [] + [e] == [e] && [e][1..] == [];
    } else {
      assert (xs + [e])[1..] == xs[1..] + [e];
      HorizonAppend(xs[1..], e, horizon);
    }
  }

  /**
    The whole selection: of the tiers in their order those young enough, no more than the policy's count,
    and of these the longest beginning within its bytes; refused when the first alone is too large.
   */
  lemma RetainedIs(entries: seq<Backup>, policy: Policy, month: Calendar, today: int) returns (young: seq<Backup>, p: seq<nat>)
    ensures var tiers, r := Tiers(entries, policy, month), Retained(entries, policy, month, today);
      && IsSelection(tiers, young, p) && (forall i :: i in p <==> 0 <= i < |tiers| && tiers[i].day >= today - policy.maximumAge)
      && var some := if policy.maximumSnapshots < |young| then young[..policy.maximumSnapshots] else young;
         && (r.None? <==> some != [] && some[0].bytes > policy.maximumBytes)
         && (r.Some? ==>
              && r.value <= some && Total(r.value) <= policy.maximumBytes
              && forall n :: |r.value| < n <= |some| ==> Total(some[..n]) > policy.maximumBytes)
  {
    hide Tiers, InHorizon, Total, Fit;
    var tiers := Tiers(entries, policy, month);
    young := InHorizon(tiers, today - policy.maximumAge);
    p := HorizonIs(tiers, today - policy.maximumAge);
    FitIsLongest(Eligible(entries, policy, month, today), policy.maximumBytes);
  }
}
