/** Which daily backups a retention policy keeps. */
module Retention {
  import opened Text
  import opened Sorting

  /** A managed backup; `day` is the number of its date. */
  datatype Backup = Backup(day: int, bytes: nat, snapshot: int, digest: string)

  datatype Policy = Policy(daily: nat, weekly: nat, monthly: nat, maximumSnapshots: nat, maximumBytes: nat, maximumAge: nat) {
    /** What the policy's constructor insists on: the weekly and monthly tiers may be zero. */
    predicate Valid() {
      daily >= 1 && maximumSnapshots >= 1 && maximumBytes >= 1 && maximumAge >= 1
    }
  }

  /** The calendar: the ISO week is a run of seven days; the months are whatever they are. */
  type Calendar = int -> int

  const WEEK: Calendar := day => (day - 1) / 7

  function AgeKey(e: Backup): seq<int> {
    [-e.day]
  }

  /** `sorted(entries, key=day, reverse=True)`. */
  function NewestFirst(entries: seq<Backup>): seq<Backup> {
    SortBy(entries, AgeKey)
  }

  /** `add_unique`: the first backup of each period, until enough periods are seen. */
  function AddUnique(candidates: seq<Backup>, count: nat, period: Calendar, seen: set<int>): (r: seq<Backup>)
    ensures forall e :: e in r ==> e in candidates
  {
    if candidates == [] then []
    else if period(candidates[0].day) in seen then AddUnique(candidates[1..], count, period, seen)
    else if |seen + {period(candidates[0].day)}| >= count then [candidates[0]]
    else [candidates[0]] + AddUnique(candidates[1..], count, period, seen + {period(candidates[0].day)})
  }

  function Without(xs: seq<Backup>, keep: seq<Backup>): (r: seq<Backup>)
    ensures forall e :: e in r <==> e in xs && e !in keep
  {
    if xs == [] then [] else (if xs[0] in keep then [] else [xs[0]]) + Without(xs[1..], keep)
  }

  function Take(xs: seq<Backup>, n: nat): (r: seq<Backup>)
    ensures r <= xs && |r| <= n && (r == xs || |r| == n)
  {
    if n < |xs| then xs[..n] else xs
  }

  /** The three tiers in the order of their importance. */
  function Tiers(entries: seq<Backup>, policy: Policy, month: Calendar): seq<Backup> {
    var ordered := NewestFirst(entries);
    var daily := Take(ordered, policy.daily);
    var weekly := AddUnique(Without(ordered, daily), policy.weekly, WEEK, {});
    var monthly := AddUnique(Without(ordered, daily + weekly), policy.monthly, month, {});
    daily + weekly + monthly
  }

  function InHorizon(xs: seq<Backup>, horizon: int): (r: seq<Backup>)
    ensures forall e :: e in r <==> e in xs && e.day >= horizon
  {
    if xs == [] then [] else (if xs[0].day >= horizon then [xs[0]] else []) + InHorizon(xs[1..], horizon)
  }

  function Total(xs: seq<Backup>): nat {
    if xs == [] then 0 else Total(xs[..|xs| - 1]) + xs[|xs| - 1].bytes
  }

  /** The backups popped from the end until the rest fits; the last one is not given up. */
  function Fit(xs: seq<Backup>, maximum: nat): Option<seq<Backup>> {
    if Total(xs) <= maximum then Some(xs)
    else if |xs| <= 1 then None
    else Fit(xs[..|xs| - 1], maximum)
  }

  /** The tiers that are young enough, no more than the policy's count. */
  function Eligible(entries: seq<Backup>, policy: Policy, month: Calendar, today: int): seq<Backup> {
    Take(InHorizon(Tiers(entries, policy, month), today - policy.maximumAge), policy.maximumSnapshots)
  }

  /** `_retained_backup_names`; `None` is the refusal. */
  function Retained(entries: seq<Backup>, policy: Policy, month: Calendar, today: int): Option<seq<Backup>> {
    Fit(Eligible(entries, policy, month, today), policy.maximumBytes)
  }

  // -------------------------------------------------------------------------- the loops

  method AddUniqueLoop(keep: seq<Backup>, candidates: seq<Backup>, count: nat, period: Calendar) returns (r: seq<Backup>)
    ensures r == keep + AddUnique(candidates, count, period, {})
  {
    r := keep;
    var seen: set<int> := {};
    assert candidates[0..] == candidates;
    for k := 0 to |candidates|
      invariant r + AddUnique(candidates[k..], count, period, seen) == keep + AddUnique(candidates, count, period, {})
    {
      var item := candidates[k];
      assert candidates[k..][0] == item && candidates[k..][1..] == candidates[k + 1..];
      var value := period(item.day);
      if value in seen {
        continue;
      }
      ghost var before := r;
      ghost var rest := AddUnique(candidates[k + 1..], count, period, seen + {value});
      assert before + ([item] + rest) == before + [item] + rest;
      seen := seen + {value};
      r := r + [item];
      if |seen| >= count {
        return;
      }
    }
    assert candidates[|candidates|..] == [];
    assert r + [] == r;
  }

  method RetainedBackups(entries: seq<Backup>, policy: Policy, month: Calendar, today: int) returns (r: Option<seq<Backup>>)
    ensures r == Retained(entries, policy, month, today)
  {
    hide AddUnique, Without, InHorizon, NewestFirst, Total;
    var ordered := NewestFirst(entries);
    var keep := AddUniqueLoop(Take(ordered, policy.daily), Without(ordered, Take(ordered, policy.daily)), policy.weekly, WEEK);
    var remaining := Without(ordered, keep);
    keep := AddUniqueLoop(keep, remaining, policy.monthly, month);
    keep := Take(InHorizon(keep, today - policy.maximumAge), policy.maximumSnapshots);
    ghost var eligible := keep;
    while Total(keep) > policy.maximumBytes
      invariant Fit(keep, policy.maximumBytes) == Fit(eligible, policy.maximumBytes)
      decreases |keep|
    {
      if |keep| <= 1 {
        return None;
      }
      keep := keep[..|keep| - 1];
    }
    return Some(keep);
  }

  // ----------------------------------------------------------------- what fitting does

  lemma {:induction false} TotalGrows(xs: seq<Backup>, n: nat)
    requires n <= |xs|
    ensures Total(xs[..n]) <= Total(xs)
    decreases |xs| - n
  {
    if n < |xs| {
      assert xs[..n + 1][..n] == xs[..n];
      TotalGrows(xs, n + 1);
    } else {
      assert xs[..n] == xs;
    }
  }

  /** What is kept is the longest beginning that fits; it is refused exactly when the first alone does not fit. */
  lemma {:induction false} FitIsLongest(xs: seq<Backup>, maximum: nat)
    ensures Fit(xs, maximum).None? <==> xs != [] && xs[0].bytes > maximum
    ensures Fit(xs, maximum).Some? ==>
      var r := Fit(xs, maximum).value;
      && r <= xs && Total(r) <= maximum && (xs != [] ==> r != [])
      && forall n :: |r| < n <= |xs| ==> Total(xs[..n]) > maximum
    decreases |xs|
  {
    if xs == [] {
      assert Total(xs) == 0;
    } else {
      var last := |xs| - 1;
      FirstIsLeast(xs);
      forall n | 0 <= n <= |xs|
        ensures Total(xs[..n]) <= Total(xs)
        ensures n <= last ==> xs[..last][..n] == xs[..n]
      {
        TotalGrows(xs, n);
      }
      assert xs[..|xs|] == xs;
      if Total(xs) > maximum && last > 0 { FitIsLongest(xs[..last], maximum); }
    }
  }

  lemma FirstIsLeast(xs: seq<Backup>)
    requires xs != []
    ensures xs[0].bytes <= Total(xs) && (|xs| == 1 ==> xs[0].bytes == Total(xs))
  {
    TotalGrows(xs, 1);
    assert xs[..1][..0] == [];
  }

  // ------------------------------------------------------------------ newest and horizon

  ghost predicate DistinctDays(entries: seq<Backup>) {
    forall i, j :: 0 <= i < j < |entries| ==> entries[i].day != entries[j].day
  }

  ghost predicate IsNewest(entries: seq<Backup>, e: Backup) {
    e in entries && forall d :: d in entries ==> d.day <= e.day
  }

  lemma NewestIsFirst(entries: seq<Backup>)
    requires DistinctDays(entries) && entries != []
    ensures NewestFirst(entries) != [] && IsNewest(entries, NewestFirst(entries)[0])
  {
    hide SortBy;
    var ordered := NewestFirst(entries);
    SortByIncreasing(entries, AgeKey);
    forall d | d in entries
      ensures d.day <= ordered[0].day
    {
      assert d in ordered;
      var k :| 0 <= k < |ordered| && ordered[k] == d;
      if k > 0 { assert Less(AgeKey(ordered[0]), AgeKey(ordered[k])); }
    }
    assert ordered[0] in ordered;
  }

  lemma InHorizonStarts(xs: seq<Backup>, horizon: int)
    requires xs != [] && xs[0].day >= horizon
    ensures InHorizon(xs, horizon) != [] && InHorizon(xs, horizon)[0] == xs[0]
  {}

  lemma NoneInHorizon(xs: seq<Backup>, horizon: int)
    requires forall e :: e in xs ==> e.day < horizon
    ensures InHorizon(xs, horizon) == []
  {}

  lemma TiersMembers(entries: seq<Backup>, policy: Policy, month: Calendar)
    ensures forall e :: e in Tiers(entries, policy, month) ==> e in entries
  {
    hide AddUnique, Without, SortBy;
  }

  lemma TiersStart(entries: seq<Backup>, policy: Policy, month: Calendar)
    requires policy.Valid() && NewestFirst(entries) != []
    ensures Tiers(entries, policy, month) != [] && Tiers(entries, policy, month)[0] == NewestFirst(entries)[0]
  {
    hide AddUnique, Without, NewestFirst;
  }

  /**
    The selection obeys the count, byte and age limits and holds the newest backup that is young
    enough; it is refused exactly when that one alone breaks the byte limit.
   */
  lemma RetainedObeysPolicy(entries: seq<Backup>, policy: Policy, month: Calendar, today: int)
    requires policy.Valid() && DistinctDays(entries)
    ensures var horizon, r := today - policy.maximumAge, Retained(entries, policy, month, today);
      && (r.None? <==> exists e :: IsNewest(entries, e) && e.day >= horizon && e.bytes > policy.maximumBytes)
      && (r.Some? ==>
           && |r.value| <= policy.maximumSnapshots && Total(r.value) <= policy.maximumBytes
           && (forall e :: e in r.value ==> e in entries && e.day >= horizon)
           && (forall e :: IsNewest(entries, e) && e.day >= horizon ==> e in r.value))
  {
    hide Tiers, InHorizon, Total, NewestFirst, Fit;
    var horizon := today - policy.maximumAge;
    var tiers := Tiers(entries, policy, month);
    var young, eligible := InHorizon(tiers, horizon), Eligible(entries, policy, month, today);
    TiersMembers(entries, policy, month);
    FitIsLongest(eligible, policy.maximumBytes);
    if entries == [] {
      NoneInHorizon(tiers, horizon);
    } else {
      NewestIsFirst(entries);
      TiersStart(entries, policy, month);
      var newest := tiers[0];
      OneNewest(entries, newest);
      if newest.day >= horizon {
        InHorizonStarts(tiers, horizon);
        assert eligible != [] && eligible[0] == newest;
      } else {
        NoneInHorizon(tiers, horizon);
      }
    }
  }

  lemma OneNewest(entries: seq<Backup>, newest: Backup)
    requires DistinctDays(entries) && IsNewest(entries, newest)
    ensures forall e :: IsNewest(entries, e) ==> e == newest
  {
    forall e | IsNewest(entries, e)
      ensures e == newest
    {
      var i :| 0 <= i < |entries| && entries[i] == e;
      var j :| 0 <= j < |entries| && entries[j] == newest;
      assert i == j;
    }
  }

  // -------------------------------------------------------------------------- the tiers

  /** The periods of some backups. */
  function Periods(xs: seq<Backup>, period: Calendar): set<int> {
    set e | e in xs :: period(e.day)
  }

  ghost predicate DifferentPeriods(xs: seq<Backup>, period: Calendar) {
    forall i, j :: 0 <= i < j < |xs| ==> period(xs[i].day) != period(xs[j].day)
  }

  ghost predicate AvoidsPeriods(xs: seq<Backup>, period: Calendar, seen: set<int>) {
    forall i :: 0 <= i < |xs| ==> period(xs[i].day) !in seen
  }

  /** A tier takes no two backups of one period. */
  lemma {:induction false} AddUniqueDiffer(xs: seq<Backup>, count: nat, period: Calendar, seen: set<int>)
    ensures DifferentPeriods(AddUnique(xs, count, period, seen), period)
    ensures AvoidsPeriods(AddUnique(xs, count, period, seen), period, seen)
  {
    hide DifferentPeriods, AvoidsPeriods;
    if xs == [] {
      OnePeriod([], period, seen);
    } else {
      var p := period(xs[0].day);
      if p in seen {
        AddUniqueDiffer(xs[1..], count, period, seen);
      } else if |seen + {p}| >= count {
        OnePeriod([xs[0]], period, seen);
      } else {
        AddUniqueDiffer(xs[1..], count, period, seen + {p});
        MorePeriods(xs[0], AddUnique(xs[1..], count, period, seen + {p}), period, seen);
      }
    }
  }

  lemma OnePeriod(xs: seq<Backup>, period: Calendar, seen: set<int>)
    requires |xs| <= 1 && forall e :: e in xs ==> period(e.day) !in seen
    ensures DifferentPeriods(xs, period) && AvoidsPeriods(xs, period, seen)
  {}

  lemma MorePeriods(e: Backup, xs: seq<Backup>, period: Calendar, seen: set<int>)
    requires period(e.day) !in seen && DifferentPeriods(xs, period) && AvoidsPeriods(xs, period, seen + {period(e.day)})
    ensures DifferentPeriods([e] + xs, period) && AvoidsPeriods([e] + xs, period, seen)
  {
    var all := [e] + xs;
    forall j | 1 <= j < |all|
      ensures period(all[j].day) != period(e.day) && period(all[j].day) !in seen
    {
      assert all[j] == xs[j - 1];
    }
    forall i, j | 0 <= i < j < |all|
      ensures period(all[i].day) != period(all[j].day)
    {
      if i > 0 { assert all[i] == xs[i - 1] && all[j] == xs[j - 1]; }
    }
  }

  lemma PeriodsStep(xs: seq<Backup>, period: Calendar)
    requires xs != []
    ensures Periods(xs, period) == Periods(xs[1..], period) + {period(xs[0].day)}
  {
    assert xs == [xs[0]] + xs[1..];
  }

  function AtLeastOne(count: nat): nat {
    if count == 0 then 1 else count
  }

  function Limited(all: nat, count: nat): nat {
    if all < AtLeastOne(count) then all else AtLeastOne(count)
  }

  /** A tier takes one backup of each of the first periods, as many as asked for but at least one. */
  lemma {:induction false} AddUniqueIs(xs: seq<Backup>, count: nat, period: Calendar, seen: set<int>)
    requires seen == {} || |seen| < count
    ensures |AddUnique(xs, count, period, seen)| + |seen| == Limited(|Periods(xs, period) + seen|, count)
  {
    hide Periods, Limited, AddUnique;
    AddUniqueStep(xs, count, period, seen);
    if xs == [] {
      NoPeriods(period);
      assert {} + seen == seen;
      NotMore(seen, count);
    } else {
      var p := period(xs[0].day);
      var later := Periods(xs[1..], period);
      PeriodsStep(xs, period);
      Regrouped(later, p, seen);
      if p in seen {
        AddUniqueIs(xs[1..], count, period, seen);
      } else if |seen + {p}| >= count {
        Enough(seen, p, later + (seen + {p}), count);
      } else {
        AddUniqueIs(xs[1..], count, period, seen + {p});
      }
    }
  }

  lemma AddUniqueStep(xs: seq<Backup>, count: nat, period: Calendar, seen: set<int>)
    ensures |AddUnique(xs, count, period, seen)|
         == if xs == [] then 0
            else if period(xs[0].day) in seen then |AddUnique(xs[1..], count, period, seen)|
            else if |seen + {period(xs[0].day)}| >= count then 1
            else 1 + |AddUnique(xs[1..], count, period, seen + {period(xs[0].day)})|
  {}

  lemma Regrouped(later: set<int>, p: int, seen: set<int>)
    ensures later + {p} + seen == later + (seen + {p})
    ensures if p in seen then seen + {p} == seen else |seen + {p}| == |seen| + 1
  {}

  lemma NotMore(seen: set<int>, count: nat)
    requires seen == {} || |seen| < count
    ensures Limited(|seen|, count) == |seen|
  {}

  lemma Enough(seen: set<int>, p: int, all: set<int>, count: nat)
    requires (seen == {} || |seen| < count) && p !in seen && seen + {p} <= all && |seen + {p}| >= count
    ensures Limited(|all|, count) == |seen| + 1
  {
    Subset(seen + {p}, all);
  }

  lemma NoPeriods(period: Calendar)
    ensures Periods([], period) == {}
  {}

  lemma Subset(a: set<int>, b: set<int>)
    requires a <= b
    ensures |a| <= |b|
  {
    assert b == a + (b - a);
  }

  /** A tier takes no more than its count exactly when the count is positive or there is nothing to take. */
  lemma TierKeepsItsCount(xs: seq<Backup>, count: nat, period: Calendar)
    ensures |AddUnique(xs, count, period, {})| <= count <==> count > 0 || xs == []
  {
    AddUniqueIs(xs, count, period, {});
    if xs != [] {
      assert xs[0] in xs && period(xs[0].day) in Periods(xs, period);
      assert Periods(xs, period) + {} != {};
    }
  }

  /** A backup taken by a tier is the first of its period: the newest, as the candidates come newest first. */
  lemma {:induction false} AddUniqueTakesFirst(xs: seq<Backup>, count: nat, period: Calendar, seen: set<int>, k: nat)
    requires k < |xs| && xs[k] in AddUnique(xs, count, period, seen) && xs[k] !in xs[..k]
    ensures period(xs[k].day) !in seen && forall j :: 0 <= j < k ==> period(xs[j].day) != period(xs[k].day)
  {
    AddUniqueDiffer(xs, count, period, seen);
    var r := AddUnique(xs, count, period, seen);
    var i :| 0 <= i < |r| && r[i] == xs[k];
    assert period(r[i].day) !in seen;
    if k > 0 {
      assert xs[..k] == [xs[0]] + xs[1..][..k - 1];
      var p := period(xs[0].day);
      var later := if p in seen then seen else seen + {p};
      assert xs[k] in AddUnique(xs[1..], count, period, later);
      AddUniqueTakesFirst(xs[1..], count, period, later, k - 1);
      forall j | 0 <= j < k
        ensures period(xs[j].day) != period(xs[k].day)
      {
        if j > 0 { assert xs[j] == xs[1..][j - 1]; }
      }
    }
  }

  /** With positive tiers no more is kept than they ask for together. */
  lemma TiersKeepTheirCounts(entries: seq<Backup>, policy: Policy, month: Calendar)
    requires policy.weekly > 0 && policy.monthly > 0
    ensures |Tiers(entries, policy, month)| <= policy.daily + policy.weekly + policy.monthly
  {
    hide AddUnique, Without, NewestFirst;
    var ordered := NewestFirst(entries);
    var daily := Take(ordered, policy.daily);
    var weekly := AddUnique(Without(ordered, daily), policy.weekly, WEEK, {});
    TierKeepsItsCount(Without(ordered, daily), policy.weekly, WEEK);
    TierKeepsItsCount(Without(ordered, daily + weekly), policy.monthly, month);
  }
}
