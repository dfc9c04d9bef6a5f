/** Interrupted retention runs remove exactly what was planned, and nothing that does not prove itself. */
module RetentionRecovery {
  import opened Text
  import opened Sorting
  import opened Retention
  import opened RetentionRuns

  predicate SameAt(before: Folder, after: Folder, name: Name) {
    (name in before <==> name in after) && (name in before ==> before[name] == after[name])
  }

  predicate IsPlanned(items: seq<Backup>, name: Name) {
    exists item :: item in items && (name == Target(item.day) || name == Receipt(item.day))
  }

  /** A plan made for a folder: its items are the managed pairs of some days. */
  ghost predicate PlannedFor(files: Folder, items: seq<Backup>) {
    forall item :: item in items ==> IsManaged(files, item.day) && Entry(files, item.day) == item
  }

  /** The folder without the planned pairs. */
  function Remaining(files: Folder, items: seq<Backup>): Folder {
    map name | name in files && !IsPlanned(items, name) :: files[name]
  }

  /** Planned pairs are whole, or have lost the target, or are gone; nothing else has changed. */
  ghost predicate Underway(files0: Folder, items: seq<Backup>, files: Folder) {
    && (forall name :: !IsPlanned(items, name) ==> SameAt(files0, files, name))
    && (forall item :: item in items ==>
          && (Target(item.day) in files ==> SameAt(files0, files, Target(item.day)) && SameAt(files0, files, Receipt(item.day)))
          && (Receipt(item.day) in files ==> SameAt(files0, files, Receipt(item.day))))
  }

  ghost predicate AreGone(items: seq<Backup>, files: Folder) {
    forall item :: item in items ==> Target(item.day) !in files && Receipt(item.day) !in files
  }

  predicate Shrinks(before: Folder, after: Folder) {
    forall name :: name in after ==> name in before && before[name] == after[name]
  }

  /** How many changes are left after a pair is gone. */
  ghost predicate Continues(files0: Folder, items: seq<Backup>, files: Folder, gone: seq<Backup>, left: nat, needed: nat, p: Progress) {
    && !p.Refused?
    && Underway(files0, items, p.files) && Shrinks(files, p.files)
    && (p.Going? ==> AreGone(gone, p.files) && p.left <= left <= p.left + needed)
    && (left >= needed ==> p.Going?)
  }

  lemma PairContinues(files0: Folder, items: seq<Backup>, files: Folder, item: Backup, left: nat)
    requires PlannedFor(files0, items) && Underway(files0, items, files) && item in items
    ensures Continues(files0, items, files, [item], left, 2, RemovePair(files, item, left))
  {
    assert IsManaged(files0, item.day) && Entry(files0, item.day) == item;
    if Target(item.day) in files {
      assert IsManaged(files, item.day) && Entry(files, item.day) == item;
      UnlinkKeeps(files0, items, files, item, Target(item.day));
      if left > 0 {
        ReceiptContinues(files0, items, files - {Target(item.day)}, item, left - 1);
      }
    } else {
      ReceiptContinues(files0, items, files, item, left);
    }
  }

  lemma UnlinkKeeps(files0: Folder, items: seq<Backup>, files: Folder, item: Backup, name: Name)
    requires Underway(files0, items, files) && item in items
    requires name == Target(item.day) || (name == Receipt(item.day) && Target(item.day) !in files)
    ensures Underway(files0, items, files - {name}) && Shrinks(files, files - {name})
  {
    assert IsPlanned(items, name);
  }

  lemma ReceiptContinues(files0: Folder, items: seq<Backup>, files: Folder, item: Backup, left: nat)
    requires PlannedFor(files0, items) && Underway(files0, items, files) && item in items && Target(item.day) !in files
    ensures Continues(files0, items, files, [item], left, 1, RemoveReceipt(files, item, left))
  {
    assert IsManaged(files0, item.day) && Entry(files0, item.day) == item;
    if Receipt(item.day) in files {
      assert SameAt(files0, files, Receipt(item.day));
      UnlinkKeeps(files0, items, files, item, Receipt(item.day));
    }
  }

  lemma ContinuesOn(files0: Folder, items: seq<Backup>, files: Folder, a: seq<Backup>, b: seq<Backup>, left: nat, x: nat, y: nat, p: Progress, q: Progress)
    requires Continues(files0, items, files, a, left, x, p) && p.Going? && Continues(files0, items, p.files, b, p.left, y, q)
    ensures Continues(files0, items, files, a + b, left, x + y, q)
  {
    hide Underway;
  }

  lemma {:induction false} AllContinue(files0: Folder, items: seq<Backup>, files: Folder, n: nat, left: nat)
    requires PlannedFor(files0, items) && Underway(files0, items, files) && n <= |items|
    ensures Continues(files0, items, files, items[..n], left, 2 * n, RemoveAll(files, items[..n], left))
    decreases n
  {
    hide RemovePair, Underway, PlannedFor, Continues, RemoveAll;
    RemoveAllStep(files, items, n, left);
    if n == 0 {
      NothingToRemove(files0, items, files, left);
    } else {
      AllContinue(files0, items, files, n - 1, left);
      var before := RemoveAll(files, items[..n - 1], left);
      if before.Going? {
        IsUnderway(files0, items, files, items[..n - 1], left, 2 * (n - 1), before);
        PairContinues(files0, items, before.files, items[n - 1], before.left);
        assert items[..n] == items[..n - 1] + [items[n - 1]];
        ContinuesOn(files0, items, files, items[..n - 1], [items[n - 1]], left, 2 * (n - 1), 2, before, RemoveAll(files, items[..n], left));
      } else {
        StoppedAlready(files0, items, files, items[..n - 1], items[..n], left, 2 * (n - 1), 2 * n, before);
      }
    }
  }

  lemma IsUnderway(files0: Folder, items: seq<Backup>, files: Folder, gone: seq<Backup>, left: nat, needed: nat, p: Progress)
    requires Continues(files0, items, files, gone, left, needed, p)
    ensures Underway(files0, items, p.files)
  {
    hide Underway;
  }

  lemma StoppedAlready(files0: Folder, items: seq<Backup>, files: Folder, a: seq<Backup>, b: seq<Backup>, left: nat, x: nat, y: nat, p: Progress)
    requires Continues(files0, items, files, a, left, x, p) && !p.Going? && x <= y
    ensures Continues(files0, items, files, b, left, y, p)
  {
    hide Underway;
  }

  lemma NothingToRemove(files0: Folder, items: seq<Backup>, files: Folder, left: nat)
    requires Underway(files0, items, files)
    ensures Continues(files0, items, files, items[..0], left, 0, Going(files, left))
  {
    hide Underway;
  }

  function RemoveNext(p: Progress, item: Backup): Progress {
    match p case Going(after, rest) => RemovePair(after, item, rest) case ended => ended
  }

  lemma RemoveAllStep(files: Folder, items: seq<Backup>, n: nat, left: nat)
    requires n <= |items|
    ensures n == 0 ==> RemoveAll(files, items[..n], left) == Going(files, left)
    ensures n > 0 ==> RemoveAll(files, items[..n], left) == RemoveNext(RemoveAll(files, items[..n - 1], left), items[n - 1])
  {
    hide RemovePair;
    if n > 0 { assert items[..n][..n - 1] == items[..n - 1]; }
  }

  lemma GoneIsRemaining(files0: Folder, items: seq<Backup>, files: Folder)
    requires Underway(files0, items, files) && AreGone(items, files)
    ensures files == Remaining(files0, items)
  {
    var rest := Remaining(files0, items);
    forall name: Name
      ensures name in files <==> name in rest
      ensures name in files ==> files[name] == rest[name]
    {
      if IsPlanned(items, name) {
        var item :| item in items && (name == Target(item.day) || name == Receipt(item.day));
        assert name !in files && name !in rest;
      } else {
        assert SameAt(files0, files, name);
      }
    }
    assert files == rest;
  }

  /** Carrying out a plan, stopped anywhere, leaves it underway or done; with changes enough it is done. */
  lemma CarryResumes(files0: Folder, plan: Plan, files: Folder, left: nat)
    requires PlannedFor(files0, plan.items) && Underway(files0, plan.items, files)
    ensures var d := Carry(files, plan, left);
      (d.plan == Some(plan) && Underway(files0, plan.items, d.files)) || d == Disk(Remaining(files0, plan.items), None)
    ensures left > 2 * |plan.items| ==> Carry(files, plan, left) == Disk(Remaining(files0, plan.items), None)
  {
    hide Underway, RemoveAll, PlannedFor, Shrinks, AreGone, Remaining;
    var items := plan.items;
    AllContinue(files0, items, files, |items|, left);
    assert items[..|items|] == items;
    var p := RemoveAll(files, items, left);
    if p.Going? { GoneIsRemaining(files0, items, p.files); }
  }

  datatype Attempt = Attempt(policy: Policy, today: int, left: nat)

  /** Runs at different times under policies of their own, each stopped after some changes, until the plan is carried out. */
  ghost function Resume(disk: Disk, month: Calendar, attempts: seq<Attempt>): Disk
    decreases |attempts|
  {
    if attempts == [] || disk.plan.None? then disk
    else Resume(Apply(disk, attempts[0].policy, month, attempts[0].today, attempts[0].left), month, attempts[1..])
  }

  /** Some run is made under the plan's policy and given the time it needs. */
  ghost predicate HasTime(plan: Plan, attempts: seq<Attempt>) {
    exists k :: 0 <= k < |attempts| && attempts[k].policy == plan.policy && attempts[k].left > 2 * |plan.items|
  }

  lemma {:induction false} ResumeContinues(files0: Folder, plan: Plan, files: Folder, month: Calendar, attempts: seq<Attempt>)
    requires plan.genuine && PlannedFor(files0, plan.items) && Underway(files0, plan.items, files)
    ensures var d := Resume(Disk(files, Some(plan)), month, attempts);
      (d.plan == Some(plan) && Underway(files0, plan.items, d.files)) || d == Disk(Remaining(files0, plan.items), None)
    ensures HasTime(plan, attempts) ==> Resume(Disk(files, Some(plan)), month, attempts) == Disk(Remaining(files0, plan.items), None)
    decreases |attempts|
  {
    hide Underway, PlannedFor, Carry, Candidates, Remaining;
    if attempts != [] {
      var d := Apply(Disk(files, Some(plan)), attempts[0].policy, month, attempts[0].today, attempts[0].left);
      if attempts[0].policy == plan.policy { CarryResumes(files0, plan, files, attempts[0].left); }
      if d.plan.Some? {
        ResumeContinues(files0, plan, d.files, month, attempts[1..]);
        if HasTime(plan, attempts) {
          var k :| 0 <= k < |attempts| && attempts[k].policy == plan.policy && attempts[k].left > 2 * |plan.items|;
          assert k > 0 && attempts[1..][k - 1] == attempts[k];
        }
      }
    }
  }

  lemma EntriesArePlannable(files: Folder, days: seq<int>)
    requires forall d :: d in days ==> IsManaged(files, d)
    ensures PlannedFor(files, Entries(files, days))
  {
    forall item | item in Entries(files, days)
      ensures IsManaged(files, item.day) && Entry(files, item.day) == item
    {
      var k :| 0 <= k < |days| && Entries(files, days)[k] == item;
      assert days[k] in days;
    }
  }

  lemma CandidatesAreManaged(files: Folder, policy: Policy, month: Calendar, today: int)
    requires Candidates(files, policy, month, today).Some?
    ensures PlannedFor(files, Candidates(files, policy, month, today).value)
  {
    hide Retained, Ascending, Unretained, Entry, IsManaged;
    EntriesArePlannable(files, Ascending(ManagedTargets(files)));
  }

  /**
    Once a run has persisted its plan, however often it and the runs after it are interrupted, only
    planned pairs have changed, each from its target on; runs under another policy change nothing; and
    when one run under the plan's policy is given the time it needs, exactly the planned pairs are gone
    and every other file is as it was.
   */
  lemma PlanIsCarriedOut(files: Folder, policy: Policy, month: Calendar, today: int, left: nat, attempts: seq<Attempt>)
    requires var c := Candidates(files, policy, month, today); c.Some? && c.value != [] && left > 0
    ensures var plan := Plan(true, policy, Candidates(files, policy, month, today).value);
      var d := Resume(Apply(Disk(files, None), policy, month, today, left), month, attempts);
      && ((d.plan == Some(plan) && Underway(files, plan.items, d.files)) || d == Disk(Remaining(files, plan.items), None))
      && (HasTime(plan, attempts) ==> d == Disk(Remaining(files, plan.items), None))
  {
    hide Underway, PlannedFor, Carry, Candidates, Resume, Remaining, HasTime;
    var plan := Plan(true, policy, Candidates(files, policy, month, today).value);
    CandidatesAreManaged(files, policy, month, today);
    StartsUnderway(files, plan.items);
    CarryResumes(files, plan, files, left - 1);
    var d := Carry(files, plan, left - 1);
    if d.plan.Some? {
      ResumeContinues(files, plan, d.files, month, attempts);
    } else {
      DoneStays(d, month, attempts);
    }
  }

  lemma StartsUnderway(files: Folder, items: seq<Backup>)
    ensures Underway(files, items, files)
  {}

  lemma DoneStays(disk: Disk, month: Calendar, attempts: seq<Attempt>)
    requires disk.plan.None?
    ensures Resume(disk, month, attempts) == disk
  {}

  lemma IncreasingDiffer(days: seq<int>)
    requires Increasing((a: int, b: int) => a < b, days)
    ensures forall i, j :: 0 <= i < j < |days| ==> days[i] < days[j]
  {}

  lemma ManagedIs(files: Folder)
    ensures DistinctDays(Managed(files))
    ensures forall day :: IsManaged(files, day) <==> exists e :: e in Managed(files) && e.day == day
  {
    hide Ascending, IsManaged;
    var days := Ascending(ManagedTargets(files));
    IncreasingDiffer(days);
    forall day
      ensures IsManaged(files, day) <==> exists e :: e in Managed(files) && e.day == day
    {
      if IsManaged(files, day) {
        assert Target(day) in ManagedTargets(files);
        assert day in days;
        var k :| 0 <= k < |days| && days[k] == day;
        assert Managed(files)[k] in Managed(files) && Managed(files)[k].day == day;
      }
      if e :| e in Managed(files) && e.day == day {
        var k :| 0 <= k < |days| && Managed(files)[k] == e;
        assert days[k] in days;
      }
    }
  }

  predicate HasDay(items: seq<Backup>, day: int) {
    exists e :: e in items && e.day == day
  }

  lemma RemainingManaged(files: Folder, items: seq<Backup>, day: int)
    ensures IsManaged(Remaining(files, items), day) <==> IsManaged(files, day) && !HasDay(items, day)
  {
    assert IsPlanned(items, Target(day)) <==> HasDay(items, day);
    assert IsPlanned(items, Receipt(day)) <==> HasDay(items, day);
  }

  lemma UnretainedDays(managed: seq<Backup>, retained: seq<Backup>, day: int)
    ensures HasDay(Unretained(managed, retained), day) <==> HasDay(managed, day) && !HasDay(retained, day)
  {}

  /** After a plan is carried out the managed pairs are exactly the retained ones. */
  lemma RetainedRemain(files: Folder, policy: Policy, month: Calendar, today: int, day: int)
    requires policy.Valid() && Candidates(files, policy, month, today).Some?
    ensures IsManaged(Remaining(files, Candidates(files, policy, month, today).value), day)
      <==> HasDay(Retained(Managed(files), policy, month, today).value, day)
  {
    hide Managed, Retained, Unretained, Remaining, IsManaged;
    var managed := Managed(files);
    var retained := Retained(managed, policy, month, today).value;
    ManagedIs(files);
    RetainedObeysPolicy(managed, policy, month, today);
    RemainingManaged(files, Candidates(files, policy, month, today).value, day);
    UnretainedDays(managed, retained, day);
  }

  /**
    Whatever else happens in the folder between runs: a run removes a snapshot only if its own receipt
    proves it to be the planned one, and a receipt only if it is the planned one.
   */
  lemma RunRemovesOnlyProven(files: Folder, plan: Plan, left: nat)
    ensures Shrinks(files, Carry(files, plan, left).files)
    ensures forall name :: name in files && name !in Carry(files, plan, left).files ==> MayGo(files, plan.items, name)
  {
    hide RemoveAll;
    AllMayGo(files, plan.items, left);
  }

  ghost predicate MayGo(files: Folder, items: seq<Backup>, name: Name) {
    exists item :: item in items && IsProofFor(files, item, name)
  }

  /** The word that a name may go on: a snapshot's receipt that is genuine, of its day and of this very file, as planned; the planned receipt. */
  predicate IsProofFor(files: Folder, item: Backup, name: Name) {
    || (name == Target(item.day) && Target(item.day) in files && Receipt(item.day) in files && files[Receipt(item.day)].proof.Some?
        && var p := files[Receipt(item.day)].proof.value;
           p.genuine && p.day == item.day && p.snapshot == files[Target(item.day)].identity == item.snapshot && p.digest == item.digest)
    || (name == Receipt(item.day) && name in files && files[name].proof.Some? && files[name].proof.value.digest == item.digest)
  }

  lemma {:induction false} AllMayGo(files: Folder, items: seq<Backup>, left: nat)
    ensures Shrinks(files, RemoveAll(files, items, left).files)
    ensures forall name :: name in files && name !in RemoveAll(files, items, left).files ==> MayGo(files, items, name)
  {
    hide RemovePair;
    if items != [] {
      var n := |items| - 1;
      assert items == items[..n] + [items[n]];
      AllMayGo(files, items[..n], left);
      var before := RemoveAll(files, items[..n], left);
      if before.Going? { PairMayGo(files, before.files, items, items[n], before.left); }
    }
  }

  lemma PairMayGo(files0: Folder, files: Folder, items: seq<Backup>, item: Backup, left: nat)
    requires Shrinks(files0, files) && item in items
    ensures Shrinks(files, RemovePair(files, item, left).files)
    ensures forall name :: name in files && name !in RemovePair(files, item, left).files ==> MayGo(files0, items, name)
  {
    if Target(item.day) in files && IsManaged(files, item.day) {
      assert IsManaged(files0, item.day);
    }
  }
}
