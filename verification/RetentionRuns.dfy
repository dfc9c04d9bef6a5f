/** A retention plan carried out by unlinks that may be interrupted anywhere. */
module RetentionRuns {
  import opened Text
  import opened Sorting
  import opened Retention

  /** The files of the backup folder: a snapshot and its receipt for each day, and everything else. */
  datatype Name = Target(day: int) | Receipt(day: int) | Elsewhere(name: string)

  /** What a completion receipt says; `genuine` is a right signature, schema and source database. */
  datatype Proof = Proof(genuine: bool, day: int, snapshot: int, digest: string)

  datatype File = File(bytes: nat, identity: int, proof: Option<Proof>)

  type Folder = map<Name, File>

  /** `_validate_completion_receipt`. */
  predicate IsProven(files: Folder, day: int)
    requires Target(day) in files && Receipt(day) in files
  {
    match files[Receipt(day)].proof
    case None => false
    case Some(p) => p.genuine && p.day == day && p.snapshot == files[Target(day)].identity
  }

  predicate IsManaged(files: Folder, day: int) {
    Target(day) in files && Receipt(day) in files && IsProven(files, day)
  }

  function Entry(files: Folder, day: int): Backup
    requires IsManaged(files, day)
  {
    Backup(day, files[Target(day)].bytes, files[Receipt(day)].proof.value.snapshot, files[Receipt(day)].proof.value.digest)
  }

  // ------------------------------------------------------------------- the managed entries

  function InsertDay(days: seq<int>, day: int): seq<int> {
    if days == [] then [day] else if day < days[0] then [day] + days else [days[0]] + InsertDay(days[1..], day)
  }

  lemma {:induction false} InsertDayIs(days: seq<int>, day: int)
    requires Increasing((a: int, b: int) => a < b, days) && day !in days
    ensures Increasing((a: int, b: int) => a < b, InsertDay(days, day))
    ensures forall d :: d in InsertDay(days, day) <==> d in days || d == day
  {
    if days != [] && day >= days[0] {
      assert days == [days[0]] + days[1..];
      InsertDayIs(days[1..], day);
      var rest := InsertDay(days[1..], day);
      forall k | 0 <= k < |rest|
        ensures days[0] < rest[k]
      {
        assert rest[k] in rest;
      }
    }
  }

  /** The days of some targets in the order of their names. */
  ghost function Ascending(targets: set<Name>): (r: seq<int>)
    requires forall n :: n in targets ==> n.Target?
    ensures forall d :: d in r <==> Target(d) in targets
    ensures Increasing((a: int, b: int) => a < b, r)
  {
    if targets == {} then []
    else
      var n :| n in targets;
      InsertDayIs(Ascending(targets - {n}), n.day);
      InsertDay(Ascending(targets - {n}), n.day)
  }

  function ManagedTargets(files: Folder): (r: set<Name>)
    ensures forall n :: n in r <==> n.Target? && IsManaged(files, n.day)
  {
    set n | n in files && n.Target? && IsManaged(files, n.day)
  }

  function Entries(files: Folder, days: seq<int>): (r: seq<Backup>)
    requires forall d :: d in days ==> IsManaged(files, d)
    ensures |r| == |days| && forall k :: 0 <= k < |days| ==> r[k] == Entry(files, days[k])
  {
    seq(|days|, k requires 0 <= k < |days| => Entry(files, days[k]))
  }

  /** `_managed_backup_entries`: the proven pairs in the order of their names. */
  ghost function Managed(files: Folder): seq<Backup> {
    Entries(files, Ascending(ManagedTargets(files)))
  }

  function Unretained(managed: seq<Backup>, retained: seq<Backup>): (r: seq<Backup>)
    ensures forall e :: e in r <==> e in managed && !exists k :: k in retained && k.day == e.day
  {
    if managed == [] then []
    else (if exists k :: k in retained && k.day == managed[0].day then [] else [managed[0]]) + Unretained(managed[1..], retained)
  }

  /** The pairs a new plan would delete; `None` where the selection is refused. */
  ghost function Candidates(files: Folder, policy: Policy, month: Calendar, today: int): Option<seq<Backup>> {
    var retained :- Retained(Managed(files), policy, month, today);
    Some(Unretained(Managed(files), retained))
  }

  // ----------------------------------------------------------------------- the deletions

  /** A run in progress, with the number of changes it still makes before it stops. */
  datatype Progress = Going(files: Folder, left: nat) | Stopped(files: Folder) | Refused(files: Folder)

  function Unlink(files: Folder, name: Name, left: nat): Progress {
    if left == 0 then Stopped(files) else Going(files - {name}, left - 1)
  }

  function RemoveReceipt(files: Folder, item: Backup, left: nat): Progress {
    if Receipt(item.day) !in files then Going(files, left)
    else if files[Receipt(item.day)].proof.None? || files[Receipt(item.day)].proof.value.digest != item.digest then Refused(files)
    else Unlink(files, Receipt(item.day), left)
  }

  /** The target goes first, on the word of its receipt; then the receipt. */
  function RemovePair(files: Folder, item: Backup, left: nat): Progress {
    if Target(item.day) !in files then RemoveReceipt(files, item, left)
    else if !IsManaged(files, item.day) || Entry(files, item.day).digest != item.digest || Entry(files, item.day).snapshot != item.snapshot
    then Refused(files)
    else match Unlink(files, Target(item.day), left)
      case Going(after, rest) => RemoveReceipt(after, item, rest)
      case stopped => stopped
  }

  function RemoveAll(files: Folder, items: seq<Backup>, left: nat): Progress {
    if items == [] then Going(files, left)
    else match RemoveAll(files, items[..|items| - 1], left)
      case Going(after, rest) => RemovePair(after, items[|items| - 1], rest)
      case ended => ended
  }

  /** A persisted plan; `genuine` is a right digest, schema and source database. */
  datatype Plan = Plan(genuine: bool, policy: Policy, items: seq<Backup>)

  /** `_validated_retention_plan`. */
  predicate IsValidPlan(plan: Plan, policy: Policy) {
    plan.genuine && plan.policy == policy
  }

  datatype Disk = Disk(files: Folder, plan: Option<Plan>)

  /** Carrying out a persisted plan; the plan goes last. */
  function Carry(files: Folder, plan: Plan, left: nat): Disk {
    match RemoveAll(files, plan.items, left)
    case Going(after, rest) => Disk(after, if rest == 0 then Some(plan) else None)
    case Stopped(after) => Disk(after, Some(plan))
    case Refused(after) => Disk(after, Some(plan))
  }

  /** `apply_backup_retention`: the disk after a run that makes at most `left` changes. */
  ghost function Apply(disk: Disk, policy: Policy, month: Calendar, today: int, left: nat): Disk {
    match disk.plan
    case Some(plan) => if IsValidPlan(plan, policy) then Carry(disk.files, plan, left) else disk
    case None =>
      match Candidates(disk.files, policy, month, today)
      case None => disk
      case Some(items) => if items == [] || left == 0 then disk else Carry(disk.files, Plan(true, policy, items), left - 1)
  }

  // --------------------------------------------------------------------------- the loop

  /** `sorted(backup_root.glob(...))`. */
  method SortDays(targets: set<Name>) returns (r: seq<int>)
    requires forall n :: n in targets ==> n.Target?
    ensures r == Ascending(targets)
  {
    hide InsertDay, Ascending;
    r := [];
    var rest := targets;
    while rest != {}
      invariant rest <= targets && forall d :: d in r <==> Target(d) in targets - rest
      invariant Increasing((a: int, b: int) => a < b, r)
      decreases rest
    {
      var n :| n in rest;
      InsertDayIs(r, n.day);
      r, rest := InsertDay(r, n.day), rest - {n};
    }
    forall x: int
      ensures x in r <==> x in Ascending(targets)
    {
      assert x in r <==> Target(x) in targets;
    }
    IncreasingUnique((a: int, b: int) => a < b, r, Ascending(targets));
  }

  class BackupRoot {
    var files: Folder
    var plan: Option<Plan>
    var left: nat

    ghost function State(): Disk
      reads this
    {
      Disk(files, plan)
    }

    constructor (disk: Disk, left: nat)
      ensures State() == disk && this.left == left
    {
      files, plan, this.left := disk.files, disk.plan, left;
    }

    method UnlinkFile(name: Name) returns (alive: bool)
      modifies this
      ensures plan == old(plan)
      ensures match Unlink(old(files), name, old(left))
        case Going(after, rest) => alive && files == after && left == rest
        case Stopped(after) => !alive && files == after
        case Refused(_) => false
    {
      if left == 0 {
        return false;
      }
      left := left - 1;
      files := files - {name};
      return true;
    }

    /** One planned pair, target before receipt. */
    method RemoveOne(item: Backup) returns (ok: bool)
      modifies this
      ensures plan == old(plan)
      ensures match RemovePair(old(files), item, old(left))
        case Going(after, rest) => ok && files == after && left == rest
        case Stopped(after) => !ok && files == after
        case Refused(after) => !ok && files == after
    {
      var target, receipt := Target(item.day), Receipt(item.day);
      if target in files {
        if receipt !in files || !IsProven(files, item.day) {
          return false;
        }
        var proof := files[receipt].proof.value;
        if proof.digest != item.digest || proof.snapshot != item.snapshot {
          return false;
        }
        var alive := UnlinkFile(target);
        if !alive {
          return false;
        }
      }
      if receipt in files {
        if files[receipt].proof.None? || files[receipt].proof.value.digest != item.digest {
          return false;
        }
        var alive := UnlinkFile(receipt);
        if !alive {
          return false;
        }
      }
      return true;
    }

    /** The loop over the persisted plan. */
    method CarryOut(persisted: Plan)
      requires plan == Some(persisted)
      modifies this
      ensures State() == Carry(old(files), persisted, old(left))
    {
      hide RemovePair;
      ghost var start, changes := files, left;
      var items := persisted.items;
      for n := 0 to |items|
        invariant plan == Some(persisted) && RemoveAll(start, items[..n], changes) == Going(files, left)
      {
        assert items[..n + 1][..n] == items[..n];
        var ok := RemoveOne(items[n]);
        if !ok {
          EndedEarly(start, items, changes, n + 1);
          return;
        }
      }
      assert items[..|items|] == items;
      if left == 0 {
        return;
      }
      plan := None;
    }

    /** `apply_backup_retention`. */
    method ApplyBackupRetention(policy: Policy, month: Calendar, today: int)
      modifies this
      ensures State() == Apply(old(State()), policy, month, today, old(left))
    {
      hide Carry, Retained, Ascending;
      if plan.Some? {
        if !IsValidPlan(plan.value, policy) {
          return;
        }
      } else {
        var days := SortDays(ManagedTargets(files));
        var managed := Entries(files, days);
        var retained := RetainedBackups(managed, policy, month, today);
        if retained.None? {
          return;
        }
        var items := Unretained(managed, retained.value);
        if items == [] || left == 0 {
          return;
        }
        plan, left := Some(Plan(true, policy, items)), left - 1;
      }
      CarryOut(plan.value);
    }
  }

  lemma {:induction false} EndedEarly(files: Folder, items: seq<Backup>, left: nat, n: nat)
    requires n <= |items| && !RemoveAll(files, items[..n], left).Going?
    ensures RemoveAll(files, items, left) == RemoveAll(files, items[..n], left)
    decreases |items| - n
  {
    hide RemovePair;
    if n < |items| {
      assert items[..n + 1][..n] == items[..n];
      EndedEarly(files, items, left, n + 1);
    } else {
      assert items[..n] == items;
    }
  }
}
