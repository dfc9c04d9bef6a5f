/** From capture to replay: whatever happened on the way, a recorded plan is the builder's, and replaying it serves the builder's batches. */
module CaptureReplay {
  import opened Text
  import opened Projection
  import opened Planner
  import opened Scan
  import opened Plan
  import opened PlanReader
  import opened Replay
  import opened Capture
  import opened CaptureRuns
  import opened CaptureSource
  import opened CaptureProgress

  // ------------------------------------------------------------------------- opening a plan

  /** `open_plan_reader`: a complete capture, whose plan is bound to what the manifest holds now. */
  ghost function PlanReaderOf(w: World): Option<Reader> {
    match Read(w)
    case None => None
    case Some(m) =>
      if m.phase.SourceComplete? && m.plan.Some? && m.plan.value.inputs == InputsOf(m)
         && Admitted(StoredOf(m.parts), m.itemCount, m.plan.value.planned)
      then Some(ReaderOf(m.plan.value.planned)) else None
  }

  /** `open_replay_generation`. */
  ghost function ReplayOf(rt: Runtime, w: World, windowStart: string, watermark: string, now: int, maximumBatches: int): Option<Reader> {
    match Read(w)
    case None => None
    case Some(m) =>
      if m.planInProgress || m.planFailed || now < m.retryNotBefore then None
      else
        var reader :- PlanReaderOf(w);
        if Replayable(rt, StoredOf(m.parts), m.itemCount, m.withdrawalCount, m.plan.value.planned, windowStart, watermark, maximumBatches)
        then Some(reader) else None
  }

  // ------------------------------------------------------------ what a recorded plan is

  /** The plan of these rows, retained in these parts. */
  ghost function ExpectedPlan(rt: Runtime, q: Request, rows: seq<SourceRow>, parts: seq<Part>): Option<Planned>
    requires CaptureSource.Count(parts, |parts|) == |rows|
  {
    Expected(rt, Plan.Count(rt, LocateAll(rt, StoredOf(parts), ChunksOf(rt, rows, parts))), Assemble(rt, q))
  }

  /** A plan on record is finished, bound to the manifest it stands in, and the plan of the rows. */
  ghost predicate HoldsTruePlan(rt: Runtime, q: Request, rows: seq<SourceRow>, m: Capture.Manifest) {
    m.plan.Some? ==>
      && m.phase.SourceComplete? && !m.planInProgress && !m.planFailed && m.plan.value.inputs == InputsOf(m)
      && CaptureSource.Count(m.parts, |m.parts|) == |rows|
      && ExpectedPlan(rt, q, rows, m.parts) == Some(m.plan.value.planned)
  }

  ghost predicate PlanIsTrue(rt: Runtime, q: Request, rows: seq<SourceRow>, w: World) {
    w.manifest.Some? ==> HoldsTruePlan(rt, q, rows, w.manifest.value)
  }

  /**
    A plan the hash passes yield is what planning these parts yields; they may also fail for any reason of
    their own. `CaptureOwner.NewsProjectionSourceCapture.FinalizePlan` meets this.
   */
  ghost predicate HashesTruly(rt: Runtime, q: Request, rows: seq<SourceRow>, w: World, call: PlanCall) {
    Hashes(w, call) && call.hashed.Some? ==>
      var parts := Read(w).value.parts;
      CaptureSource.Count(parts, |parts|) == |rows| && call.hashed == ExpectedPlan(rt, q, rows, parts)
  }

  lemma RecoverKeepsPlan(rt: Runtime, q: Request, rows: seq<SourceRow>, w: World, now: int, f: Fault)
    requires PlanIsTrue(rt, q, rows, w)
    ensures PlanIsTrue(rt, q, rows, Recover(w, now, f).w)
  {
    hide Accepted, ExpectedPlan, CaptureSource.Count;
  }

  lemma FinishKeepsPlan(rt: Runtime, q: Request, rows: seq<SourceRow>, w: World, m: Capture.Manifest, now: int, f: Fault, recover: Fault, done: Outcome)
    requires PlanIsTrue(rt, q, rows, w) && HoldsTruePlan(rt, q, rows, m)
    ensures PlanIsTrue(rt, q, rows, Finish(w, m, now, f, recover, done).w)
  {
    hide HoldsTruePlan, Recover;
    RecoverKeepsPlan(rt, q, rows, Saved(w, m, f), now, recover);
  }

  lemma AdvanceKeepsPlan(rt: Runtime, q: Request, rows: seq<SourceRow>, w: World, call: AdvanceCall)
    requires PlanIsTrue(rt, q, rows, w)
    ensures PlanIsTrue(rt, q, rows, Advance(rt.sha, w, call).w)
  {
    hide Accepted, ExpectedPlan, CaptureSource.Count, Recover, AdvanceOpen;
    if Read(w).Some? && Read(w).value.phase.Building? {
      var m := Read(w).value;
      var v := Saved(w, m, call.first);
      RecoverKeepsPlan(rt, q, rows, v, call.now, call.recover);
      OpenKeepsPlan(rt, q, rows, w, m, call);
      OpenKeepsPlan(rt, q, rows, v, m, call);
    }
  }

  lemma OpenKeepsPlan(rt: Runtime, q: Request, rows: seq<SourceRow>, w: World, m: Capture.Manifest, call: AdvanceCall)
    requires PlanIsTrue(rt, q, rows, w) && m.plan.None?
    ensures PlanIsTrue(rt, q, rows, AdvanceOpen(rt.sha, w, m, call).w)
  {
    hide PlanIsTrue, Recover, Finish, Extended, PartWritten, CollectPage;
    FinishKeepsPlan(rt, q, rows, w, Failing(m, call.now), call.now, call.second, call.recover, Raised);
    if call.fetch.Some? {
      CollectIsSound(m.canonicalBytes, call.fetch.value, Gathered([], m.cursor, 0, 0));
      CollectedIs(m, call.fetch.value);
      var c := CollectPage(m, call.fetch);
      if c.Collected? { CollectedKeepsPlan(rt, q, rows, w, m, c.g, c.complete, call); }
    }
  }

  lemma CollectedIs(m: Capture.Manifest, page: Page)
    ensures CollectPage(m, Some(page)) == Collect(m.canonicalBytes, page, Gathered([], m.cursor, 0, 0))
  {}

  lemma CollectedKeepsPlan(rt: Runtime, q: Request, rows: seq<SourceRow>, w: World, m: Capture.Manifest, g: Gathered, complete: bool, call: AdvanceCall)
    requires PlanIsTrue(rt, q, rows, w) && m.plan.None? && g.withdrawals <= g.taken && (g.taken > 0 ==> g.cursor.Some?)
    ensures PlanIsTrue(rt, q, rows, AdvanceCollected(rt.sha, w, m, Collected(g, complete), call).w)
  {
    hide Recover, Finish, PartName;
    var n := Extended(rt.sha, m, g, complete);
    var v := PartWritten(w, PartName(|m.parts|, rt.sha(g.content)), g.content, call.second);
    FinishKeepsPlan(rt, q, rows, w, n, call.now, call.third, call.recover, Returned(n));
    FinishKeepsPlan(rt, q, rows, v, n, call.now, call.third, call.recover, Returned(n));
    RecoverKeepsPlan(rt, q, rows, v, call.now, call.recover);
  }

  lemma DeriveKeepsPlan(rt: Runtime, q: Request, rows: seq<SourceRow>, w: World, call: DeriveCall)
    requires PlanIsTrue(rt, q, rows, w)
    ensures PlanIsTrue(rt, q, rows, Derive(w, call).w)
  {
    hide Accepted, ExpectedPlan, CaptureSource.Count, Finish;
    if Read(w).Some? && Read(w).value.plan.None? {
      var n := Read(w).value.(derived := true, segment := Some(NewSegment(Read(w).value, call)));
      FinishKeepsPlan(rt, q, rows, w, n, call.now, call.save, call.recover, Returned(n));
    }
  }

  lemma FinalizeKeepsPlan(rt: Runtime, q: Request, rows: seq<SourceRow>, w: World, call: PlanCall)
    requires PlanIsTrue(rt, q, rows, w) && HashesTruly(rt, q, rows, w, call)
    ensures PlanIsTrue(rt, q, rows, Finalize(w, call).w)
  {
    hide Accepted, ExpectedPlan, CaptureSource.Count, Finish, Recover;
    if Read(w).Some? && StartsPlanning(Read(w).value, call.now) {
      var m := Read(w).value;
      var started := m.(planInProgress := true);
      var v := Saved(w, started, call.start);
      RecoverKeepsPlan(rt, q, rows, v, call.now, call.recover);
      if StatusOf(call.start) == Done {
        var ended := started.(planInProgress := false, plan := BoundTo(m, call.hashed), planFailed := call.hashed.None?);
        FinishKeepsPlan(rt, q, rows, v, ended, call.now, call.save, call.recover, if call.hashed.Some? then Returned(ended) else Raised);
      }
    }
  }

  /** Every plan the hash passes of the run yielded was made of the retained parts. */
  ghost predicate TrueRun(rt: Runtime, q: Request, rows: seq<SourceRow>, o: Owner, events: seq<Event>) {
    if events == [] then true
    else
      var before, last := events[..|events| - 1], events[|events| - 1];
      TrueRun(rt, q, rows, o, before) && (last.Planning? ==> HashesTruly(rt, q, rows, Run(rt.sha, o, before).w, last.p))
  }

  lemma {:induction false} EveryRunKeepsPlan(rt: Runtime, q: Request, rows: seq<SourceRow>, o: Owner, events: seq<Event>)
    requires PlanIsTrue(rt, q, rows, o.w) && TrueRun(rt, q, rows, o, events)
    ensures PlanIsTrue(rt, q, rows, Run(rt.sha, o, events).w)
    decreases |events|
  {
    hide Advance, Derive, Finalize, PlanIsTrue, HashesTruly;
    if events != [] {
      var before, last := events[..|events| - 1], events[|events| - 1];
      EveryRunKeepsPlan(rt, q, rows, o, before);
      var p := Run(rt.sha, o, before);
      match last
      case Advancing(a) => AdvanceKeepsPlan(rt, q, rows, p.w, a);
      case Deriving(d) => DeriveKeepsPlan(rt, q, rows, p.w, d);
      case Planning(c) => FinalizeKeepsPlan(rt, q, rows, p.w, c);
      case Restart =>
    }
  }

  // ------------------------------------------------------------------- replaying the plan

  /** A recorded plan is what the planner makes of a captured source, in the sense of `PlannedFrom`. */
  lemma RecordedIsPlanned(rt: Runtime, q: Request, rows: seq<SourceRow>, source: seq<Yield>, w: World) returns (g: Generation)
    requires Faithful(rt) && IsSource(rows) && YieldsRows(rt, rows, source) && q == RequestFor(rows, q.windowStart, q.watermark)
    requires Retains(rt.sha, source, w) && PlanIsTrue(rt, q, rows, w) && Read(w).value.plan.Some?
    ensures var m := Read(w).value;
      && Assemble(rt, q) == Some(g) && m.withdrawalCount == |Withdrawn(rows)|
      && CaptureSource.Count(m.parts, |m.parts|) == |rows|
      && PlannedFrom(rt, w.files, StoredOf(m.parts), Totals(m.sourceCount, m.itemCount, m.canonicalBytes), q, rows,
                     ChunksOf(rt, rows, m.parts), g, m.plan.value.planned)
  {
    hide Captured, CaptureSource.Count, Assemble, LocateAll, Plan.Count, Accepted, Faithful, YieldsRows, IsSource, Retained;
    FaithfulFloats(rt);
    CompleteCaptureIsCaptured(rt, rows, source, w);
    g := Assemble(rt, q).value;
  }

  /** What a recorded plan that is the plan of the rows is good for. */
  ghost predicate Replays(rt: Runtime, q: Request, w: World, now: int, maximumBatches: int, kind: ReceiptChain.Kind, offset: int)
    requires Read(w).Some? && Read(w).value.plan.Some?
  {
    var m := Read(w).value;
    var plan := m.plan.value.planned;
    && PlanReaderOf(w) == Some(ReaderOf(plan))
    && (ReplayOf(rt, w, q.windowStart, q.watermark, now, maximumBatches).Some? <==>
          m.retryNotBefore <= now && IsReplaySized(plan, maximumBatches) && |KeysOf(plan.places)| == m.itemCount)
    && Assemble(rt, q).Some? && plan.manifest == Assemble(rt, q).value.manifest
    && Served(rt, w.files, ReaderOf(plan), kind, offset) == BatchAt(BatchesOf(Assemble(rt, q).value, kind), offset)
  }

  lemma TruePlanReplays(rt: Runtime, q: Request, rows: seq<SourceRow>, source: seq<Yield>, w: World,
                        now: int, maximumBatches: int, kind: ReceiptChain.Kind, offset: int)
    requires Faithful(rt) && IsSource(rows) && YieldsRows(rt, rows, source) && q == RequestFor(rows, q.windowStart, q.watermark)
    requires Retains(rt.sha, source, w) && PlanIsTrue(rt, q, rows, w) && Read(w).value.plan.Some?
    ensures Replays(rt, q, w, now, maximumBatches, kind, offset)
  {
    hide Captured, CaptureSource.Count, Assemble, LocateAll, Plan.Count, Accepted, Faithful, YieldsRows, IsSource, Retained,
         Replayable, Served, BatchAt, Admitted, PlannedFrom, Table, ChunksOf, ExpectedPlan, IsReplaySized;
    var m := Read(w).value;
    var plan, totals := m.plan.value.planned, Totals(m.sourceCount, m.itemCount, m.canonicalBytes);
    var g := RecordedIsPlanned(rt, q, rows, source, w);
    PlanServesTheGeneration(rt, w.files, StoredOf(m.parts), totals, q, rows, ChunksOf(rt, rows, m.parts), g, plan, kind, offset);
    PlansAreReplayable(rt, w.files, StoredOf(m.parts), totals, q, rows, ChunksOf(rt, rows, m.parts), g, plan, maximumBatches);
  }

  /**
    Over every run of the capture from nothing, whatever failed and wherever the process stopped: if a
    plan is on record, its binding check passes, replay is refused only for a pending retry, for size or
    for two rows under one key, and what it serves at every offset is the batch of the generation the
    in-memory builder makes of the same rows.
   */
  lemma RecordedPlanReplays(rt: Runtime, q: Request, rows: seq<SourceRow>, source: seq<Yield>, files: Disk, events: seq<Event>,
                            now: int, maximumBatches: int, kind: ReceiptChain.Kind, offset: int)
    requires Faithful(rt) && IsSource(rows) && YieldsRows(rt, rows, source) && InCursorOrder(source)
    requires q == RequestFor(rows, q.windowStart, q.watermark)
    requires HonestRun(rt.sha, source, Owner(World(None, files), false), events)
    requires TrueRun(rt, q, rows, Owner(World(None, files), false), events)
    ensures var w := Run(rt.sha, Owner(World(None, files), false), events).w;
      Read(w).Some? && (Read(w).value.plan.Some? ==> Replays(rt, q, w, now, maximumBatches, kind, offset))
  {
    hide Assemble, Accepted, Faithful, YieldsRows, IsSource, Retained, Run, HonestRun, TrueRun, Replays, InCursorOrder, HoldsTruePlan;
    var o := Owner(World(None, files), false);
    var w := Run(rt.sha, o, events).w;
    EveryCaptureRetains(rt.sha, source, files, events);
    EveryRunKeepsPlan(rt, q, rows, o, events);
    if Read(w).value.plan.Some? { TruePlanReplays(rt, q, rows, source, w, now, maximumBatches, kind, offset); }
  }

  // --------------------------------------------------------- from anywhere to a replay

  /** No plan has been begun. */
  predicate IsUnplanned(m: Capture.Manifest) {
    m.phase.Building? && m.plan.None? && !m.planFailed && !m.planInProgress
  }

  lemma ExpectedIsSome(rt: Runtime, census: Option<Census>, q: Request)
    ensures Expected(rt, census, Assemble(rt, q)).Some? <==> census.Some? && Assemble(rt, q).Some?
  {
    hide Assemble, Describe, SortPlaces;
    if census.Some? && Assemble(rt, q).Some? { AssembledManifest(rt, q, Assemble(rt, q).value); }
  }

  /**
    From wherever the capture of a source has got to before planning: as many clean steps as records
    remain and one more, and one clean planning, record the plan whenever the rows can be built in memory
    and their metadata is within its bound, and then that plan replays.
   */
  lemma CleanRunReplays(rt: Runtime, q: Request, rows: seq<SourceRow>, source: seq<Yield>, o: Owner, events: seq<Event>, call: PlanCall,
                        now: int, maximumBatches: int, kind: ReceiptChain.Kind, offset: int)
    requires Faithful(rt) && IsSource(rows) && YieldsRows(rt, rows, source) && Capturable(source)
    requires q == RequestFor(rows, q.windowStart, q.watermark)
    requires Retains(rt.sha, source, o.w) && IsUnplanned(Read(o.w).value) && !o.unresolved
    requires IsCleanRun(rt.sha, source, o, events) && |events| > |source| - Read(o.w).value.sourceCount
    requires call.start.Clean? && call.save.Clean? && call.now >= 0
    ensures var p := Run(rt.sha, o, events).w;
      && Hashes(p, call) && CaptureSource.Count(Read(p).value.parts, |Read(p).value.parts|) == |rows|
      && (call.hashed == ExpectedPlan(rt, q, rows, Read(p).value.parts) ==>
            var w := Finalize(p, call).w;
            && Read(w).Some?
            && (Read(w).value.plan.Some? <==>
                  Plan.Count(rt, LocateAll(rt, StoredOf(Read(p).value.parts), ChunksOf(rt, rows, Read(p).value.parts))).Some? && Assemble(rt, q).Some?)
            && (Read(w).value.plan.Some? ==> Replays(rt, q, w, now, maximumBatches, kind, offset)))
  {
    hide Captured, CaptureSource.Count, Assemble, LocateAll, Plan.Count, Accepted, Faithful, YieldsRows, IsSource, Retained, Run,
         IsCleanRun, Capturable, ChunksOf, Expected, Replays, Finalize, Hashes;
    var p := Run(rt.sha, o, events).w;
    CleanRunGains(rt.sha, source, o, events);
    CleanStepsComplete(rt.sha, source, o, events);
    PlanningStarts(p, call);
    FaithfulFloats(rt);
    CompleteCaptureIsCaptured(rt, rows, source, p);
    if call.hashed == ExpectedPlan(rt, q, rows, Read(p).value.parts) {
      var parts := Read(p).value.parts;
      PlanIsRecorded(p, call);
      ExpectedIsSome(rt, Plan.Count(rt, LocateAll(rt, StoredOf(parts), ChunksOf(rt, rows, parts))), q);
      FinalizeRetains(rt.sha, source, p, call);
      FinalizeKeepsPlan(rt, q, rows, p, call);
      var w := Finalize(p, call).w;
      if Read(w).value.plan.Some? { TruePlanReplays(rt, q, rows, source, w, now, maximumBatches, kind, offset); }
    }
  }
}
