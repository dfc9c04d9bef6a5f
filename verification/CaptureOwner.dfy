/** The capture owner as an object over its directory; each method does what the capture's specification says. */
module CaptureOwner {
  import opened Text
  import opened Projection
  import opened Planner
  import opened Scan
  import opened Plan
  import opened Capture
  import opened CaptureSource
  import opened CaptureReplay
  import PlanReader
  import Replay

  class NewsProjectionSourceCapture {
    const rt: Runtime
    const windowStart: string
    const watermark: string
    var manifest: Option<Capture.Manifest>
    var files: Disk
    var unresolved: bool

    constructor (rt: Runtime, windowStart: string, watermark: string, dir: World)
      ensures this.rt == rt && this.windowStart == windowStart && this.watermark == watermark
      ensures Dir() == dir && !unresolved
    {
      this.rt, this.windowStart, this.watermark := rt, windowStart, watermark;
      manifest, files, unresolved := dir.manifest, dir.files, false;
    }

    function Dir(): World
      reads this
    {
      World(manifest, files)
    }

    /** `read`. */
    method ReadState() returns (r: Option<Capture.Manifest>)
      ensures r == Read(Dir())
    {
      hide PartAccepted, SegmentAccepted;
      if manifest.None? {
        return Some(INITIAL);
      }
      var m := manifest.value;
      var source, items, withdrawals, bytes: nat := 0, 0, 0, 0;
      for n := 0 to |m.parts|
        invariant forall i :: 0 <= i < n ==> PartAccepted(m.parts, i, files)
        invariant source == Sum(m.parts[..n], SOURCE) && items == Sum(m.parts[..n], ITEMS)
        invariant withdrawals == Sum(m.parts[..n], WITHDRAWALS) && bytes == Sum(m.parts[..n], BYTES)
      {
        var p := m.parts[n];
        if !PartAccepted(m.parts, n, files) {
          return None;
        }
        assert m.parts[..n + 1][..n] == m.parts[..n];
        source, items := source + p.stored.sourceCount, items + p.itemCount;
        withdrawals, bytes := withdrawals + p.withdrawalCount, bytes + p.stored.bytes;
      }
      assert m.parts[..|m.parts|] == m.parts;
      if m.sourceCount != source || m.itemCount != items || m.withdrawalCount != withdrawals || m.canonicalBytes != bytes
         || m.cursor != LastCursor(m.parts) || bytes > TOTAL_BYTES || !SegmentAccepted(m) {
        return None;
      }
      return Some(m);
    }

    /** `_save`. */
    method SaveState(m: Capture.Manifest, f: Fault) returns (s: Status)
      modifies this`manifest
      ensures Dir() == Saved(old(Dir()), m, f) && s == StatusOf(f)
    {
      if TakesEffect(f) {
        manifest := Some(m);
      }
      s := StatusOf(f);
    }

    /** `_atomic` for a part file. */
    method WritePart(name: string, raw: Bytes, f: Fault) returns (s: Status)
      modifies this`files
      ensures Dir() == PartWritten(old(Dir()), name, raw, f) && s == PartStatus(old(Dir()), name, raw, f)
    {
      if name in files {
        return if files[name] == raw then Done else Error;
      }
      if TakesEffect(f) {
        files := files[name := raw];
      }
      s := StatusOf(f);
    }

    /** `_publication_failed`. */
    method PublicationFailed(now: int, f: Fault) returns (o: Outcome)
      modifies this
      ensures Result(Dir(), o) == Recover(old(Dir()), now, f)
      ensures unresolved == (old(unresolved) || o.Unresolved?)
    {
      hide Accepted;
      var committed := ReadState();
      if committed.None? {
        unresolved := true;
        return Unresolved;
      }
      var s := SaveState(Failing(committed.value, now), f);
      match s
      case Done => o := Raised;
      case Error => unresolved := true; o := Unresolved;
      case Dead => o := Stopped;
    }

    method SaveOrRecover(m: Capture.Manifest, now: int, f: Fault, recover: Fault, done: Outcome) returns (o: Outcome)
      requires !done.Unresolved?
      modifies this
      ensures Result(Dir(), o) == Finish(old(Dir()), m, now, f, recover, done)
      ensures unresolved == (old(unresolved) || o.Unresolved?)
    {
      hide Accepted, Recover;
      var s := SaveState(m, f);
      match s
      case Done => o := done;
      case Error => o := PublicationFailed(now, recover);
      case Dead => o := Stopped;
    }

    /** The record loop of `advance`. */
    method CollectRecords(m: Capture.Manifest, page: Page) returns (c: Collected)
      ensures c == CollectPage(m, Some(page))
    {
      var content: Bytes, cursor := [], m.cursor;
      var taken, withdrawals: nat := 0, 0;
      ghost var start := Gathered([], m.cursor, 0, 0);
      while taken < |page.records|
        invariant Collect(m.canonicalBytes, page, Gathered(content, cursor, taken, withdrawals)) == Collect(m.canonicalBytes, page, start)
        decreases |page.records| - taken
      {
        if page.failsAt == Some(taken) {
          return SourceFailed;
        }
        var r := page.records[taken];
        if !CursorFollows(cursor, r.cursor) || !r.wellFormed || |r.line| > PART_BYTES {
          return SourceFailed;
        }
        if |content| + |r.line| > PART_BYTES || taken >= PAGE_ITEMS {
          return Closing(page, Gathered(content, cursor, taken, withdrawals), false);
        }
        if m.canonicalBytes + |content| + |r.line| > TOTAL_BYTES {
          return SourceFailed;
        }
        content, cursor := content + r.line, Some(r.cursor);
        taken := taken + 1;
        if r.isWithdrawal {
          withdrawals := withdrawals + 1;
        }
      }
      if page.failsAt == Some(taken) {
        return SourceFailed;
      }
      return Closing(page, Gathered(content, cursor, taken, withdrawals), !page.hasMore);
    }

    /** `advance`. */
    method AdvanceOnce(call: AdvanceCall) returns (o: Outcome)
      modifies this
      ensures old(unresolved) ==> o.Unresolved? && Dir() == old(Dir()) && unresolved
      ensures !old(unresolved) ==> Result(Dir(), o) == Advance(rt.sha, old(Dir()), call) && unresolved == o.Unresolved?
    {
      hide Accepted, Recover, Finish, Collect, PartName;
      if unresolved {
        return Unresolved;
      }
      var state := ReadState();
      if state.None? || call.producer != ProducerOf(state.value) {
        return Raised;
      }
      var m := state.value;
      if m.phase.SourceComplete? || call.now < m.retryNotBefore {
        return Returned(m);
      }
      if manifest.None? {
        var s := SaveState(m, call.first);
        match s {
          case Done =>
          case Error => o := PublicationFailed(call.now, call.recover); return;
          case Dead => return Stopped;
        }
      }
      var c := SourceFailed;
      if call.fetch.Some? {
        c := CollectRecords(m, call.fetch.value);
        CollectIsSound(m.canonicalBytes, call.fetch.value, Gathered([], m.cursor, 0, 0));
      }
      match c
      case SourceFailed => o := SaveOrRecover(Failing(m, call.now), call.now, call.second, call.recover, Raised);
      case Collected(g, complete) =>
        if g.taken == 0 && !complete {
          return Raised;
        }
        if g.taken > 0 {
          var s := WritePart(PartName(|m.parts|, rt.sha(g.content)), g.content, call.second);
          match s {
            case Done =>
            case Error => o := PublicationFailed(call.now, call.recover); return;
            case Dead => return Stopped;
          }
        }
        var updated := Extended(rt.sha, m, g, complete);
        o := SaveOrRecover(updated, call.now, call.third, call.recover, Returned(updated));
    }

    /** `derive_reader_segment`. */
    method DeriveReaderSegment(call: DeriveCall) returns (o: Outcome)
      modifies this
      ensures old(unresolved) ==> o.Unresolved? && Dir() == old(Dir()) && unresolved
      ensures !old(unresolved) ==> Result(Dir(), o) == Derive(old(Dir()), call) && unresolved == o.Unresolved?
    {
      hide Accepted, Finish;
      if unresolved {
        return Unresolved;
      }
      if !call.valid || call.producer == "" {
        return Raised;
      }
      var state := ReadState();
      if state.None? {
        return Raised;
      }
      var m := state.value;
      var segment := NewSegment(m, call);
      if call.part !in segment.prefix || call.canonical != call.part.stored.sha || call.readCount != call.part.stored.sourceCount {
        return Raised;
      }
      if m.segment.Some? {
        return if m.segment.value == segment then Returned(m) else Raised;
      }
      if !m.phase.Building? || m.plan.Some? || m.planInProgress {
        return Raised;
      }
      if call.now < m.retryNotBefore {
        return Returned(m);
      }
      var updated := m.(derived := true, segment := Some(segment));
      o := SaveOrRecover(updated, call.now, call.save, call.recover, Returned(updated));
    }

    /**
      `finalize_plan`; the hash passes may raise for lack of time or memory. Otherwise, when the directory
      retains a complete capture of `rows`, what they yield is the plan of the generation the in-memory
      builder makes of the same rows.
     */
    method FinalizePlan(now: int, start: Fault, hashRaises: bool, save: Fault, recover: Fault, ghost rows: seq<SourceRow>, ghost source: seq<Yield>)
      returns (o: Outcome, ghost hashed: Option<Planned>)
      modifies this
      ensures old(unresolved) ==> o.Unresolved? && Dir() == old(Dir()) && unresolved
      ensures !old(unresolved) ==>
        Result(Dir(), o) == Finalize(old(Dir()), PlanCall(hashed, now, start, save, recover)) && unresolved == o.Unresolved?
      ensures !old(unresolved) && Hashes(old(Dir()), PlanCall(hashed, now, start, save, recover))
              && Faithful(rt) && IsSource(rows) && YieldsRows(rt, rows, source) && Retains(rt.sha, source, old(Dir()))
          ==> var parts := Read(old(Dir())).value.parts;
              && CaptureSource.Count(parts, |parts|) == |rows|
              && hashed == if hashRaises then None else Expected(rt, Plan.Count(rt, LocateAll(rt, StoredOf(parts), ChunksOf(rt, rows, parts))),
                                    Assemble(rt, RequestFor(rows, windowStart, watermark)))
      ensures !old(unresolved) && Faithful(rt) && IsSource(rows) && YieldsRows(rt, rows, source) && Retains(rt.sha, source, old(Dir()))
          ==> HashesTruly(rt, RequestFor(rows, windowStart, watermark), rows, old(Dir()), PlanCall(hashed, now, start, save, recover))
    {
      hide Accepted, Finish, Recover, Faithful, Captured, Expected, Retained, YieldsRows, IsSource, LocateAll, Assemble, CaptureSource.Count, Plan.Count;
      hashed := None;
      if unresolved {
        o := Unresolved;
        return;
      }
      var state := ReadState();
      if state.None? {
        o := Raised;
        return;
      }
      var m := state.value;
      if m.phase.Building? {
        o := Raised;
        return;
      }
      if m.plan.Some? {
        o := Returned(m);
        return;
      }
      if m.planFailed || m.planInProgress {
        o := Raised;
        return;
      }
      if now < m.retryNotBefore {
        o := Returned(m);
        return;
      }
      var s := SaveState(m.(planInProgress := true), start);
      match s {
        case Done =>
        case Error => o := PublicationFailed(now, recover); return;
        case Dead => o := Stopped; return;
      }
      var totals := Totals(m.sourceCount, m.itemCount, m.canonicalBytes);
      ghost var sound := Faithful(rt) && IsSource(rows) && YieldsRows(rt, rows, source) && Retains(rt.sha, source, old(Dir()));
      if sound {
        FaithfulFloats(rt);
        CompleteCaptureIsCaptured(rt, rows, source, old(Dir()));
      }
      var plan := None;
      if !hashRaises {
        plan := Plan.FinalizePlan(rt, files, StoredOf(m.parts), totals, windowStart, watermark, rows,
                                  if sound then ChunksOf(rt, rows, m.parts) else []);
      }
      hashed := plan;
      var ended := m.(planInProgress := false, plan := BoundTo(m, plan), planFailed := plan.None?);
      o := SaveOrRecover(ended, now, save, recover, if plan.Some? then Returned(ended) else Raised);
    }

    /** `open_plan_reader`: only a plan bound to what the manifest holds now is opened. */
    method OpenPlanReader() returns (r: Option<PlanReader.Reader>)
      ensures r == PlanReaderOf(Dir())
    {
      hide Accepted, PlanReader.Admitted, PlanReader.Table;
      var state := ReadState();
      if state.None? || !state.value.phase.SourceComplete? || state.value.plan.None? {
        return None;
      }
      var m := state.value;
      if m.plan.value.inputs != InputsOf(m) {
        return None;
      }
      ReadNamesAreDistinct(Dir());
      r := PlanReader.Open(StoredOf(m.parts), m.itemCount, m.plan.value.planned);
    }

    /** `open_replay_generation`. */
    method OpenReplayGeneration(now: int, maximumBatches: int) returns (r: Option<PlanReader.Reader>)
      ensures r == ReplayOf(rt, Dir(), windowStart, watermark, now, maximumBatches)
    {
      hide Accepted, PlanReader.Admitted, PlanReader.Table, Replay.WithinLimits, Replay.ManifestFor;
      var state := ReadState();
      if state.None? || state.value.planInProgress || state.value.planFailed || now < state.value.retryNotBefore {
        return None;
      }
      var m := state.value;
      var reader := OpenPlanReader();
      if reader.None? {
        return None;
      }
      ReadNamesAreDistinct(Dir());
      r := Replay.OpenReplay(rt, StoredOf(m.parts), m.itemCount, m.withdrawalCount, m.plan.value.planned, windowStart, watermark, maximumBatches);
    }
  }

  lemma ReadNamesAreDistinct(w: World)
    requires Read(w).Some?
    ensures PlanReader.DistinctNames(StoredOf(Read(w).value.parts))
  {
    if w.manifest.Some? { NamesAreDistinct(w.manifest.value, w.files); }
  }
}
