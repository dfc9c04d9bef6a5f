/** When a capture moves on: which records a step takes, that clean steps complete the source, and that every answer is true. */
module CaptureProgress {
  import opened Text
  import opened Sorting
  import opened Planner
  import opened Scan
  import opened Capture
  import opened CaptureRuns
  import opened CaptureSource

  // -------------------------------------------------------------- what a page yields

  /** The bytes of some leading records. */
  function Bytes(records: seq<Yield>, n: nat): nat
    requires n <= |records|
  {
    if n == 0 then 0 else Bytes(records, n - 1) + |records[n - 1].line|
  }

  /** A record may be retained after the one before it, or after the cursor of the capture. */
  predicate IsSound(m: Capture.Manifest, page: Page, i: nat)
    requires i < |page.records|
  {
    var r, before := page.records[i], if i == 0 then m.cursor else Some(page.records[i - 1].cursor);
    r.wellFormed && |r.cursor| == 4 && |r.line| <= PART_BYTES && (before.Some? ==> Less(before.value, r.cursor))
  }

  /** It still fits the part of this step. */
  predicate FitsPart(page: Page, i: nat)
    requires i < |page.records|
  {
    i < PAGE_ITEMS && Bytes(page.records, i + 1) <= PART_BYTES
  }

  /** It still fits the capture. */
  predicate FitsTotal(m: Capture.Manifest, page: Page, i: nat)
    requires i < |page.records|
  {
    m.canonicalBytes + Bytes(page.records, i + 1) <= TOTAL_BYTES
  }

  predicate IsTaken(m: Capture.Manifest, page: Page, i: nat)
    requires i < |page.records|
  {
    page.failsAt != Some(i) && IsSound(m, page, i) && FitsPart(page, i) && FitsTotal(m, page, i)
  }

  /** A page is taken up to here: all before is taken, and here it ends or the part is full. */
  predicate StopsAt(m: Capture.Manifest, page: Page, k: nat) {
    && k <= |page.records| && (forall i :: 0 <= i < k ==> IsTaken(m, page, i))
    && page.failsAt != Some(k) && !page.closeFails
    && (k < |page.records| ==> IsSound(m, page, k) && !FitsPart(page, k))
  }

  ghost predicate Ongoing(m: Capture.Manifest, page: Page, g: Gathered) {
    && g.taken <= |page.records| && (forall i :: 0 <= i < g.taken ==> IsTaken(m, page, i))
    && |g.content| == Bytes(page.records, g.taken)
    && g.cursor == if g.taken == 0 then m.cursor else Some(page.records[g.taken - 1].cursor)
  }

  /** The record loop stops exactly where the page stops, and is complete exactly when all of a last page is taken. */
  lemma {:induction false} CollectStops(m: Capture.Manifest, page: Page, g: Gathered, k: nat)
    requires Ongoing(m, page, g)
    ensures var c := Collect(m.canonicalBytes, page, g);
      && (c.Collected? && c.g.taken == k <==> g.taken <= k && StopsAt(m, page, k))
      && (c.Collected? ==> (c.complete <==> !page.hasMore && c.g.taken == |page.records|))
    decreases |page.records| - g.taken
  {
    hide Less;
    if g.taken < |page.records| && IsTaken(m, page, g.taken) {
      CollectStops(m, page, Gather(g, page.records[g.taken]), k);
    }
  }

  lemma PageStops(m: Capture.Manifest, page: Page, k: nat)
    ensures var c := CollectPage(m, Some(page));
      && (c.Collected? && c.g.taken == k <==> StopsAt(m, page, k))
      && (c.Collected? ==> (c.complete <==> !page.hasMore && c.g.taken == |page.records|))
  {
    hide IsTaken, StopsAt;
    CollectStops(m, page, Gathered([], m.cursor, 0, 0), k);
  }

  // ------------------------------------------------------------------- one clean step

  /** What a part file holds already does not contradict what this step may write. */
  ghost predicate Unopposed(sha: Hash, m: Capture.Manifest, page: Page, files: Disk) {
    forall k :: 0 <= k <= |page.records| ==>
      var raw := Concat(LinesOf(page.records[..k]));
      PartName(|m.parts|, sha(raw)) in files ==> files[PartName(|m.parts|, sha(raw))] == raw
  }

  predicate WritesCleanly(call: AdvanceCall) {
    call.first.Clean? && call.second.Clean? && call.third.Clean?
  }

  lemma OpenAdvance(sha: Hash, w: World, call: AdvanceCall)
    requires Readable(w) && TakesStep(Read(w).value, call) && call.first.Clean?
    ensures var v := if w.manifest.Some? then w else w.(manifest := Some(INITIAL));
      Advance(sha, w, call) == AdvanceOpen(sha, v, Read(w).value, call) && Read(v) == Read(w) && v.files == w.files
  {
    hide Accepted, AdvanceOpen;
    InitialAccepted(w.files);
  }

  /** A clean step retains what the page yields up to where it stops, and completes the source exactly with all of a last page. */
  lemma CleanStep(sha: Hash, w: World, call: AdvanceCall, page: Page, k: nat)
    requires Readable(w) && TakesStep(Read(w).value, call) && WritesCleanly(call)
    requires call.fetch == Some(page) && StopsAt(Read(w).value, page, k) && Unopposed(sha, Read(w).value, page, w.files)
    requires k > 0 || !page.hasMore
    ensures var r, m := Advance(sha, w, call), Read(w).value;
      && r.outcome.Returned? && Read(r.w) == Some(r.outcome.m)
      && r.outcome.m.sourceCount == m.sourceCount + k && r.outcome.m.canonicalBytes == m.canonicalBytes + Bytes(page.records, k)
      && (r.outcome.m.phase.SourceComplete? <==> !page.hasMore && k == |page.records|)
      && r.outcome.m.retryNotBefore == 0 && r.outcome.m.segment == m.segment && m.parts <= r.outcome.m.parts
      && r.outcome.m.plan == m.plan && r.outcome.m.planFailed == m.planFailed && r.outcome.m.planInProgress == m.planInProgress
  {
    hide Accepted, Collect, Recover, PartName, IsTaken, Extended, AdvanceOpen, StopsAt;
    var m := Read(w).value;
    OpenAdvance(sha, w, call);
    var v := if w.manifest.Some? then w else w.(manifest := Some(INITIAL));
    PageStops(m, page, k);
    CollectedIsGathered(m, page);
    NoEmptyStop(m, page, k);
    var c := CollectPage(m, Some(page));
    OpenCollected(sha, v, m, call, page);
    CollectedCommits(sha, v, m, c.g, c.complete, call, page);
    ExtendedIs(sha, m, page, c.g, c.complete);
    AdvanceKeeps(sha, w, call);
  }

  lemma NoEmptyStop(m: Capture.Manifest, page: Page, k: nat)
    requires StopsAt(m, page, k)
    ensures k == 0 ==> page.records == []
  {
    if k == 0 && page.records != [] { assert Bytes(page.records, 1) == |page.records[0].line|; }
  }

  lemma OpenCollected(sha: Hash, w: World, m: Capture.Manifest, call: AdvanceCall, page: Page)
    requires call.fetch == Some(page)
    ensures CollectPage(m, Some(page)).Collected? ==>
      var g := CollectPage(m, Some(page)).g; g.withdrawals <= g.taken && (g.taken > 0 ==> g.cursor.Some?)
    ensures AdvanceOpen(sha, w, m, call) == AdvanceCollected(sha, w, m, CollectPage(m, Some(page)), call)
  {
    hide Collect, AdvanceCollected;
    CollectIsSound(m.canonicalBytes, page, Gathered([], m.cursor, 0, 0));
  }

  lemma CollectedCommits(sha: Hash, w: World, m: Capture.Manifest, g: Gathered, complete: bool, call: AdvanceCall, page: Page)
    requires GatheredFrom(m, page, g) && WritesCleanly(call) && Unopposed(sha, m, page, w.files)
    requires g.taken > 0 || complete
    ensures g.withdrawals <= g.taken && (g.taken > 0 ==> g.cursor.Some?)
    ensures var r, n := AdvanceCollected(sha, w, m, Collected(g, complete), call), Extended(sha, m, g, complete);
      r.outcome == Returned(n) && r.w.manifest == Some(n)
  {
    hide Extended, PartName, Withdrawals;
  }

  lemma ExtendedIs(sha: Hash, m: Capture.Manifest, page: Page, g: Gathered, complete: bool)
    requires GatheredFrom(m, page, g)
    ensures g.withdrawals <= g.taken && (g.taken > 0 ==> g.cursor.Some?)
    ensures var n := Extended(sha, m, g, complete);
      && n.sourceCount == m.sourceCount + g.taken && n.canonicalBytes == m.canonicalBytes + Bytes(page.records, g.taken)
      && (n.phase.SourceComplete? <==> complete) && n.retryNotBefore == 0 && n.segment == m.segment && m.parts <= n.parts
      && n.plan == m.plan && n.planFailed == m.planFailed && n.planInProgress == m.planInProgress
  {
    hide PartName, Withdrawals;
    BytesAre(page.records, g.taken);
  }

  lemma {:induction false} BytesAre(records: seq<Yield>, n: nat)
    requires n <= |records|
    ensures |Concat(LinesOf(records[..n]))| == Bytes(records, n)
  {
    hide Withdrawals;
    if n == 0 {
      assert LinesOf(records[..0]) == [];
    } else {
      BytesAre(records, n - 1);
      LinesAppend(records, n - 1);
    }
  }

  /** A step whose page stops nowhere retains nothing, records its failure and backs off. */
  lemma FailedStep(sha: Hash, w: World, call: AdvanceCall)
    requires Readable(w) && TakesStep(Read(w).value, call) && WritesCleanly(call)
    requires call.fetch.None? || forall k :: !StopsAt(Read(w).value, call.fetch.value, k)
    ensures var r, m := Advance(sha, w, call), Read(w).value;
      && r.outcome.Raised? && r.w.files == w.files
      && Read(r.w) == Some(m.(failed := true, retryNotBefore := call.now + 30))
  {
    hide Accepted, Collect, Recover, AdvanceOpen, StopsAt;
    var m := Read(w).value;
    OpenAdvance(sha, w, call);
    var v := if w.manifest.Some? then w else w.(manifest := Some(INITIAL));
    if call.fetch.Some? {
      var c := CollectPage(m, call.fetch);
      PageStops(m, call.fetch.value, if c.Collected? then c.g.taken else 0);
      OpenCollected(sha, v, m, call, call.fetch.value);
    }
    OpenFails(sha, v, m, call);
    AdvanceKeeps(sha, w, call);
  }

  lemma OpenFails(sha: Hash, w: World, m: Capture.Manifest, call: AdvanceCall)
    requires WritesCleanly(call) && (call.fetch.None? || CollectPage(m, call.fetch).SourceFailed?)
    ensures AdvanceOpen(sha, w, m, call) == Result(World(Some(Failing(m, call.now)), w.files), Raised)
  {
    hide Collect;
  }

  /** A complete capture, one that backs off, and one that another producer reads are left as they are. */
  lemma NoStep(sha: Hash, w: World, call: AdvanceCall)
    requires Readable(w) && !TakesStep(Read(w).value, call)
    ensures var r, m := Advance(sha, w, call), Read(w).value;
      r.w == w && r.outcome == if call.producer == (match m.segment case None => None case Some(s) => Some(s.producer)) then Returned(m) else Raised
  {
    hide Accepted, AdvanceOpen;
  }

  /** A write that fails leaves its failure on record with a back-off, unless that cannot be written either; a process that stops leaves none. */
  lemma FailureIsRecorded(w: World, now: int, f: Fault)
    requires Readable(w)
    ensures var r, m := Recover(w, now, f), Read(w).value;
      && r.w.files == w.files
      && (f.Clean? || f.FailsAfter? || f.StopsAfter? ==> Read(r.w) == Some(m.(failed := true, retryNotBefore := now + 30)))
      && (f.FailsBefore? || f.StopsBefore? ==> r.w == w)
      && (r.outcome.Raised? <==> f.Clean?) && (r.outcome.Unresolved? <==> f.FailsBefore? || f.FailsAfter?)
  {
    hide Accepted;
    RecoverKeeps(w, now, f);
  }

  // ----------------------------------------------------------------- every outcome is true

  ghost predicate IsOnRecord(w: World, now: int) {
    Readable(w) && Read(w).value.failed && Read(w).value.retryNotBefore == now + 30
  }

  predicate StopsAnywhere(faults: seq<Fault>) {
    exists i :: 0 <= i < |faults| && (faults[i].StopsBefore? || faults[i].StopsAfter?)
  }

  /**
    What a call answers is so: a manifest it returns is the one on disk, a failure it raises is on record with
    its back-off, storage is unresolved only when the failure could not be written, and it ends without an
    answer only when the process stops.
   */
  ghost predicate IsTrue(r: Result, now: int, faults: seq<Fault>, recover: Fault) {
    match r.outcome
    case Returned(m) => Read(r.w) == Some(m)
    case Raised => IsOnRecord(r.w, now)
    case Unresolved => recover.FailsBefore? || recover.FailsAfter?
    case Stopped => StopsAnywhere(faults)
  }

  lemma StopsThere(faults: seq<Fault>, f: Fault)
    requires f in faults && (f.StopsBefore? || f.StopsAfter?)
    ensures StopsAnywhere(faults)
  {}

  lemma RecoverIsTrue(w: World, now: int, faults: seq<Fault>, recover: Fault)
    requires Readable(w) && recover in faults
    ensures IsTrue(Recover(w, now, recover), now, faults, recover)
  {
    hide Accepted;
    RecoverKeeps(w, now, recover);
    if recover.StopsBefore? || recover.StopsAfter? { StopsThere(faults, recover); }
  }

  lemma FinishIsTrue(w: World, m: Capture.Manifest, now: int, f: Fault, faults: seq<Fault>, recover: Fault, done: Outcome)
    requires Readable(w) && Accepted(m, w.files) && PartsOf(w) <= m.parts && f in faults && recover in faults
    requires f.Clean? ==> done == Returned(m) || (done == Raised && m.failed && m.retryNotBefore == now + 30)
    ensures IsTrue(Finish(w, m, now, f, recover, done), now, faults, recover)
  {
    hide Accepted, Recover;
    SaveKeeps(w, m, f);
    match StatusOf(f)
    case Done =>
    case Error => RecoverIsTrue(Saved(w, m, f), now, faults, recover);
    case Dead => StopsThere(faults, f);
  }

  /** The source says there is more and gives nothing: the step is refused and nothing is written. */
  predicate IsIdle(fetch: Fetch) {
    fetch.Some? && fetch.value.records == [] && fetch.value.hasMore && !fetch.value.closeFails && fetch.value.failsAt != Some(0)
  }

  /** Whatever page comes and whatever write fails: the answer of a step is true. */
  lemma StepIsTrue(sha: Hash, w: World, call: AdvanceCall)
    requires Readable(w) && TakesStep(Read(w).value, call)
    ensures var r := Advance(sha, w, call);
      if r.outcome.Raised? && IsIdle(call.fetch) then r.w.files == w.files
      else IsTrue(r, call.now, [call.first, call.second, call.third, call.recover], call.recover)
  {
    hide Accepted, Recover, AdvanceOpen, IsTrue, IsIdle;
    var m := Read(w).value;
    var faults := [call.first, call.second, call.third, call.recover];
    ReadIsAccepted(w);
    if w.manifest.Some? {
      OpenIsTrue(sha, w, m, call, faults);
    } else {
      SaveKeeps(w, m, call.first);
      var v := Saved(w, m, call.first);
      match StatusOf(call.first)
      case Done => OpenIsTrue(sha, v, m, call, faults);
      case Error => RecoverIsTrue(v, call.now, faults, call.recover);
        RecoverKeepsFiles(v, call.now, call.recover);
      case Dead => StoppedIsTrue(v, call.now, faults, call.first, call.recover);
    }
  }

  lemma RecoverKeepsFiles(w: World, now: int, f: Fault)
    ensures Recover(w, now, f).w.files == w.files
  {}

  lemma StoppedIsTrue(w: World, now: int, faults: seq<Fault>, f: Fault, recover: Fault)
    requires f in faults && StatusOf(f) == Dead
    ensures IsTrue(Result(w, Stopped), now, faults, recover)
  {
    StopsThere(faults, f);
  }

  lemma OpenIsTrue(sha: Hash, w: World, m: Capture.Manifest, call: AdvanceCall, faults: seq<Fault>)
    requires Readable(w) && Accepted(m, w.files) && PartsOf(w) == m.parts
    requires faults == [call.first, call.second, call.third, call.recover]
    ensures var r := AdvanceOpen(sha, w, m, call);
      if r.outcome.Raised? && IsIdle(call.fetch) then r.w.files == w.files else IsTrue(r, call.now, faults, call.recover)
  {
    hide Accepted, Recover, Finish, GatheredFrom, Collect, IsTrue;
    AcceptedStaysOpen(m, Failing(m, call.now), w.files);
    FinishIsTrue(w, Failing(m, call.now), call.now, call.second, faults, call.recover, Raised);
    if call.fetch.Some? {
      CollectedIsGathered(m, call.fetch.value);
      NothingOnlyIfIdle(m, call.fetch.value);
      var c := CollectPage(m, call.fetch);
      if c.Collected? && (c.g.taken > 0 || c.complete) { CommitIsTrue(sha, w, m, call.fetch.value, c.g, c.complete, call, faults); }
    }
  }

  lemma NothingOnlyIfIdle(m: Capture.Manifest, page: Page)
    ensures var c := CollectPage(m, Some(page));
      (c.Collected? && c.g.taken == 0 && !c.complete) <==> IsIdle(Some(page))
  {
    hide CursorFollows;
    var start := Gathered([], m.cursor, 0, 0);
    if page.records != [] && page.failsAt != Some(0) { GathersOn(m.canonicalBytes, page, Gather(start, page.records[0])); }
  }

  lemma {:induction false} GathersOn(canonicalBytes: nat, page: Page, g: Gathered)
    ensures var c := Collect(canonicalBytes, page, g); c.Collected? ==> c.g.taken >= g.taken
    decreases |page.records| - g.taken
  {
    hide CursorFollows;
    if g.taken < |page.records| { GathersOn(canonicalBytes, page, Gather(g, page.records[g.taken])); }
  }

  lemma CommitIsTrue(sha: Hash, w: World, m: Capture.Manifest, page: Page, g: Gathered, complete: bool, call: AdvanceCall, faults: seq<Fault>)
    requires Readable(w) && Accepted(m, w.files) && PartsOf(w) == m.parts && GatheredFrom(m, page, g) && (g.taken > 0 || complete)
    requires faults == [call.first, call.second, call.third, call.recover]
    ensures g.withdrawals <= g.taken && (g.taken > 0 ==> g.cursor.Some?)
    ensures IsTrue(AdvanceCollected(sha, w, m, Collected(g, complete), call), call.now, faults, call.recover)
  {
    hide Accepted, Recover, Finish, PartName, Withdrawals, IsTrue;
    if g.taken == 0 {
      ExtendedAccepted(sha, m, page, g, complete, w.files);
      FinishIsTrue(w, Extended(sha, m, g, complete), call.now, call.third, faults, call.recover, Returned(Extended(sha, m, g, complete)));
    } else {
      var name := PartName(|m.parts|, sha(g.content));
      var v := PartWritten(w, name, g.content, call.second);
      PartWriteKeeps(w, m, name, g.content, call.second);
      match PartStatus(w, name, g.content, call.second)
      case Done =>
        ExtendedAccepted(sha, m, page, g, complete, v.files);
        FinishIsTrue(v, Extended(sha, m, g, complete), call.now, call.third, faults, call.recover, Returned(Extended(sha, m, g, complete)));
      case Error => RecoverIsTrue(v, call.now, faults, call.recover);
      case Dead => StoppedIsTrue(v, call.now, faults, call.second, call.recover);
    }
  }

  /** Deriving a segment is refused, with nothing written, whatever the writes would do; otherwise its answer is true. */
  lemma DerivingIsTrue(w: World, call: DeriveCall)
    requires Readable(w)
    ensures var r := Derive(w, call);
      if Derive(w, call.(save := Clean, recover := Clean)).outcome.Raised? then r == Result(w, Raised)
      else IsTrue(r, call.now, [call.save, call.recover], call.recover)
  {
    hide Accepted, SegmentAccepted, Recover, Finish, IsTrue;
    ReadIsAccepted(w);
    var m := Read(w).value;
    var n := m.(derived := true, segment := Some(NewSegment(m, call)));
    UntouchedIsTrue(w, m, call.now, [call.save, call.recover], call.recover);
    if m.segment.None? && call.part in NewSegment(m, call).prefix && call.producer != "" {
      FenceRises(m, call, w.files);
      FinishIsTrue(w, n, call.now, call.save, [call.save, call.recover], call.recover, Returned(n));
      CleanFinish(w, n, call.now, Clean, Returned(n));
    }
  }

  lemma UntouchedIsTrue(w: World, m: Capture.Manifest, now: int, faults: seq<Fault>, recover: Fault)
    requires Read(w) == Some(m)
    ensures IsTrue(Result(w, Returned(m)), now, faults, recover)
  {}

  lemma CleanFinish(w: World, m: Capture.Manifest, now: int, recover: Fault, done: Outcome)
    ensures Finish(w, m, now, Clean, recover, done) == Result(Saved(w, m, Clean), done)
  {}

  /** Planning that starts answers truly, whichever write fails; only a pass that gave nothing raises without a back-off. */
  lemma PlanningIsTrue(w: World, call: PlanCall)
    requires Readable(w) && StartsPlanning(Read(w).value, call.now)
    ensures var r := Finalize(w, call);
      if call.start.Clean? && call.save.Clean? && call.hashed.None? then r.outcome.Raised?
      else IsTrue(r, call.now, [call.start, call.save, call.recover], call.recover)
  {
    hide Accepted, Recover, Finish, IsTrue;
    ReadIsAccepted(w);
    var m, faults := Read(w).value, [call.start, call.save, call.recover];
    var started := m.(planInProgress := true);
    AcceptedStaysOpen(m, started, w.files);
    SaveKeeps(w, started, call.start);
    var v := Saved(w, started, call.start);
    match StatusOf(call.start)
    case Error => RecoverIsTrue(v, call.now, faults, call.recover);
    case Dead => StoppedIsTrue(v, call.now, faults, call.start, call.recover);
    case Done =>
      var ended := started.(planInProgress := false, plan := BoundTo(m, call.hashed), planFailed := call.hashed.None?);
      AcceptedStaysOpen(m, ended, v.files);
      var done := if call.hashed.Some? then Returned(ended) else Raised;
      CleanFinish(v, ended, call.now, call.recover, done);
      if call.hashed.Some? || !call.save.Clean? { FinishIsTrue(v, ended, call.now, call.save, faults, call.recover, done); }
  }

  /**
    A reader segment is recorded exactly for a proof of a part already read, by a producer with a name, while
    the source is still being read and nothing is planned; once recorded it never changes.
   */
  lemma DeriveFences(w: World, call: DeriveCall)
    requires Readable(w) && call.save.Clean?
    ensures var m, r := Read(w).value, Derive(w, call);
      var count := if m.segment.Some? then m.segment.value.prefixPartCount else |m.parts|;
      var proven := call.valid && call.producer != "" && count <= |m.parts|
                    && (exists i :: 0 <= i < count && m.parts[i] == call.part)
                    && call.canonical == call.part.stored.sha && call.readCount == call.part.stored.sourceCount;
      var s := Segment(count, m.parts[..if count <= |m.parts| then count else |m.parts|], call.producer, call.part.stored.sha, call.proof);
      && (!proven ==> r == Result(w, Raised))
      && (proven && m.segment.Some? ==> r == Result(w, if m.segment.value == s then Returned(m) else Raised))
      && (proven && m.segment.None? && (m.phase.SourceComplete? || m.plan.Some? || m.planInProgress) ==> r == Result(w, Raised))
      && (proven && m.segment.None? && m.phase.Building? && m.plan.None? && !m.planInProgress ==>
            if call.now < m.retryNotBefore then r == Result(w, Returned(m))
            else r.w.files == w.files && Read(r.w) == Some(m.(derived := true, segment := Some(s))) && r.outcome.Returned?)
  {
    hide Accepted, SegmentAccepted, Recover;
    DeriveKeeps(w, call);
    FencedPrefix(Read(w).value, w);
  }

  lemma FencedPrefix(m: Capture.Manifest, w: World)
    requires Read(w) == Some(m)
    ensures m.segment.Some? ==> m.segment.value.prefixPartCount <= |m.parts|
  {
    hide Sum, PartAccepted;
  }

  // --------------------------------------------------------- clean steps complete a source

  /** A source whose records may be retained, all of them within the capture's bound. */
  ghost predicate Capturable(source: seq<Yield>) {
    && InCursorOrder(source) && Bytes(source, |source|) <= TOTAL_BYTES
    && forall i :: 0 <= i < |source| ==> source[i].wellFormed && |source[i].cursor| == 4 && |source[i].line| <= PART_BYTES
  }

  /** An honest page that can be read through, and that brings records while there are any. */
  ghost predicate Fruitful(source: seq<Yield>, m: Capture.Manifest, page: Page) {
    && Honest(source, m, Some(page)) && page.failsAt.None? && !page.closeFails
    && (page.hasMore ==> page.records != []) && (page.records == Following(source, m.cursor) ==> !page.hasMore)
  }

  ghost predicate IsCleanCall(sha: Hash, source: seq<Yield>, w: World, call: AdvanceCall) {
    Read(w).Some? && Read(w).value.phase.Building? ==>
      var m := Read(w).value;
      && TakesStep(m, call) && WritesCleanly(call)
      && call.fetch.Some? && Fruitful(source, m, call.fetch.value) && Unopposed(sha, m, call.fetch.value, w.files)
  }

  lemma {:induction false} BytesOfSlice(source: seq<Yield>, a: nat, n: nat)
    requires a + n <= |source|
    ensures Bytes(source[a..], n) == Bytes(source, a + n) - Bytes(source, a)
  {
    if n > 0 { BytesOfSlice(source, a, n - 1); }
  }

  lemma {:induction false} BytesGrow(source: seq<Yield>, a: nat, b: nat)
    requires a <= b <= |source|
    ensures Bytes(source, a) <= Bytes(source, b)
    decreases b
  {
    if a < b { BytesGrow(source, a, b - 1); }
  }

  lemma {:induction false} BytesOfPrefix(xs: seq<Yield>, ys: seq<Yield>, n: nat)
    requires n <= |xs| && xs <= ys
    ensures Bytes(xs, n) == Bytes(ys, n)
  {
    if n > 0 { BytesOfPrefix(xs, ys, n - 1); }
  }

  /** The bytes retained are those of the retained records. */
  lemma {:induction false} BytesOfParts(sha: Hash, source: seq<Yield>, m: Capture.Manifest, k: nat, files: Disk)
    requires Retained(sha, source, m, files) && k <= |m.parts|
    ensures CaptureSource.Count(m.parts, k) <= |source| && Sum(m.parts[..k], BYTES) == Bytes(source, CaptureSource.Count(m.parts, k))
    decreases k
  {
    hide Sum, SegmentAccepted, PartName, Withdrawals, LinesOf;
    if k == 0 {
      assert m.parts[..0] == [];
      NoSum();
    } else {
      BytesOfParts(sha, source, m, k - 1, files);
      assert PartRetains(sha, source, m.parts, k - 1, files) && PartAccepted(m.parts, k - 1, files);
      assert m.parts[..k] == m.parts[..k - 1] + [m.parts[k - 1]];
      SumAppend(m.parts[..k - 1], m.parts[k - 1], BYTES);
      var a, b := CaptureSource.Count(m.parts, k - 1), CaptureSource.Count(m.parts, k);
      SliceBytes(source, a, b);
    }
  }

  lemma NoSum()
    ensures Sum([], BYTES) == 0 && Sum([], SOURCE) == 0
  {}

  lemma SliceBytes(source: seq<Yield>, a: nat, b: nat)
    requires a <= b <= |source|
    ensures |Concat(LinesOf(source[a..b]))| == Bytes(source, b) - Bytes(source, a)
  {
    hide LinesOf, Concat, Bytes;
    assert source[a..][..b - a] == source[a..b];
    BytesAre(source[a..], b - a);
    BytesOfSlice(source, a, b - a);
  }

  lemma RetainedBytes(sha: Hash, source: seq<Yield>, m: Capture.Manifest, files: Disk)
    requires Retained(sha, source, m, files)
    ensures m.canonicalBytes == Bytes(source, m.sourceCount)
  {
    hide Sum, SegmentAccepted, PartRetains;
    BytesOfParts(sha, source, m, |m.parts|, files);
    AcceptedCounts(m, files);
    assert m.parts[..|m.parts|] == m.parts;
  }

  /** The cursor of a capture is that of the last record retained. */
  lemma NextIs(sha: Hash, source: seq<Yield>, m: Capture.Manifest, files: Disk)
    requires InCursorOrder(source) && Retained(sha, source, m, files)
    ensures Following(source, m.cursor) == source[m.sourceCount..]
    ensures m.cursor == if m.sourceCount == 0 then None else Some(source[m.sourceCount - 1].cursor)
  {
    hide Accepted, Sum, Withdrawals, Less;
    var n := |m.parts|;
    AcceptedCounts(m, files);
    if n > 0 {
      assert PartRetains(sha, source, m.parts, n - 1, files);
      assert m.parts[..n] == m.parts;
      FollowingIs(source, m.sourceCount);
    }
  }

  /** Every record of a fruitful page may be retained; only the size of the part stops the step. */
  lemma PageIsSound(sha: Hash, source: seq<Yield>, m: Capture.Manifest, page: Page, files: Disk, i: nat)
    requires Capturable(source) && Retained(sha, source, m, files) && Fruitful(source, m, page) && i < |page.records|
    ensures IsSound(m, page, i) && FitsTotal(m, page, i)
  {
    hide Retained, Less, IsSound, FitsTotal, Bytes;
    NextIs(sha, source, m, files);
    RetainedBytes(sha, source, m, files);
    SourceBound(sha, source, m, files);
    NextIsSound(source, m, page, i);
    NextFits(source, m, page, i);
  }

  lemma NextIsSound(source: seq<Yield>, m: Capture.Manifest, page: Page, i: nat)
    requires Capturable(source) && m.sourceCount <= |source| && page.records <= source[m.sourceCount..] && i < |page.records|
    requires m.cursor == if m.sourceCount == 0 then None else Some(source[m.sourceCount - 1].cursor)
    ensures IsSound(m, page, i)
  {
    hide Less, Bytes;
    var rest := source[m.sourceCount..];
    assert page.records[i] == rest[i] && (i > 0 ==> page.records[i - 1] == rest[i - 1]);
  }

  lemma NextFits(source: seq<Yield>, m: Capture.Manifest, page: Page, i: nat)
    requires Capturable(source) && m.sourceCount <= |source| && page.records <= source[m.sourceCount..] && i < |page.records|
    requires m.canonicalBytes == Bytes(source, m.sourceCount)
    ensures FitsTotal(m, page, i)
  {
    hide Less, Bytes;
    var rest := source[m.sourceCount..];
    BytesOfPrefix(page.records, rest, i + 1);
    BytesOfSlice(source, m.sourceCount, i + 1);
    BytesGrow(source, m.sourceCount + i + 1, |source|);
  }

  lemma SourceBound(sha: Hash, source: seq<Yield>, m: Capture.Manifest, files: Disk)
    requires Retained(sha, source, m, files)
    ensures m.sourceCount <= |source|
  {}

  lemma {:induction false} FindStop(m: Capture.Manifest, page: Page, i: nat) returns (k: nat)
    requires page.failsAt.None? && !page.closeFails && i <= |page.records|
    requires forall j :: 0 <= j < |page.records| ==> IsSound(m, page, j) && FitsTotal(m, page, j)
    requires forall j :: 0 <= j < i ==> FitsPart(page, j)
    ensures StopsAt(m, page, k)
    decreases |page.records| - i
  {
    hide IsSound, FitsPart, FitsTotal;
    k := i;
    if i < |page.records| && FitsPart(page, i) {
      k := FindStop(m, page, i + 1);
    }
  }

  /** A clean step on a capturable source returns: it completes the capture or retains at least one record more. */
  lemma CleanStepGains(sha: Hash, source: seq<Yield>, w: World, call: AdvanceCall)
    requires Capturable(source) && Retains(sha, source, w) && Read(w).value.phase.Building? && IsCleanCall(sha, source, w, call)
    ensures var r, m := Advance(sha, w, call), Read(w).value;
      && r.outcome.Returned? && Read(r.w) == Some(r.outcome.m) && Retains(sha, source, r.w)
      && (r.outcome.m.phase.SourceComplete? || r.outcome.m.sourceCount > m.sourceCount)
      && r.outcome.m.plan == m.plan && r.outcome.m.planFailed == m.planFailed && r.outcome.m.planInProgress == m.planInProgress
      && (r.outcome.m.phase.SourceComplete? ==> r.outcome.m.retryNotBefore == 0)
  {
    hide Retained, IsTaken, Advance, Unopposed, IsSound, FitsTotal, StopsAt, Bytes;
    var m, page := Read(w).value, call.fetch.value;
    forall j | 0 <= j < |page.records|
      ensures IsSound(m, page, j) && FitsTotal(m, page, j)
    {
      PageIsSound(sha, source, m, page, w.files, j);
    }
    var k := FindStop(m, page, 0);
    NoEmptyStop(m, page, k);
    CleanStep(sha, w, call, page, k);
    AdvanceRetains(sha, source, w, call);
    StopIsWithin(m, page, k);
  }

  lemma StopIsWithin(m: Capture.Manifest, page: Page, k: nat)
    requires StopsAt(m, page, k)
    ensures k <= |page.records|
  {}

  /** All events of a run are clean steps on a source. */
  ghost predicate IsCleanRun(sha: Hash, source: seq<Yield>, o: Owner, events: seq<Event>) {
    if events == [] then true
    else
      var before, last := events[..|events| - 1], events[|events| - 1];
      IsCleanRun(sha, source, o, before) && last.Advancing? && IsCleanCall(sha, source, Run(sha, o, before).w, last.a)
  }

  lemma CompleteStays(sha: Hash, w: World, call: AdvanceCall)
    requires Read(w).Some? && Read(w).value.phase.SourceComplete?
    ensures Advance(sha, w, call).w == w && !Advance(sha, w, call).outcome.Unresolved?
  {
    hide Accepted;
  }

  lemma {:induction false} CleanRunGains(sha: Hash, source: seq<Yield>, o: Owner, events: seq<Event>)
    requires Capturable(source) && Retains(sha, source, o.w) && !o.unresolved && IsCleanRun(sha, source, o, events)
    ensures var p := Run(sha, o, events);
      && !p.unresolved && Retains(sha, source, p.w)
      && (Read(p.w).value.phase.SourceComplete? || Read(p.w).value.sourceCount >= Read(o.w).value.sourceCount + |events|)
      && Read(p.w).value.plan == Read(o.w).value.plan && Read(p.w).value.planFailed == Read(o.w).value.planFailed
      && Read(p.w).value.planInProgress == Read(o.w).value.planInProgress
      && (Read(p.w).value.phase.SourceComplete? && Read(o.w).value.phase.Building? ==> Read(p.w).value.retryNotBefore == 0)
    decreases |events|
  {
    hide Retained, Advance, IsCleanCall, Read;
    if events != [] {
      var before, last := events[..|events| - 1], events[|events| - 1];
      CleanRunGains(sha, source, o, before);
      var p := Run(sha, o, before);
      if Read(p.w).value.phase.Building? {
        CleanStepGains(sha, source, p.w, last.a);
      } else {
        CompleteStays(sha, p.w, last.a);
      }
    }
  }

  /**
    From wherever a capture of a source has got to, whatever had failed before: as many clean steps as
    records remain, and one more, complete it with all records of the source retained.
   */
  lemma CleanStepsComplete(sha: Hash, source: seq<Yield>, o: Owner, events: seq<Event>)
    requires Capturable(source) && Retains(sha, source, o.w) && !o.unresolved && IsCleanRun(sha, source, o, events)
    requires |events| > |source| - Read(o.w).value.sourceCount
    ensures var p := Run(sha, o, events);
      Retains(sha, source, p.w) && Read(p.w).value.phase.SourceComplete? && Read(p.w).value.sourceCount == |source|
  {
    hide Read, Run, IsCleanRun;
    CleanRunGains(sha, source, o, events);
    RetainsBound(sha, source, Run(sha, o, events).w);
  }

  // --------------------------------------------------------------- a plan is recorded

  /**
    Once the hash passes run and the result can be saved, the directory holds it: the plan they yielded,
    bound to the manifest it was made from, or the failure when they yielded none.
   */
  lemma PlanIsRecorded(w: World, call: PlanCall)
    requires Readable(w) && Hashes(w, call) && call.save.Clean?
    ensures var r, m := Finalize(w, call), Read(w).value;
      && r.w.files == w.files && Read(r.w).Some?
      && var n := Read(r.w).value;
         && !n.planInProgress && n == m.(planInProgress := false, planFailed := n.planFailed, plan := n.plan)
         && match call.hashed
            case Some(planned) =>
              && n.plan == Some(Bound(planned, Inputs(m.parts, m.sourceCount, m.itemCount, m.withdrawalCount, m.canonicalBytes, m.segment)))
              && !n.planFailed && r.outcome == Returned(n)
            case None => n.plan.None? && n.planFailed && r.outcome.Raised?
  {
    hide Accepted, Recover;
    FinalizeKeeps(w, call);
  }

  /** Planning starts exactly on a complete capture that has no plan on record, finished, failed or begun, and no retry pending. */
  lemma PlanningStarts(w: World, call: PlanCall)
    requires Readable(w)
    ensures Hashes(w, call) <==>
      var m := Read(w).value;
      && m.phase.SourceComplete? && m.plan.None? && !m.planFailed && !m.planInProgress && m.retryNotBefore <= call.now
      && (call.start.Clean?)
    ensures !Hashes(w, call) && StatusOf(call.start) == Done ==> Finalize(w, call).w == w
  {
    hide Accepted, Recover, Finish;
  }

  /**
    What reading a manifest has checked: every part lies in the directory under the name of its number and
    digest with its size, the cursors chain, counts and bytes are bounded and add up, and the parts after a
    reader segment, and only these, carry its mark.
   */
  lemma ReadIsSound(w: World)
    requires w.manifest.Some? && Read(w).Some?
    ensures var m := Read(w).value;
      && m == w.manifest.value && m.canonicalBytes <= 256 * 1024 * 1024
      && (forall i :: 0 <= i < |m.parts| ==> IsSoundPart(m, i, w.files))
      && m.sourceCount == Sum(m.parts, SOURCE) && m.itemCount == Sum(m.parts, ITEMS)
      && m.withdrawalCount == Sum(m.parts, WITHDRAWALS) && m.canonicalBytes == Sum(m.parts, BYTES)
      && m.cursor == (if m.parts == [] then None else Some(m.parts[|m.parts| - 1].cursor))
      && (m.segment.Some? ==>
            && 1 <= m.segment.value.prefixPartCount <= |m.parts|
            && m.segment.value.prefix == m.parts[..m.segment.value.prefixPartCount])
  {
    hide Sum, PartName;
    var m := Read(w).value;
    forall i | 0 <= i < |m.parts|
      ensures IsSoundPart(m, i, w.files)
    {
      assert PartAccepted(m.parts, i, w.files);
      assert i > 0 ==> m.parts[..i][i - 1] == m.parts[i - 1];
    }
  }

  predicate IsSoundPart(m: Capture.Manifest, i: nat, files: Disk)
    requires i < |m.parts|
  {
    var p := m.parts[i];
    && p.stored.name == PartName(i, p.stored.sha) && p.stored.name in files && |files[p.stored.name]| == p.stored.bytes
    && p.after == (if i == 0 then None else Some(m.parts[i - 1].cursor))
    && 1 <= p.stored.sourceCount <= 128 && 0 < p.stored.bytes <= 4 * 1024 * 1024
    && p.stored.sourceCount == p.itemCount + p.withdrawalCount
    && p.segment == (if m.segment.Some? && i >= m.segment.value.prefixPartCount then m.segment else None)
  }
}
