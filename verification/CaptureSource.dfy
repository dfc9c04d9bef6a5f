/**
  Capturing one fixed source: the retained records are exactly its leading records, every step moves
  forward, and a complete capture is what the planner needs.
 */
module CaptureSource {
  import opened Text
  import opened Sorting
  import opened Values
  import opened Json
  import opened Projection
  import opened Planner
  import opened Scan
  import opened Plan
  import opened PlanReader
  import opened Capture
  import opened CaptureRuns

  // ---------------------------------------------------------------- the source reader

  /** The source lists its records in strictly increasing cursor order. */
  ghost predicate InCursorOrder(source: seq<Yield>) {
    forall i, j :: 0 <= i < j < |source| ==> Less(source[i].cursor, source[j].cursor)
  }

  /** The records of the source that come after a cursor. */
  function Following(source: seq<Yield>, cursor: Option<Cursor>): seq<Yield> {
    if cursor.None? || source == [] || Less(cursor.value, source[0].cursor) then source
    else Following(source[1..], cursor)
  }

  /** An honest page holds the next records, and says so truthfully when there are no more. */
  ghost predicate Honest(source: seq<Yield>, m: Capture.Manifest, fetch: Fetch) {
    fetch.Some? ==>
      && fetch.value.records <= Following(source, m.cursor)
      && (!fetch.value.hasMore ==> fetch.value.records == Following(source, m.cursor))
  }

  lemma {:induction false} FollowingIs(source: seq<Yield>, n: nat)
    requires InCursorOrder(source) && 0 < n <= |source|
    ensures Following(source, Some(source[n - 1].cursor)) == source[n..]
    decreases n
  {
    hide Less;
    var c := source[n - 1].cursor;
    assert !Less(c, source[0].cursor) by {
      LessAsymmetric(c, source[0].cursor);
      assert n > 1 ==> Less(source[0].cursor, c);
    }
    if n == 1 {
      assert source[1..] != [] ==> Less(c, source[1].cursor);
    } else {
      FollowingIs(source[1..], n - 1);
      assert source[1..][n - 1..] == source[n..];
    }
  }

  // ------------------------------------------------------------- what has been retained

  function Count(parts: seq<Part>, k: nat): nat
    requires k <= |parts|
  {
    Sum(parts[..k], SOURCE)
  }

  lemma CountStep(parts: seq<Part>, k: nat)
    requires k < |parts|
    ensures Count(parts, k + 1) == Count(parts, k) + parts[k].stored.sourceCount
  {
    assert parts[..k + 1] == parts[..k] + [parts[k]];
    SumAppend(parts[..k], parts[k], SOURCE);
  }

  /** The file of a part holds the source's records of its turn, and nothing else. */
  ghost predicate PartRetains(sha: Hash, source: seq<Yield>, parts: seq<Part>, i: nat, files: Disk)
    requires i < |parts|
  {
    var a, b, s := Count(parts, i), Count(parts, i + 1), parts[i].stored;
    && a < b <= |source|
    && s.name in files && files[s.name] == Concat(LinesOf(source[a..b])) && s.sha == sha(files[s.name])
    && parts[i].withdrawalCount == Withdrawals(source[a..b])
    && parts[i].cursor == source[b - 1].cursor
    && forall k :: a <= k < b ==> source[k].wellFormed
  }

  ghost predicate Retained(sha: Hash, source: seq<Yield>, m: Capture.Manifest, files: Disk) {
    && Accepted(m, files) && m.sourceCount <= |source|
    && (forall i :: 0 <= i < |m.parts| ==> PartRetains(sha, source, m.parts, i, files))
    && (m.phase.SourceComplete? ==> m.sourceCount == |source|)
  }

  /** The directory retains exactly the first `sourceCount` records of the source. */
  ghost predicate Retains(sha: Hash, source: seq<Yield>, w: World) {
    Readable(w) && Retained(sha, source, Read(w).value, w.files)
  }

  lemma EmptyRetains(sha: Hash, source: seq<Yield>, files: Disk)
    ensures Retains(sha, source, World(None, files))
  {
    InitialAccepted(files);
  }

  lemma RetainedStays(sha: Hash, source: seq<Yield>, m: Capture.Manifest, n: Capture.Manifest, files: Disk, more: Disk)
    requires Retained(sha, source, m, files) && SameLedger(m, n) && n.phase == m.phase
    requires forall name :: name in files ==> name in more && more[name] == files[name]
    ensures Retained(sha, source, n, more)
  {
    hide Accepted, Sum, Withdrawals;
    AcceptedStays(m, n, files, more);
    forall i | 0 <= i < |n.parts|
      ensures PartRetains(sha, source, n.parts, i, more)
    {
      assert PartRetains(sha, source, m.parts, i, files);
    }
    CountsAgree(m, n, files);
  }

  lemma CountsAgree(m: Capture.Manifest, n: Capture.Manifest, files: Disk)
    requires Accepted(m, files) && SameLedger(m, n)
    ensures n.sourceCount == m.sourceCount
  {}

  lemma SaveRetains(sha: Hash, source: seq<Yield>, w: World, m: Capture.Manifest, f: Fault)
    requires Retains(sha, source, w) && Retained(sha, source, m, w.files)
    ensures Retains(sha, source, Saved(w, m, f))
  {}

  lemma RecoverRetains(sha: Hash, source: seq<Yield>, w: World, now: int, f: Fault)
    requires Retains(sha, source, w)
    ensures Retains(sha, source, Recover(w, now, f).w)
  {
    hide Accepted, Retained;
    var m := Read(w).value;
    RetainedStays(sha, source, m, Failing(m, now), w.files, w.files);
    SaveRetains(sha, source, w, Failing(m, now), f);
  }

  lemma FinishRetains(sha: Hash, source: seq<Yield>, w: World, m: Capture.Manifest, now: int, f: Fault, recover: Fault, done: Outcome)
    requires Retains(sha, source, w) && Retained(sha, source, m, w.files)
    ensures Retains(sha, source, Finish(w, m, now, f, recover, done).w)
  {
    hide Accepted, Retained, Recover;
    SaveRetains(sha, source, w, m, f);
    if StatusOf(f) == Error { RecoverRetains(sha, source, Saved(w, m, f), now, recover); }
  }

  // ------------------------------------------------------------------ a page extends it

  /** What an honest page yields next is the next slice of the source. */
  lemma PageIsNextSlice(sha: Hash, source: seq<Yield>, m: Capture.Manifest, page: Page, g: Gathered, files: Disk)
    requires InCursorOrder(source) && Retained(sha, source, m, files) && Honest(source, m, Some(page)) && GatheredFrom(m, page, g)
    ensures m.sourceCount + g.taken <= |source| && page.records[..g.taken] == source[m.sourceCount..m.sourceCount + g.taken]
    ensures g.taken == |page.records| && !page.hasMore ==> m.sourceCount + g.taken == |source|
  {
    hide Accepted, Sum, Withdrawals, Less;
    var n := |m.parts|;
    AcceptedCounts(m, files);
    if n > 0 {
      assert PartRetains(sha, source, m.parts, n - 1, files);
      assert m.parts[..n] == m.parts;
      FollowingIs(source, m.sourceCount);
    }
    assert Following(source, m.cursor) == source[m.sourceCount..];
    var rest := source[m.sourceCount..];
    assert page.records[..g.taken] == rest[..g.taken];
  }

  lemma AcceptedCounts(m: Capture.Manifest, files: Disk)
    requires Accepted(m, files)
    ensures m.sourceCount == Count(m.parts, |m.parts|) && m.cursor == LastCursor(m.parts)
    ensures m.parts == [] ==> m.sourceCount == 0
  {
    assert m.parts[..|m.parts|] == m.parts;
  }

  lemma ExtendedRetained(sha: Hash, source: seq<Yield>, m: Capture.Manifest, page: Page, g: Gathered, complete: bool, files: Disk)
    requires InCursorOrder(source) && Retained(sha, source, m, files) && Honest(source, m, Some(page)) && GatheredFrom(m, page, g)
    requires complete ==> g.taken == |page.records| && !page.hasMore
    requires m.phase.Building?
    requires g.taken > 0 ==> var name := PartName(|m.parts|, sha(g.content)); name in files && files[name] == g.content
    ensures Retained(sha, source, Extended(sha, m, g, complete), files)
  {
    hide Accepted, Sum, Withdrawals, PartName, PartRetains, Honest, GatheredFrom;
    GatheredBounds(m, page, g);
    var n := Extended(sha, m, g, complete);
    PageIsNextSlice(sha, source, m, page, g, files);
    ExtendedAccepted(sha, m, page, g, complete, files);
    forall i | 0 <= i < |n.parts|
      ensures PartRetains(sha, source, n.parts, i, files)
    {
      assert i < |m.parts| ==> PartRetains(sha, source, m.parts, i, files);
      if i < |m.parts| { EarlierPartRetains(sha, source, m.parts, n.parts, i, files); }
      else { NewPartRetains(sha, source, m, page, g, complete, files); }
    }
  }

  lemma GatheredBounds(m: Capture.Manifest, page: Page, g: Gathered)
    requires GatheredFrom(m, page, g)
    ensures g.withdrawals <= g.taken && (g.taken > 0 ==> g.cursor.Some?)
  {
    hide Withdrawals;
  }

  lemma EarlierPartRetains(sha: Hash, source: seq<Yield>, parts: seq<Part>, longer: seq<Part>, i: nat, files: Disk)
    requires i < |parts| && parts <= longer && PartRetains(sha, source, parts, i, files)
    ensures PartRetains(sha, source, longer, i, files)
  {
    assert longer[..i] == parts[..i] && longer[..i + 1] == parts[..i + 1];
  }

  lemma NewPartRetains(sha: Hash, source: seq<Yield>, m: Capture.Manifest, page: Page, g: Gathered, complete: bool, files: Disk)
    requires Accepted(m, files) && GatheredFrom(m, page, g) && g.taken > 0 && m.sourceCount + g.taken <= |source|
    requires page.records[..g.taken] == source[m.sourceCount..m.sourceCount + g.taken]
    requires var name := PartName(|m.parts|, sha(g.content)); name in files && files[name] == g.content
    ensures g.withdrawals <= g.taken && g.cursor.Some?
    ensures PartRetains(sha, source, Extended(sha, m, g, complete).parts, |m.parts|, files)
  {
    hide Accepted, Sum, Withdrawals, PartName;
    var parts := Extended(sha, m, g, complete).parts;
    AcceptedCounts(m, files);
    CountStep(parts, |m.parts|);
    assert parts[..|m.parts|] == m.parts[..|m.parts|];
    assert page.records[..g.taken][g.taken - 1] == source[m.sourceCount..m.sourceCount + g.taken][g.taken - 1];
    forall k | m.sourceCount <= k < m.sourceCount + g.taken
      ensures source[k].wellFormed
    {
      assert page.records[..g.taken][k - m.sourceCount] == source[m.sourceCount..m.sourceCount + g.taken][k - m.sourceCount];
    }
  }

  // ---------------------------------------------------------------- every step, every run

  lemma AdvanceRetains(sha: Hash, source: seq<Yield>, w: World, call: AdvanceCall)
    requires InCursorOrder(source) && Retains(sha, source, w) && Honest(source, Read(w).value, call.fetch)
    ensures Retains(sha, source, Advance(sha, w, call).w)
  {
    hide Accepted, Retained, Recover, AdvanceOpen, Honest;
    var m := Read(w).value;
    if m.phase.Building? {
      if w.manifest.Some? {
        OpenRetains(sha, source, w, m, call);
      } else {
        SaveRetains(sha, source, w, m, call.first);
        var v := Saved(w, m, call.first);
        RecoverRetains(sha, source, v, call.now, call.recover);
        if StatusOf(call.first) == Done { OpenRetains(sha, source, v, m, call); }
      }
    }
  }

  lemma OpenRetains(sha: Hash, source: seq<Yield>, w: World, m: Capture.Manifest, call: AdvanceCall)
    requires InCursorOrder(source) && Retains(sha, source, w) && Read(w).value == m && m.phase.Building?
    requires Honest(source, m, call.fetch)
    ensures Retains(sha, source, AdvanceOpen(sha, w, m, call).w)
  {
    hide Accepted, Retained, Recover, Finish, Honest, GatheredFrom, Collect;
    RetainedStays(sha, source, m, Failing(m, call.now), w.files, w.files);
    FinishRetains(sha, source, w, Failing(m, call.now), call.now, call.second, call.recover, Raised);
    if call.fetch.Some? {
      CollectedIsGathered(m, call.fetch.value);
      var c := CollectPage(m, call.fetch);
      if c.Collected? { CommitRetains(sha, source, w, m, call.fetch.value, c.g, c.complete, call); }
    }
  }

  lemma CommitRetains(sha: Hash, source: seq<Yield>, w: World, m: Capture.Manifest, page: Page, g: Gathered, complete: bool, call: AdvanceCall)
    requires InCursorOrder(source) && Retains(sha, source, w) && Read(w).value == m && m.phase.Building?
    requires Honest(source, m, Some(page)) && GatheredFrom(m, page, g)
    requires complete ==> g.taken == |page.records| && !page.hasMore
    ensures g.withdrawals <= g.taken && (g.taken > 0 ==> g.cursor.Some?)
    ensures Retains(sha, source, AdvanceCollected(sha, w, m, Collected(g, complete), call).w)
  {
    hide Accepted, Retained, Recover, Finish, Honest, GatheredFrom, PartName, Extended;
    GatheredBounds(m, page, g);
    if g.taken == 0 {
      ExtendedRetained(sha, source, m, page, g, complete, w.files);
      var n := Extended(sha, m, g, complete);
      FinishRetains(sha, source, w, n, call.now, call.third, call.recover, Returned(n));
    } else {
      var name := PartName(|m.parts|, sha(g.content));
      var v := PartWritten(w, name, g.content, call.second);
      PartWriteRetains(sha, source, w, m, name, g.content, call.second);
      RecoverRetains(sha, source, v, call.now, call.recover);
      if PartStatus(w, name, g.content, call.second) == Done {
        ExtendedRetained(sha, source, m, page, g, complete, v.files);
        var n := Extended(sha, m, g, complete);
        FinishRetains(sha, source, v, n, call.now, call.third, call.recover, Returned(n));
      }
    }
  }

  lemma PartWriteRetains(sha: Hash, source: seq<Yield>, w: World, m: Capture.Manifest, name: string, raw: Bytes, f: Fault)
    requires Retains(sha, source, w) && Read(w).value == m
    ensures var v := PartWritten(w, name, raw, f);
      && Retains(sha, source, v) && Retained(sha, source, m, v.files)
      && (PartStatus(w, name, raw, f) == Done ==> name in v.files && v.files[name] == raw)
  {
    hide Accepted;
    var v := PartWritten(w, name, raw, f);
    RetainedStays(sha, source, m, m, w.files, v.files);
  }

  lemma DeriveRetains(sha: Hash, source: seq<Yield>, w: World, call: DeriveCall)
    requires Retains(sha, source, w)
    ensures Retains(sha, source, Derive(w, call).w)
  {
    hide Accepted, PartRetains, Recover, Finish, SegmentAccepted;
    var m := Read(w).value;
    var s := NewSegment(m, call);
    if m.segment.None? && call.part in s.prefix && call.producer != "" {
      var n := m.(derived := true, segment := Some(s));
      FenceRises(m, call, w.files);
      FinishRetains(sha, source, w, n, call.now, call.save, call.recover, Returned(n));
    }
  }

  lemma FinalizeRetains(sha: Hash, source: seq<Yield>, w: World, call: PlanCall)
    requires Retains(sha, source, w)
    ensures Retains(sha, source, Finalize(w, call).w)
  {
    hide Accepted, Retained, Recover, Finish;
    var m := Read(w).value;
    var started := m.(planInProgress := true);
    RetainedStays(sha, source, m, started, w.files, w.files);
    SaveRetains(sha, source, w, started, call.start);
    var v := Saved(w, started, call.start);
    RecoverRetains(sha, source, v, call.now, call.recover);
    var ended := started.(planInProgress := false, plan := BoundTo(m, call.hashed), planFailed := call.hashed.None?);
    var done := if call.hashed.Some? then Returned(ended) else Raised;
    RetainedStays(sha, source, m, ended, w.files, w.files);
    FinishRetains(sha, source, v, ended, call.now, call.save, call.recover, done);
  }

  /** Every page read during the run was an honest page of this source. */
  ghost predicate HonestRun(sha: Hash, source: seq<Yield>, o: Owner, events: seq<Event>) {
    if events == [] then true
    else
      var before, last := events[..|events| - 1], events[|events| - 1];
      && HonestRun(sha, source, o, before)
      && (last.Advancing? && Read(Run(sha, o, before).w).Some? ==> Honest(source, Read(Run(sha, o, before).w).value, last.a.fetch))
  }

  /**
    Over every run the directory retains exactly the leading records of the source, nothing skipped
    and nothing twice, and a capture that calls itself complete retains them all.
   */
  lemma {:induction false} EveryRunRetains(sha: Hash, source: seq<Yield>, o: Owner, events: seq<Event>)
    requires InCursorOrder(source) && Retains(sha, source, o.w) && HonestRun(sha, source, o, events)
    ensures Retains(sha, source, Run(sha, o, events).w)
    decreases |events|
  {
    hide Advance, Derive, Finalize, Retains, Honest, Read;
    if events != [] {
      var before, last := events[..|events| - 1], events[|events| - 1];
      EveryRunRetains(sha, source, o, before);
      var p := Run(sha, o, before);
      RetainsReads(sha, source, p.w);
      match last
      case Advancing(a) => AdvanceRetains(sha, source, p.w, a);
      case Deriving(d) => DeriveRetains(sha, source, p.w, d);
      case Planning(q) => FinalizeRetains(sha, source, p.w, q);
      case Restart =>
    }
  }

  /** So does every run that starts with no manifest, whatever files lie in the directory. */
  lemma EveryCaptureRetains(sha: Hash, source: seq<Yield>, files: Disk, events: seq<Event>)
    requires InCursorOrder(source) && HonestRun(sha, source, Owner(World(None, files), false), events)
    ensures Retains(sha, source, Run(sha, Owner(World(None, files), false), events).w)
  {
    hide Retains, HonestRun, Run;
    EmptyRetains(sha, source, files);
    EveryRunRetains(sha, source, Owner(World(None, files), false), events);
  }

  lemma RetainsReads(sha: Hash, source: seq<Yield>, w: World)
    requires Retains(sha, source, w)
    ensures Read(w).Some?
  {}

  // ---------------------------------------------------------------------------- progress

  /** A call that does not return early because the capture is complete or backing off. */
  predicate TakesStep(m: Capture.Manifest, call: AdvanceCall) {
    m.phase.Building? && m.retryNotBefore <= call.now && call.producer == ProducerOf(m)
  }

  /** A step that returns has saved what it returns, and either completed the source or retained more of it. */
  lemma StepsMakeProgress(sha: Hash, source: seq<Yield>, w: World, call: AdvanceCall)
    requires InCursorOrder(source) && Retains(sha, source, w) && Honest(source, Read(w).value, call.fetch)
    requires TakesStep(Read(w).value, call) && Advance(sha, w, call).outcome.Returned?
    ensures var n, m := Advance(sha, w, call).outcome.m, Read(w).value;
      && Read(Advance(sha, w, call).w) == Some(n)
      && m.parts <= n.parts && n.sourceCount <= |source|
      && (n.phase.Building? ==> |source| - n.sourceCount < |source| - m.sourceCount)
      && (n.phase.SourceComplete? ==> n.sourceCount == |source|)
  {
    hide Accepted, Retained, Recover, AdvanceOpen, Honest;
    AdvanceRetains(sha, source, w, call);
    var m := Read(w).value;
    var v := if w.manifest.Some? then w else Saved(w, m, call.first);
    SaveRetains(sha, source, w, m, call.first);
    RecoverNeverReturns(v, call.now, call.recover);
    OpenProgresses(sha, source, v, m, call);
    RetainsBound(sha, source, Advance(sha, w, call).w);
  }

  lemma RetainsBound(sha: Hash, source: seq<Yield>, w: World)
    requires Retains(sha, source, w)
    ensures Read(w).value.sourceCount <= |source| && (Read(w).value.phase.SourceComplete? ==> Read(w).value.sourceCount == |source|)
  {}

  lemma RecoverNeverReturns(w: World, now: int, f: Fault)
    ensures !Recover(w, now, f).outcome.Returned?
  {}

  lemma OpenProgresses(sha: Hash, source: seq<Yield>, w: World, m: Capture.Manifest, call: AdvanceCall)
    requires Retains(sha, source, w) && Read(w) == Some(m) && AdvanceOpen(sha, w, m, call).outcome.Returned?
    ensures var r := AdvanceOpen(sha, w, m, call);
      && r.w.manifest == Some(r.outcome.m) && m.parts <= r.outcome.m.parts
      && (r.outcome.m.phase.Building? ==> r.outcome.m.sourceCount > m.sourceCount)
  {
    hide Accepted, Retained, Recover, Collect, PartName;
    var c := CollectPage(m, call.fetch);
    if call.fetch.Some? { CollectIsSound(m.canonicalBytes, call.fetch.value, Gathered([], m.cursor, 0, 0)); }
    if c.Collected? && c.g.taken > 0 {
      var name := PartName(|m.parts|, sha(c.g.content));
      RecoverNeverReturns(PartWritten(w, name, c.g.content, call.second), call.now, call.recover);
      FinishReturns(PartWritten(w, name, c.g.content, call.second), Extended(sha, m, c.g, c.complete), call);
    } else if c.Collected? {
      FinishReturns(w, Extended(sha, m, c.g, c.complete), call);
    } else {
      RecoverNeverReturns(Saved(w, Failing(m, call.now), call.second), call.now, call.recover);
    }
  }

  lemma FinishReturns(w: World, m: Capture.Manifest, call: AdvanceCall)
    ensures var r := Finish(w, m, call.now, call.third, call.recover, Returned(m));
      r.outcome.Returned? ==> r.w.manifest == Some(m) && r.outcome.m == m
  {
    RecoverNeverReturns(Saved(w, m, call.third), call.now, call.recover);
  }

  // ----------------------------------------------------- a complete capture can be planned

  /** The source's records as a reader of these rows yields them. */
  ghost predicate YieldsRows(rt: Runtime, rows: seq<SourceRow>, source: seq<Yield>) {
    |source| == |rows| && forall i :: 0 <= i < |rows| ==>
      source[i].line == Line(rt.f, Record(rt, rows[i])) && source[i].isWithdrawal == Excludes(rows[i].entries)
  }

  function StoredOf(parts: seq<Part>): (r: seq<Stored>)
    ensures |r| == |parts| && forall i :: 0 <= i < |parts| ==> r[i] == parts[i].stored
  {
    seq(|parts|, i requires 0 <= i < |parts| => parts[i].stored)
  }

  function ChunksOf(rt: Runtime, rows: seq<SourceRow>, parts: seq<Part>): (r: seq<seq<Value>>)
    requires Count(parts, |parts|) <= |rows|
    ensures |r| == |parts|
    decreases |parts|
  {
    if parts == [] then []
    else
      var n := |parts| - 1;
      CountOfPrefix(parts, n);
      ChunksOf(rt, rows, parts[..n]) + [Records(rt, rows)[Count(parts, n)..Count(parts, n + 1)]]
  }

  lemma CountOfPrefix(parts: seq<Part>, n: nat)
    requires n < |parts|
    ensures Count(parts[..n], |parts[..n]|) == Count(parts, n) <= Count(parts, n + 1)
    ensures n == |parts| - 1 ==> Count(parts, n + 1) == Count(parts, |parts|)
  {
    hide Sum;
    assert parts[..n][..n] == parts[..n];
    CountStep(parts, n);
  }

  lemma {:induction false} ChunksConcat(rt: Runtime, rows: seq<SourceRow>, parts: seq<Part>)
    requires Count(parts, |parts|) <= |rows|
    ensures Concat(ChunksOf(rt, rows, parts)) == Records(rt, rows)[..Count(parts, |parts|)]
    decreases |parts|
  {
    hide Sum, Count, Records;
    if parts == [] {
      EmptyCount();
    } else {
      var n := |parts| - 1;
      CountOfPrefix(parts, n);
      ChunksConcat(rt, rows, parts[..n]);
      NextChunk(Records(rt, rows), Count(parts, n), Count(parts, n + 1), ChunksOf(rt, rows, parts[..n]));
    }
  }

  lemma NextChunk(all: seq<Value>, a: nat, b: nat, chunks: seq<seq<Value>>)
    requires a <= b <= |all| && Concat(chunks) == all[..a]
    ensures Concat(chunks + [all[a..b]]) == all[..b]
  {
    hide Concat;
    ConcatAppend(chunks, [all[a..b]]);
    ConcatOne(all[a..b]);
    assert all[..a] + all[a..b] == all[..b];
  }

  lemma EmptyCount()
    ensures Count([], 0) == 0
  {
    var none: seq<Part> := [];
    assert none[..0] == [];
  }

  lemma {:induction false} ChunkAt(rt: Runtime, rows: seq<SourceRow>, parts: seq<Part>, i: nat)
    requires i < |parts| && Count(parts, |parts|) <= |rows|
    ensures Count(parts, i) <= Count(parts, i + 1) <= |rows|
    ensures ChunksOf(rt, rows, parts)[i] == Records(rt, rows)[Count(parts, i)..Count(parts, i + 1)]
    decreases |parts|
  {
    hide Sum;
    var n := |parts| - 1;
    CountOfPrefix(parts, n);
    if i < n {
      ChunkAt(rt, rows, parts[..n], i);
      assert parts[..n][..i] == parts[..i] && parts[..n][..i + 1] == parts[..i + 1];
    }
  }

  lemma SliceLines(rt: Runtime, rows: seq<SourceRow>, source: seq<Yield>, a: nat, b: nat)
    requires YieldsRows(rt, rows, source) && a <= b <= |rows|
    ensures LinesOf(source[a..b]) == Lines(rt.f, Records(rt, rows)[a..b])
  {
    hide Record, Excludes, Line;
  }

  lemma {:induction false} VisibleCount(rt: Runtime, rows: seq<SourceRow>, source: seq<Yield>)
    requires YieldsRows(rt, rows, source)
    ensures |Visible(rows)| + Withdrawals(source) == |rows| && |Withdrawn(rows)| == Withdrawals(source)
    decreases |rows|
  {
    hide Record, Excludes, Line;
    if rows != [] {
      var n := |rows| - 1;
      VisibleCount(rt, rows[..n], source[..n]);
      VisibleAppend(rows[..n], rows[n]);
      assert rows[..n] + [rows[n]] == rows;
    }
  }

  lemma {:induction false} WithdrawalsConcat(a: seq<Yield>, b: seq<Yield>)
    ensures Withdrawals(a + b) == Withdrawals(a) + Withdrawals(b)
    decreases |b|
  {
    if b == [] {
      assert a + b == a;
    } else {
      assert (a + b)[..|a + b| - 1] == a + b[..|b| - 1];
      WithdrawalsConcat(a, b[..|b| - 1]);
    }
  }

  lemma {:induction false} WithdrawalsOfParts(sha: Hash, source: seq<Yield>, parts: seq<Part>, k: nat, files: Disk)
    requires k <= |parts| && forall i :: 0 <= i < k ==> PartRetains(sha, source, parts, i, files)
    ensures Count(parts, k) <= |source| && Sum(parts[..k], WITHDRAWALS) == Withdrawals(source[..Count(parts, k)])
    decreases k
  {
    hide Sum, Withdrawals, LinesOf;
    if k == 0 {
      NoWithdrawals(source, parts);
    } else {
      WithdrawalsOfParts(sha, source, parts, k - 1, files);
      assert PartRetains(sha, source, parts, k - 1, files);
      assert parts[..k] == parts[..k - 1] + [parts[k - 1]];
      SumAppend(parts[..k - 1], parts[k - 1], WITHDRAWALS);
      var a, b := Count(parts, k - 1), Count(parts, k);
      assert source[..b] == source[..a] + source[a..b];
      WithdrawalsConcat(source[..a], source[a..b]);
    }
  }

  lemma NoWithdrawals(source: seq<Yield>, parts: seq<Part>)
    ensures Count(parts, 0) == 0 && Sum(parts[..0], WITHDRAWALS) == 0 && Withdrawals(source[..0]) == 0
  {}

  lemma {:induction false} SumsAddUp(parts: seq<Part>, k: nat, files: Disk)
    requires k <= |parts| && forall i :: 0 <= i < k ==> PartAccepted(parts, i, files)
    ensures Sum(parts[..k], SOURCE) == Sum(parts[..k], ITEMS) + Sum(parts[..k], WITHDRAWALS)
    ensures Sum(parts[..k], BYTES) == TotalBytes(StoredOf(parts[..k]))
    decreases k
  {
    if k > 0 {
      SumsAddUp(parts, k - 1, files);
      assert PartAccepted(parts, k - 1, files);
      assert parts[..k][..k - 1] == parts[..k - 1];
      assert StoredOf(parts[..k])[..k - 1] == StoredOf(parts[..k - 1]);
    }
  }

  /** A complete capture of rows is a captured source in the planner's sense, cut wherever its parts were cut. */
  lemma CompleteCaptureIsCaptured(rt: Runtime, rows: seq<SourceRow>, source: seq<Yield>, w: World)
    requires IsFloatText(rt.f) && IsSource(rows) && YieldsRows(rt, rows, source)
    requires Retains(rt.sha, source, w) && Read(w).value.phase.SourceComplete?
    ensures var m := Read(w).value;
      && Count(m.parts, |m.parts|) == |rows| && DistinctNames(StoredOf(m.parts))
      && m.withdrawalCount == |Withdrawn(rows)|
      && Captured(rt, w.files, StoredOf(m.parts), Totals(m.sourceCount, m.itemCount, m.canonicalBytes), rows, ChunksOf(rt, rows, m.parts))
  {
    hide Accepted, Sum, Record, Excludes, Withdrawals, Concat, TotalBytes, Visible, Withdrawn, Holds;
    var m := Read(w).value;
    var parts := m.parts;
    AcceptedCounts(m, w.files);
    ChunksConcat(rt, rows, parts);
    assert Records(rt, rows)[..|rows|] == Records(rt, rows);
    PartsHold(rt, rows, source, m, w.files);
    NamesAreDistinct(m, w.files);
    TotalsAgree(rt, rows, source, m, w.files);
  }

  lemma PartsHold(rt: Runtime, rows: seq<SourceRow>, source: seq<Yield>, m: Capture.Manifest, files: Disk)
    requires IsFloatText(rt.f) && IsSource(rows) && YieldsRows(rt, rows, source)
    requires Retained(rt.sha, source, m, files) && Count(m.parts, |m.parts|) == |rows|
    ensures Holds(rt, files, StoredOf(m.parts), ChunksOf(rt, rows, m.parts))
  {
    hide Sum, Record, Excludes, Withdrawals, Concat, Line, Accepted;
    var parts := m.parts;
    forall i | 0 <= i < |parts|
      ensures PartHolds(rt, files, StoredOf(parts)[i], ChunksOf(rt, rows, parts)[i])
    {
      assert PartRetains(rt.sha, source, parts, i, files);
      ChunkAt(rt, rows, parts, i);
      SliceLines(rt, rows, source, Count(parts, i), Count(parts, i + 1));
      StoredFacts(m, files, i);
      CountStep(parts, i);
      forall k | 0 <= k < |rows|
        ensures IsJson(Records(rt, rows)[k])
      {
        RecordIsJson(rt, rows[k]);
      }
    }
  }

  lemma StoredFacts(m: Capture.Manifest, files: Disk, i: nat)
    requires Accepted(m, files) && i < |m.parts|
    ensures var s := m.parts[i].stored; s.name == PartName(i, s.sha) && s.name in files && s.bytes == |files[s.name]|
  {
    hide Sum, SegmentAccepted, PartName;
    assert PartAccepted(m.parts, i, files);
  }

  lemma NamesAreDistinct(m: Capture.Manifest, files: Disk)
    requires Accepted(m, files)
    ensures DistinctNames(StoredOf(m.parts))
  {
    hide Accepted, PartName;
    forall i, j | 0 <= i < j < |m.parts|
      ensures m.parts[i].stored.name != m.parts[j].stored.name
    {
      StoredFacts(m, files, i);
      StoredFacts(m, files, j);
      if m.parts[i].stored.name == m.parts[j].stored.name {
        PartNameInjective(i, j, m.parts[i].stored.sha, m.parts[j].stored.sha);
      }
    }
  }

  lemma TotalsAgree(rt: Runtime, rows: seq<SourceRow>, source: seq<Yield>, m: Capture.Manifest, files: Disk)
    requires YieldsRows(rt, rows, source) && Retained(rt.sha, source, m, files) && m.sourceCount == |rows|
    ensures m.itemCount == |Visible(rows)| && m.withdrawalCount == |Withdrawn(rows)|
    ensures m.canonicalBytes == TotalBytes(StoredOf(m.parts))
  {
    hide Sum, Withdrawals, Visible, Withdrawn, PartRetains, PartAccepted, SegmentAccepted, TotalBytes, Record, Line, Excludes;
    var k := |m.parts|;
    assert m.parts[..k] == m.parts;
    AcceptedCounts(m, files);
    SumsAddUp(m.parts, k, files);
    WithdrawalsOfParts(rt.sha, source, m.parts, k, files);
    assert source[..|rows|] == source;
    VisibleCount(rt, rows, source);
  }
}
