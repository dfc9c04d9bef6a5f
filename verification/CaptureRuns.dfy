/** What every run of the capture keeps, whatever fails and wherever the process stops. */
module CaptureRuns {
  import opened Text
  import opened Planner
  import opened Scan
  import opened Capture

  // ---------------------------------------------------- saved manifests are readable

  /** No step makes the directory unreadable. */
  ghost predicate Readable(w: World) {
    Read(w).Some?
  }

  function PartsOf(w: World): seq<Part> {
    match w.manifest case None => [] case Some(m) => m.parts
  }

  /** Accepted parts are only ever followed by more, and no part file changes. */
  ghost predicate Grows(before: World, after: World) {
    && PartsOf(before) <= PartsOf(after)
    && forall name :: name in before.files ==> name in after.files && after.files[name] == before.files[name]
  }

  lemma GrowsTransitive(a: World, b: World, c: World)
    requires Grows(a, b) && Grows(b, c)
    ensures Grows(a, c)
  {}

  predicate SameLedger(a: Manifest, b: Manifest) {
    && a.parts == b.parts && a.cursor == b.cursor && a.sourceCount == b.sourceCount && a.itemCount == b.itemCount
    && a.withdrawalCount == b.withdrawalCount && a.canonicalBytes == b.canonicalBytes
    && a.derived == b.derived && a.segment == b.segment
  }

  lemma AcceptedStays(m: Manifest, n: Manifest, files: Disk, more: Disk)
    requires Accepted(m, files) && SameLedger(m, n)
    requires forall name :: name in files ==> name in more && more[name] == files[name]
    ensures Accepted(n, more)
  {
    hide Sum, SegmentAccepted;
    forall i | 0 <= i < |n.parts|
      ensures PartAccepted(n.parts, i, more)
    {
      assert PartAccepted(m.parts, i, files);
    }
    SegmentStays(m, n);
  }

  lemma SegmentStays(m: Manifest, n: Manifest)
    requires SegmentAccepted(m) && SameLedger(m, n)
    ensures SegmentAccepted(n)
  {}

  lemma InitialAccepted(files: Disk)
    ensures Accepted(INITIAL, files)
  {}

  /** The manifest a call starts from is accepted, saved or not. */
  lemma ReadIsAccepted(w: World)
    requires Readable(w)
    ensures Accepted(Read(w).value, w.files) && Read(w).value.parts == PartsOf(w)
  {
    if w.manifest.None? { InitialAccepted(w.files); }
  }

  /** Saving an accepted manifest that extends the parts keeps the directory readable, however the save ends. */
  lemma SaveKeeps(w: World, m: Manifest, f: Fault)
    requires Readable(w) && Accepted(m, w.files) && PartsOf(w) <= m.parts
    ensures Readable(Saved(w, m, f)) && Grows(w, Saved(w, m, f))
  {}

  lemma RecoverKeeps(w: World, now: int, f: Fault)
    requires Readable(w)
    ensures Readable(Recover(w, now, f).w) && Grows(w, Recover(w, now, f).w)
  {
    ReadIsAccepted(w);
    var m := Read(w).value;
    AcceptedStays(m, Failing(m, now), w.files, w.files);
    SaveKeeps(w, Failing(m, now), f);
  }

  lemma FinishKeeps(w: World, m: Manifest, now: int, f: Fault, recover: Fault, done: Outcome)
    requires Readable(w) && Accepted(m, w.files) && PartsOf(w) <= m.parts
    ensures var r := Finish(w, m, now, f, recover, done).w; Readable(r) && Grows(w, r)
  {
    hide Accepted, Recover;
    SaveKeeps(w, m, f);
    var v := Saved(w, m, f);
    if StatusOf(f) == Error {
      RecoverKeeps(v, now, recover);
      GrowsTransitive(w, v, Recover(v, now, recover).w);
    }
  }

  // ------------------------------------------------------------------ collecting a page

  /** What the record loop has taken when it is done: leading records of the page within every bound. */
  ghost predicate GatheredFrom(m: Manifest, page: Page, g: Gathered) {
    && g.taken <= |page.records| && g.taken <= PAGE_ITEMS
    && g.content == Concat(LinesOf(page.records[..g.taken])) && |g.content| <= PART_BYTES
    && g.withdrawals == Withdrawals(page.records[..g.taken]) <= g.taken
    && g.cursor == (if g.taken == 0 then m.cursor else Some(page.records[g.taken - 1].cursor))
    && (g.taken > 0 ==> g.content != [] && m.canonicalBytes + |g.content| <= TOTAL_BYTES)
    && forall i :: 0 <= i < g.taken ==>
         page.records[i].wellFormed && CursorFollows(if i == 0 then m.cursor else Some(page.records[i - 1].cursor), page.records[i].cursor)
  }

  function LinesOf(records: seq<Yield>): (lines: seq<Bytes>)
    ensures |lines| == |records| && forall i :: 0 <= i < |records| ==> lines[i] == records[i].line
  {
    seq(|records|, i requires 0 <= i < |records| => records[i].line)
  }

  function Withdrawals(records: seq<Yield>): nat {
    if records == [] then 0 else Withdrawals(records[..|records| - 1]) + if records[|records| - 1].isWithdrawal then 1 else 0
  }

  lemma LinesAppend(records: seq<Yield>, n: nat)
    requires n < |records|
    ensures Concat(LinesOf(records[..n + 1])) == Concat(LinesOf(records[..n])) + records[n].line
    ensures Withdrawals(records[..n + 1]) == Withdrawals(records[..n]) + if records[n].isWithdrawal then 1 else 0
  {
    assert LinesOf(records[..n + 1]) == LinesOf(records[..n]) + [records[n].line];
    ConcatAppend(LinesOf(records[..n]), [records[n].line]);
    ConcatOne<byte>(records[n].line);
    assert records[..n + 1][..n] == records[..n];
  }

  lemma GatherStep(m: Manifest, page: Page, g: Gathered)
    requires GatheredFrom(m, page, g) && g.taken < |page.records| && g.taken < PAGE_ITEMS
    requires CursorFollows(g.cursor, page.records[g.taken].cursor) && page.records[g.taken].wellFormed
    requires |g.content| + |page.records[g.taken].line| <= PART_BYTES
    requires m.canonicalBytes + |g.content| + |page.records[g.taken].line| <= TOTAL_BYTES
    ensures GatheredFrom(m, page, Gather(g, page.records[g.taken]))
  {
    hide Withdrawals, CursorFollows, Concat, LinesOf;
    LinesAppend(page.records, g.taken);
  }

  lemma {:induction false} CollectGathers(m: Manifest, page: Page, g: Gathered)
    requires GatheredFrom(m, page, g)
    ensures var c := Collect(m.canonicalBytes, page, g);
      c.Collected? ==> GatheredFrom(m, page, c.g) && (c.complete ==> c.g.taken == |page.records| && !page.hasMore)
    decreases |page.records| - g.taken
  {
    hide Withdrawals, Concat, LinesOf;
    if g.taken < |page.records| {
      var r := page.records[g.taken];
      if CursorFollows(g.cursor, r.cursor) && r.wellFormed && |g.content| + |r.line| <= PART_BYTES && g.taken < PAGE_ITEMS
         && m.canonicalBytes + |g.content| + |r.line| <= TOTAL_BYTES {
        GatherStep(m, page, g);
        CollectGathers(m, page, Gather(g, r));
      }
    }
  }

  lemma CollectedIsGathered(m: Manifest, page: Page)
    ensures var c := CollectPage(m, Some(page));
      c.Collected? ==> GatheredFrom(m, page, c.g) && (c.complete ==> c.g.taken == |page.records| && !page.hasMore)
  {
    assert page.records[..0] == [] && LinesOf([]) == [];
    CollectGathers(m, page, Gathered([], m.cursor, 0, 0));
  }

  // -------------------------------------------------------------- each call keeps it

  lemma SumAppend(parts: seq<Part>, p: Part, of: Part -> nat)
    ensures Sum(parts + [p], of) == Sum(parts, of) + of(p)
  {
    assert (parts + [p])[..|parts|] == parts;
  }

  /** A page's part extends the chain of cursors, the counts and the fence. */
  lemma ExtendedAccepted(sha: Hash, m: Manifest, page: Page, g: Gathered, complete: bool, files: Disk)
    requires Accepted(m, files) && GatheredFrom(m, page, g)
    requires g.taken > 0 ==> var name := PartName(|m.parts|, sha(g.content)); name in files && files[name] == g.content
    ensures Accepted(Extended(sha, m, g, complete), files)
  {
    hide Sum, SegmentAccepted, PartName, Withdrawals;
    if g.taken > 0 {
      var p, n := NewPart(sha, m, g), Extended(sha, m, g, complete);
      forall i | 0 <= i < |n.parts|
        ensures PartAccepted(n.parts, i, files)
      {
        assert n.parts[..i] == m.parts[..i];
        if i < |m.parts| { assert PartAccepted(m.parts, i, files); }
      }
      SumAppend(m.parts, p, SOURCE);
      SumAppend(m.parts, p, ITEMS);
      SumAppend(m.parts, p, WITHDRAWALS);
      SumAppend(m.parts, p, BYTES);
      FenceExtends(m, n, p);
    } else {
      AcceptedStays(m, Extended(sha, m, g, complete), files, files);
    }
  }

  lemma FenceExtends(m: Manifest, n: Manifest, p: Part)
    requires SegmentAccepted(m) && n.derived == m.derived && n.segment == m.segment
    requires n.parts == m.parts + [p] && p.segment == m.segment
    ensures SegmentAccepted(n)
  {
    if m.derived {
      var s := m.segment.value;
      assert n.parts[..s.prefixPartCount] == m.parts[..s.prefixPartCount];
      var i :| 0 <= i < s.prefixPartCount && m.parts[i].stored.sha == s.accepted;
      assert n.parts[i].stored.sha == s.accepted;
    }
  }

  lemma AdvanceKeeps(sha: Hash, w: World, call: AdvanceCall)
    requires Readable(w)
    ensures var r := Advance(sha, w, call).w; Readable(r) && Grows(w, r)
  {
    hide Accepted, Recover, AdvanceOpen;
    ReadIsAccepted(w);
    var m := Read(w).value;
    if w.manifest.Some? {
      OpenKeeps(sha, w, m, call);
    } else {
      SaveKeeps(w, m, call.first);
      var v := Saved(w, m, call.first);
      RecoverKeeps(v, call.now, call.recover);
      OpenKeeps(sha, v, m, call);
      GrowsTransitive(w, v, Recover(v, call.now, call.recover).w);
      GrowsTransitive(w, v, AdvanceOpen(sha, v, m, call).w);
    }
  }

  lemma OpenKeeps(sha: Hash, w: World, m: Manifest, call: AdvanceCall)
    requires Readable(w) && Accepted(m, w.files) && PartsOf(w) == m.parts
    ensures var r := AdvanceOpen(sha, w, m, call).w; Readable(r) && Grows(w, r)
  {
    hide Accepted, Recover, Finish, GatheredFrom, Collect;
    AcceptedStaysOpen(m, Failing(m, call.now), w.files);
    FinishKeeps(w, Failing(m, call.now), call.now, call.second, call.recover, Raised);
    if call.fetch.Some? {
      CollectedIsGathered(m, call.fetch.value);
      var c := CollectPage(m, call.fetch);
      if c.Collected? { CommitKeeps(sha, w, m, call.fetch.value, c.g, c.complete, call); }
    }
  }

  lemma AcceptedStaysOpen(m: Manifest, n: Manifest, files: Disk)
    requires Accepted(m, files) && SameLedger(m, n)
    ensures Accepted(n, files)
  {
    AcceptedStays(m, n, files, files);
  }

  lemma CommitKeeps(sha: Hash, w: World, m: Manifest, page: Page, g: Gathered, complete: bool, call: AdvanceCall)
    requires Readable(w) && Accepted(m, w.files) && PartsOf(w) == m.parts && GatheredFrom(m, page, g)
    ensures g.withdrawals <= g.taken && (g.taken > 0 ==> g.cursor.Some?)
    ensures var r := AdvanceCollected(sha, w, m, Collected(g, complete), call).w; Readable(r) && Grows(w, r)
  {
    hide Accepted, Recover, Finish, PartName, Withdrawals;
    if g.taken == 0 {
      ExtendedAccepted(sha, m, page, g, complete, w.files);
      FinishKeeps(w, Extended(sha, m, g, complete), call.now, call.third, call.recover, Returned(Extended(sha, m, g, complete)));
    } else {
      var name := PartName(|m.parts|, sha(g.content));
      var v := PartWritten(w, name, g.content, call.second);
      PartWriteKeeps(w, m, name, g.content, call.second);
      RecoverKeeps(v, call.now, call.recover);
      GrowsTransitive(w, v, Recover(v, call.now, call.recover).w);
      if PartStatus(w, name, g.content, call.second) == Done {
        ExtendedAccepted(sha, m, page, g, complete, v.files);
        var n := Extended(sha, m, g, complete);
        FinishKeeps(v, n, call.now, call.third, call.recover, Returned(n));
        GrowsTransitive(w, v, Finish(v, n, call.now, call.third, call.recover, Returned(n)).w);
      }
    }
  }

  lemma PartWriteKeeps(w: World, m: Manifest, name: string, raw: Bytes, f: Fault)
    requires Readable(w) && Accepted(m, w.files)
    ensures var v := PartWritten(w, name, raw, f);
      && Readable(v) && Grows(w, v) && Accepted(m, v.files) && v.manifest == w.manifest
      && (PartStatus(w, name, raw, f) == Done ==> name in v.files && v.files[name] == raw)
  {
    hide Accepted;
    var v := PartWritten(w, name, raw, f);
    AcceptedStays(m, m, w.files, v.files);
    if w.manifest.Some? { AcceptedStays(w.manifest.value, w.manifest.value, w.files, v.files); }
  }

  lemma DeriveKeeps(w: World, call: DeriveCall)
    requires Readable(w)
    ensures var r := Derive(w, call).w; Readable(r) && Grows(w, r)
  {
    hide Accepted, Recover, Finish, SegmentAccepted;
    ReadIsAccepted(w);
    var m := Read(w).value;
    var s := NewSegment(m, call);
    if m.segment.None? && call.part in s.prefix && call.producer != "" {
      var n := m.(derived := true, segment := Some(s));
      FenceRises(m, call, w.files);
      FinishKeeps(w, n, call.now, call.save, call.recover, Returned(n));
    }
  }

  lemma FenceRises(m: Manifest, call: DeriveCall, files: Disk)
    requires Accepted(m, files) && m.segment.None? && call.part in NewSegment(m, call).prefix && call.producer != ""
    ensures Accepted(m.(derived := true, segment := Some(NewSegment(m, call))), files)
  {
    hide Sum;
    var n := m.(derived := true, segment := Some(NewSegment(m, call)));
    assert m.parts[..|m.parts|] == m.parts;
    var i :| 0 <= i < |m.parts| && m.parts[i] == call.part;
    assert n.parts[i].stored.sha == call.part.stored.sha;
    forall i | 0 <= i < |n.parts|
      ensures PartAccepted(n.parts, i, files)
    {
      assert PartAccepted(m.parts, i, files);
    }
  }

  lemma FinalizeKeeps(w: World, call: PlanCall)
    requires Readable(w)
    ensures var r := Finalize(w, call).w; Readable(r) && Grows(w, r)
  {
    hide Accepted, Recover, Finish;
    ReadIsAccepted(w);
    var m := Read(w).value;
    var started := m.(planInProgress := true);
    AcceptedStaysOpen(m, started, w.files);
    SaveKeeps(w, started, call.start);
    var v := Saved(w, started, call.start);
    RecoverKeeps(v, call.now, call.recover);
    GrowsTransitive(w, v, Recover(v, call.now, call.recover).w);
    if StatusOf(call.start) == Done {
      var ended := started.(planInProgress := false, plan := BoundTo(m, call.hashed), planFailed := call.hashed.None?);
      var done := if call.hashed.Some? then Returned(ended) else Raised;
      AcceptedStaysOpen(m, ended, w.files);
      FinishKeeps(v, ended, call.now, call.save, call.recover, done);
      GrowsTransitive(w, v, Finish(v, ended, call.now, call.save, call.recover, done).w);
    }
  }

  // ---------------------------------------------------------------------------- runs

  datatype Event = Advancing(a: AdvanceCall) | Deriving(d: DeriveCall) | Planning(p: PlanCall) | Restart

  /** The directory and the one fact a process remembers about it. */
  datatype Owner = Owner(w: World, unresolved: bool)

  ghost function Called(sha: Hash, w: World, e: Event): Result
    requires !e.Restart?
  {
    match e case Advancing(a) => Advance(sha, w, a) case Deriving(d) => Derive(w, d) case Planning(p) => Finalize(w, p)
  }

  ghost function Next(sha: Hash, o: Owner, e: Event): Owner {
    if e.Restart? then Owner(o.w, false)
    else if o.unresolved then o
    else var r := Called(sha, o.w, e); Owner(r.w, r.outcome.Unresolved?)
  }

  ghost function Run(sha: Hash, o: Owner, events: seq<Event>): Owner {
    if events == [] then o else Next(sha, Run(sha, o, events[..|events| - 1]), events[|events| - 1])
  }

  lemma NextKeeps(sha: Hash, o: Owner, e: Event)
    requires Readable(o.w)
    ensures Readable(Next(sha, o, e).w) && Grows(o.w, Next(sha, o, e).w)
  {
    hide Advance, Derive, Finalize, Read;
    match e
    case Advancing(a) => AdvanceKeeps(sha, o.w, a);
    case Deriving(d) => DeriveKeeps(o.w, d);
    case Planning(p) => FinalizeKeeps(o.w, p);
    case Restart =>
  }

  /** Over every run, whatever pages are read and whatever writes fail, each saved manifest can be read again. */
  lemma {:induction false} EveryRunStaysReadable(sha: Hash, o: Owner, events: seq<Event>)
    requires Readable(o.w)
    ensures Readable(Run(sha, o, events).w) && Grows(o.w, Run(sha, o, events).w)
    decreases |events|
  {
    hide Next, Readable, Grows;
    if events == [] {
      GrowsReflexive(o.w);
    } else {
      var before := events[..|events| - 1];
      EveryRunStaysReadable(sha, o, before);
      NextKeeps(sha, Run(sha, o, before), events[|events| - 1]);
      GrowsTransitive(o.w, Run(sha, o, before).w, Run(sha, o, events).w);
    }
  }

  lemma GrowsReflexive(w: World)
    ensures Grows(w, w)
  {}

  // ---------------------------------------------------- the hash passes run at most once

  /** Planning was tried: its intent, its failure or its plan is on record. */
  predicate Tried(w: World) {
    w.manifest.Some? && var m := w.manifest.value; m.phase.SourceComplete? && (m.planInProgress || m.planFailed || m.plan.Some?)
  }

  ghost predicate StartsHashing(o: Owner, e: Event) {
    e.Planning? && !o.unresolved && Hashes(o.w, e.p)
  }

  lemma RecoverStaysTried(w: World, now: int, f: Fault)
    requires Tried(w)
    ensures Tried(Recover(w, now, f).w)
  {
    hide Accepted;
  }

  lemma NextStaysTried(sha: Hash, o: Owner, e: Event)
    requires Tried(o.w) || StartsHashing(o, e)
    ensures Tried(Next(sha, o, e).w)
  {
    hide Accepted, AdvanceOpen, Recover;
    if e.Planning? && !o.unresolved && Read(o.w).Some? {
      var m := Read(o.w).value;
      var v := Saved(o.w, m.(planInProgress := true), e.p.start);
      if Tried(v) { RecoverStaysTried(v, e.p.now, e.p.recover); }
      var ended := m.(planInProgress := false, plan := BoundTo(m, e.p.hashed), planFailed := e.p.hashed.None?);
      var u := Saved(v, ended, e.p.save);
      if Tried(u) { RecoverStaysTried(u, e.p.now, e.p.recover); }
    }
  }

  ghost function HashPasses(sha: Hash, o: Owner, events: seq<Event>): nat {
    if events == [] then 0
    else
      var before := events[..|events| - 1];
      HashPasses(sha, o, before) + if StartsHashing(Run(sha, o, before), events[|events| - 1]) then 1 else 0
  }

  /** No run, with any number of restarts, hashes the retained content for planning twice. */
  lemma {:induction false} HashedAtMostOnce(sha: Hash, o: Owner, events: seq<Event>)
    ensures HashPasses(sha, o, events) <= 1
    ensures HashPasses(sha, o, events) == 1 ==> Tried(Run(sha, o, events).w)
    decreases |events|
  {
    hide Next, Tried, StartsHashing;
    if events != [] {
      var before, last := events[..|events| - 1], events[|events| - 1];
      HashedAtMostOnce(sha, o, before);
      var p := Run(sha, o, before);
      if Tried(p.w) { TriedNeverHashes(p, last); }
      if Tried(p.w) || StartsHashing(p, last) { NextStaysTried(sha, p, last); }
    }
  }

  lemma TriedNeverHashes(o: Owner, e: Event)
    requires Tried(o.w)
    ensures !StartsHashing(o, e)
  {
    hide Accepted;
  }
}
