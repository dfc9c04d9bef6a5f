/**
  The restartable source capture. Every write of the manifest or of a part may fail before or after
  it takes effect, and the process may stop at any of those points; the next call starts from what
  the directory then holds.
 */
module Capture {
  import opened Text
  import opened Sorting
  import opened Planner
  import opened Scan
  import opened Plan

  const PAGE_ITEMS := 128
  const PART_BYTES := 4 * 1024 * 1024
  const TOTAL_BYTES := 256 * 1024 * 1024

  // --------------------------------------------------------------------- the manifest

  /** The four components of a source cursor, each as its rank in the order of that component. */
  type Cursor = seq<int>

  /** `segment` is the digest of the reader segment a part was read under, kept as the segment itself. */
  datatype Part = Part(stored: Stored, after: Option<Cursor>, cursor: Cursor, itemCount: nat, withdrawalCount: nat, segment: Option<Segment>)

  /** A reviewed change of reader code, bound to the parts that were read before it. */
  datatype Segment = Segment(prefixPartCount: nat, prefix: seq<Part>, producer: string, accepted: Digest, proof: string)

  /** What a plan was made from; a plan's input digest is kept as this. The identity of the capture never changes. */
  datatype Inputs = Inputs(parts: seq<Part>, sourceCount: nat, itemCount: nat, withdrawalCount: nat, canonicalBytes: nat, segment: Option<Segment>)

  datatype Bound = Bound(planned: Planned, inputs: Inputs)

  datatype Phase = Building | SourceComplete

  datatype Manifest = Manifest(
    derived: bool, phase: Phase, cursor: Option<Cursor>, parts: seq<Part>, sourceCount: nat, itemCount: nat,
    withdrawalCount: nat, canonicalBytes: nat, retryNotBefore: int, failed: bool, segment: Option<Segment>,
    planInProgress: bool, planFailed: bool, plan: Option<Bound>)

  const INITIAL := Manifest(false, Building, None, [], 0, 0, 0, 0, 0, false, None, false, false, None)

  function InputsOf(m: Manifest): Inputs {
    Inputs(m.parts, m.sourceCount, m.itemCount, m.withdrawalCount, m.canonicalBytes, m.segment)
  }

  /** A plan as it is recorded, bound to what it was made from. */
  function BoundTo(m: Manifest, hashed: Option<Planned>): Option<Bound> {
    match hashed case None => None case Some(planned) => Some(Bound(planned, InputsOf(m)))
  }

  /** The directory: the manifest file and the part files. */
  datatype World = World(manifest: Option<Manifest>, files: Disk)

  function Sum(parts: seq<Part>, of: Part -> nat): nat {
    if parts == [] then 0 else Sum(parts[..|parts| - 1], of) + of(parts[|parts| - 1])
  }

  const SOURCE: Part -> nat := (p: Part) => p.stored.sourceCount
  const ITEMS: Part -> nat := (p: Part) => p.itemCount
  const WITHDRAWALS: Part -> nat := (p: Part) => p.withdrawalCount
  const BYTES: Part -> nat := (p: Part) => p.stored.bytes

  function LastCursor(parts: seq<Part>): Option<Cursor> {
    if parts == [] then None else Some(parts[|parts| - 1].cursor)
  }

  predicate PartAccepted(parts: seq<Part>, i: nat, files: Disk)
    requires i < |parts|
  {
    var p := parts[i];
    && p.stored.name == PartName(i, p.stored.sha)
    && p.after == LastCursor(parts[..i])
    && p.stored.sourceCount == p.itemCount + p.withdrawalCount
    && 1 <= p.stored.sourceCount <= PAGE_ITEMS && 0 < p.stored.bytes <= PART_BYTES
    && p.stored.name in files && |files[p.stored.name]| == p.stored.bytes
  }

  /** The fence: parts before the segment are unmarked and bound by it, later parts carry its mark. */
  predicate SegmentAccepted(m: Manifest) {
    if !m.derived then m.segment.None? && forall i :: 0 <= i < |m.parts| ==> m.parts[i].segment.None?
    else
      && m.segment.Some?
      && var s := m.segment.value;
         && 1 <= s.prefixPartCount <= |m.parts|
         && s.prefix == m.parts[..s.prefixPartCount] && s.producer != ""
         && (exists i :: 0 <= i < s.prefixPartCount && m.parts[i].stored.sha == s.accepted)
         && (forall i :: 0 <= i < s.prefixPartCount ==> m.parts[i].segment.None?)
         && (forall i :: s.prefixPartCount <= i < |m.parts| ==> m.parts[i].segment == Some(s))
  }

  /** What `read` checks of a saved manifest against the directory. */
  predicate Accepted(m: Manifest, files: Disk) {
    && (forall i :: 0 <= i < |m.parts| ==> PartAccepted(m.parts, i, files))
    && m.sourceCount == Sum(m.parts, SOURCE) && m.itemCount == Sum(m.parts, ITEMS)
    && m.withdrawalCount == Sum(m.parts, WITHDRAWALS) && m.canonicalBytes == Sum(m.parts, BYTES)
    && m.cursor == LastCursor(m.parts) && m.canonicalBytes <= TOTAL_BYTES
    && SegmentAccepted(m)
  }

  /** `read`: an empty directory is the initial manifest; `None` is the refusal of a damaged one. */
  function Read(w: World): Option<Manifest> {
    if w.manifest.None? then Some(INITIAL)
    else if Accepted(w.manifest.value, w.files) then Some(w.manifest.value) else None
  }

  // ------------------------------------------------------------------- faulty writes

  /** What may happen to one write: it fails before or after taking effect, or the process stops there. */
  datatype Fault = Clean | FailsBefore | FailsAfter | StopsBefore | StopsAfter

  datatype Status = Done | Error | Dead

  function StatusOf(f: Fault): Status {
    match f case Clean => Done case FailsBefore => Error case FailsAfter => Error case StopsBefore => Dead case StopsAfter => Dead
  }

  predicate TakesEffect(f: Fault) {
    f.Clean? || f.FailsAfter? || f.StopsAfter?
  }

  function Saved(w: World, m: Manifest, f: Fault): World {
    if TakesEffect(f) then w.(manifest := Some(m)) else w
  }

  /** A part file is immutable: the same bytes are accepted again, other bytes are an error. */
  function PartStatus(w: World, name: string, raw: Bytes, f: Fault): Status {
    if name in w.files then if w.files[name] == raw then Done else Error else StatusOf(f)
  }

  function PartWritten(w: World, name: string, raw: Bytes, f: Fault): World {
    if name !in w.files && TakesEffect(f) then w.(files := w.files[name := raw]) else w
  }

  /** How a call ends; after `Unresolved` the owner refuses every further call. */
  datatype Outcome = Returned(m: Manifest) | Raised | Unresolved | Stopped

  datatype Result = Result(w: World, outcome: Outcome)

  function Failing(m: Manifest, now: int): Manifest {
    m.(failed := true, retryNotBefore := now + 30)
  }

  /** `_publication_failed`: reconciles with what the directory really holds. */
  function Recover(w: World, now: int, f: Fault): Result {
    match Read(w)
    case None => Result(w, Unresolved)
    case Some(m) =>
      Result(Saved(w, Failing(m, now), f),
             match StatusOf(f) case Done => Raised case Error => Unresolved case Dead => Stopped)
  }

  /** A manifest save followed by the return of `m`, or by recovery when the save reports failure. */
  function Finish(w: World, m: Manifest, now: int, f: Fault, recover: Fault, done: Outcome): Result {
    var v := Saved(w, m, f);
    match StatusOf(f)
    case Done => Result(v, done)
    case Error => Recover(v, now, recover)
    case Dead => Result(v, Stopped)
  }

  // ------------------------------------------------------------------------- advance

  /** A record as the reader yields it; `wellFormed` is the shape check of its fields. */
  datatype Yield = Yield(cursor: Cursor, isWithdrawal: bool, wellFormed: bool, line: RecordLine)

  /** The compact JSON of a record and its line feed. */
  type RecordLine = b: Bytes | b != [] witness [10]

  /** A page may raise when its `failsAt`-th record is asked for, or when it is closed. */
  datatype Page = Page(records: seq<Yield>, hasMore: bool, failsAt: Option<nat>, closeFails: bool)

  datatype Gathered = Gathered(content: Bytes, cursor: Option<Cursor>, taken: nat, withdrawals: nat)

  datatype Collected = SourceFailed | Collected(g: Gathered, complete: bool)

  predicate CursorFollows(before: Option<Cursor>, after: Cursor) {
    |after| == 4 && (before.Some? ==> Less(before.value, after))
  }

  /** The record loop of `advance`, from the `g.taken`-th record on. */
  function Collect(canonicalBytes: nat, page: Page, g: Gathered): Collected
    decreases |page.records| - g.taken
  {
    if page.failsAt == Some(g.taken) then SourceFailed
    else if g.taken >= |page.records| then Closing(page, g, !page.hasMore)
    else
      var r := page.records[g.taken];
      if !CursorFollows(g.cursor, r.cursor) || !r.wellFormed || |r.line| > PART_BYTES then SourceFailed
      else if |g.content| + |r.line| > PART_BYTES || g.taken >= PAGE_ITEMS then Closing(page, g, false)
      else if canonicalBytes + |g.content| + |r.line| > TOTAL_BYTES then SourceFailed
      else Collect(canonicalBytes, page, Gather(g, r))
  }

  function Gather(g: Gathered, r: Yield): Gathered {
    Gathered(g.content + r.line, Some(r.cursor), g.taken + 1, g.withdrawals + if r.isWithdrawal then 1 else 0)
  }

  function Closing(page: Page, g: Gathered, complete: bool): Collected {
    if page.closeFails then SourceFailed else Collected(g, complete)
  }

  /** `None` is a reader that raises before it returns a page. */
  type Fetch = Option<Page>

  function CollectPage(m: Manifest, fetch: Fetch): Collected {
    match fetch case None => SourceFailed case Some(page) => Collect(m.canonicalBytes, page, Gathered([], m.cursor, 0, 0))
  }

  datatype AdvanceCall = AdvanceCall(producer: Option<string>, now: int, fetch: Fetch, first: Fault, second: Fault, third: Fault, recover: Fault)

  function ProducerOf(m: Manifest): Option<string> {
    match m.segment case None => None case Some(s) => Some(s.producer)
  }

  function NewPart(sha: Hash, m: Manifest, g: Gathered): Part
    requires g.cursor.Some? && g.withdrawals <= g.taken
  {
    var digest := sha(g.content);
    Part(Stored(PartName(|m.parts|, digest), digest, g.taken, |g.content|), m.cursor, g.cursor.value,
         g.taken - g.withdrawals, g.withdrawals, m.segment)
  }

  /** The manifest after a page: one part more if the page brought records. */
  function Extended(sha: Hash, m: Manifest, g: Gathered, complete: bool): Manifest
    requires g.taken > 0 ==> g.cursor.Some?
    requires g.withdrawals <= g.taken
  {
    var grown :=
      if g.taken == 0 then m
      else m.(parts := m.parts + [NewPart(sha, m, g)], cursor := g.cursor,
              sourceCount := m.sourceCount + g.taken, itemCount := m.itemCount + (g.taken - g.withdrawals),
              withdrawalCount := m.withdrawalCount + g.withdrawals, canonicalBytes := m.canonicalBytes + |g.content|);
    grown.(phase := if complete then SourceComplete else Building, retryNotBefore := 0)
  }

  lemma {:induction false} CollectIsSound(canonicalBytes: nat, page: Page, g: Gathered)
    requires g.withdrawals <= g.taken && (g.taken > 0 ==> g.cursor.Some?)
    ensures Collect(canonicalBytes, page, g).Collected? ==>
      var h := Collect(canonicalBytes, page, g).g; h.withdrawals <= h.taken && (h.taken > 0 ==> h.cursor.Some?)
    decreases |page.records| - g.taken
  {
    if g.taken < |page.records| {
      CollectIsSound(canonicalBytes, page, Gather(g, page.records[g.taken]));
    }
  }

  /** `advance`. */
  function Advance(sha: Hash, w: World, call: AdvanceCall): Result {
    match Read(w)
    case None => Result(w, Raised)
    case Some(m) =>
      if call.producer != ProducerOf(m) then Result(w, Raised)
      else if m.phase.SourceComplete? || call.now < m.retryNotBefore then Result(w, Returned(m))
      else if w.manifest.Some? then AdvanceOpen(sha, w, m, call)
      else
        var v := Saved(w, m, call.first);
        match StatusOf(call.first)
        case Done => AdvanceOpen(sha, v, m, call)
        case Error => Recover(v, call.now, call.recover)
        case Dead => Result(v, Stopped)
  }

  function AdvanceOpen(sha: Hash, w: World, m: Manifest, call: AdvanceCall): Result {
    if call.fetch.Some? then
      CollectIsSound(m.canonicalBytes, call.fetch.value, Gathered([], m.cursor, 0, 0));
      AdvanceCollected(sha, w, m, CollectPage(m, call.fetch), call)
    else AdvanceCollected(sha, w, m, SourceFailed, call)
  }

  function AdvanceCollected(sha: Hash, w: World, m: Manifest, c: Collected, call: AdvanceCall): Result
    requires c.Collected? ==> c.g.withdrawals <= c.g.taken && (c.g.taken > 0 ==> c.g.cursor.Some?)
  {
    match c
    case SourceFailed => Finish(w, Failing(m, call.now), call.now, call.second, call.recover, Raised)
    case Collected(g, complete) =>
      if g.taken == 0 && !complete then Result(w, Raised)
      else if g.taken == 0 then FinishAdvance(sha, w, m, g, complete, call)
      else
        var name := PartName(|m.parts|, sha(g.content));
        var v := PartWritten(w, name, g.content, call.second);
        match PartStatus(w, name, g.content, call.second)
        case Done => FinishAdvance(sha, v, m, g, complete, call)
        case Error => Recover(v, call.now, call.recover)
        case Dead => Result(v, Stopped)
  }

  function FinishAdvance(sha: Hash, w: World, m: Manifest, g: Gathered, complete: bool, call: AdvanceCall): Result
    requires g.withdrawals <= g.taken && (g.taken > 0 ==> g.cursor.Some?)
  {
    var updated := Extended(sha, m, g, complete);
    Finish(w, updated, call.now, call.third, call.recover, Returned(updated))
  }

  // ------------------------------------------------------------- reader segment, plan

  /** `valid` stands for the checks of the proof documents against the capture's identity. */
  datatype DeriveCall = DeriveCall(producer: string, valid: bool, part: Part, canonical: Digest, readCount: nat, proof: string, now: int, save: Fault, recover: Fault)

  function NewSegment(m: Manifest, call: DeriveCall): Segment {
    var count := if m.segment.Some? then m.segment.value.prefixPartCount else |m.parts|;
    Segment(count, m.parts[..if count <= |m.parts| then count else |m.parts|], call.producer, call.part.stored.sha, call.proof)
  }

  /** `derive_reader_segment`. */
  function Derive(w: World, call: DeriveCall): Result {
    if !call.valid || call.producer == "" then Result(w, Raised)
    else match Read(w)
      case None => Result(w, Raised)
      case Some(m) =>
        var s := NewSegment(m, call);
        if call.part !in s.prefix || call.canonical != call.part.stored.sha || call.readCount != call.part.stored.sourceCount then Result(w, Raised)
        else if m.segment.Some? then if m.segment.value == s then Result(w, Returned(m)) else Result(w, Raised)
        else if !m.phase.Building? || m.plan.Some? || m.planInProgress then Result(w, Raised)
        else if call.now < m.retryNotBefore then Result(w, Returned(m))
        else
          var updated := m.(derived := true, segment := Some(s));
          Finish(w, updated, call.now, call.save, call.recover, Returned(updated))
  }

  /** `hashed` is what the hash passes yield: a plan, or a failure of theirs. */
  datatype PlanCall = PlanCall(hashed: Option<Planned>, now: int, start: Fault, save: Fault, recover: Fault)

  predicate StartsPlanning(m: Manifest, now: int) {
    m.phase.SourceComplete? && m.plan.None? && !m.planFailed && !m.planInProgress && m.retryNotBefore <= now
  }

  /** `finalize_plan`. */
  function Finalize(w: World, call: PlanCall): Result {
    match Read(w)
    case None => Result(w, Raised)
    case Some(m) =>
      if m.phase.Building? then Result(w, Raised)
      else if m.plan.Some? then Result(w, Returned(m))
      else if m.planFailed || m.planInProgress then Result(w, Raised)
      else if call.now < m.retryNotBefore then Result(w, Returned(m))
      else
        var started := m.(planInProgress := true);
        var v := Saved(w, started, call.start);
        match StatusOf(call.start)
        case Error => Recover(v, call.now, call.recover)
        case Dead => Result(v, Stopped)
        case Done =>
          var ended := started.(planInProgress := false, plan := BoundTo(m, call.hashed), planFailed := call.hashed.None?);
          Finish(v, ended, call.now, call.save, call.recover, if call.hashed.Some? then Returned(ended) else Raised)
  }

  /** Whether a call reads the retained parts to hash them: it does once its intent is saved. */
  ghost predicate Hashes(w: World, call: PlanCall) {
    Read(w).Some? && StartsPlanning(Read(w).value, call.now) && StatusOf(call.start) == Done
  }
}
