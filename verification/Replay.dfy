/** Admitting a retained plan for replay: which plans pass, and that the manifest leaves no choice of batches. */
module Replay {
  import opened Text
  import opened Values
  import opened Json
  import opened Batching
  import opened ReceiptChain
  import opened Projection
  import opened Planner
  import opened Scan
  import opened Plan
  import opened PlanReader
  import Receipt

  function KeysOf(places: seq<Location>): set<Digest> {
    set i | 0 <= i < |places| :: places[i].key
  }

  function AllLinks(plan: Planned): seq<Link> {
    LinksOf(Detail, plan.detail) + LinksOf(Index, plan.index)
  }

  /** The manifest that belongs to the plan's own batches and counts. */
  function ManifestFor(rt: Runtime, plan: Planned, windowStart: string, watermark: string): Manifest {
    MakeManifest(rt, windowStart, watermark, plan.manifest.sourceDigest, plan.manifest.itemCount,
                 plan.manifest.withdrawalCount, Chain(rt.sha, AllLinks(plan)))
  }

  predicate WithinLimits(plan: Planned, maximumBatches: int) {
    && plan.manifest.itemCount <= MAX_ITEMS && plan.manifest.withdrawalCount <= MAX_ITEMS
    && 1 <= maximumBatches && |plan.detail| + |plan.index| <= maximumBatches
  }

  /** What the capture's manifest counts must say of the plan. */
  predicate Membership(plan: Planned, itemCount: nat, withdrawalCount: nat) {
    plan.manifest.itemCount == itemCount && plan.manifest.withdrawalCount <= withdrawalCount
  }

  ghost predicate Replayable(rt: Runtime, parts: seq<Stored>, itemCount: nat, withdrawalCount: nat, plan: Planned,
                             windowStart: string, watermark: string, maximumBatches: int) {
    && Admitted(parts, itemCount, plan) && Membership(plan, itemCount, withdrawalCount)
    && WithinLimits(plan, maximumBatches) && |KeysOf(plan.places)| == itemCount
    && plan.manifest == ManifestFor(rt, plan, windowStart, watermark)
  }

  method ChainRefs(rt: Runtime, start: Digest, kind: Kind, refs: seq<BatchRef>) returns (chain: Digest)
    ensures chain == ChainFrom(rt.sha, start, LinksOf(kind, refs))
  {
    chain := start;
    for n := 0 to |refs|
      invariant chain == ChainFrom(rt.sha, start, LinksOf(kind, refs[..n]))
    {
      LinksOfAppend(rt.sha, start, kind, refs[..n], refs[n]);
      assert refs[..n + 1] == refs[..n] + [refs[n]];
      chain := Step(rt.sha, chain, LinkOf(kind, refs[n]));
    }
    assert refs[..|refs|] == refs;
  }

  /** `open_replay_generation`; `None` is the refusal. */
  method OpenReplay(rt: Runtime, parts: seq<Stored>, itemCount: nat, withdrawalCount: nat, plan: Planned,
                    windowStart: string, watermark: string, maximumBatches: int) returns (r: Option<Reader>)
    requires DistinctNames(parts)
    ensures r == if Replayable(rt, parts, itemCount, withdrawalCount, plan, windowStart, watermark, maximumBatches)
                 then Some(Reader(plan.places, Table(plan.detail), Table(plan.index))) else None
  {
    hide Admitted, MakeManifest, Table, ChainFrom;
    var reader := Open(parts, itemCount, plan);
    if reader.None? || plan.manifest.itemCount > MAX_ITEMS || plan.manifest.withdrawalCount > MAX_ITEMS {
      return None;
    }
    if !Membership(plan, itemCount, withdrawalCount) || |KeysOf(plan.places)| != itemCount {
      return None;
    }
    var chain := ChainRefs(rt, rt.sha([]), Detail, plan.detail);
    chain := ChainRefs(rt, chain, Index, plan.index);
    ChainFromConcat(rt.sha, rt.sha([]), LinksOf(Detail, plan.detail), LinksOf(Index, plan.index));
    if maximumBatches < 1 || |plan.detail| + |plan.index| > maximumBatches {
      return None;
    }
    var expected := MakeManifest(rt, windowStart, watermark, plan.manifest.sourceDigest, plan.manifest.itemCount,
                                 plan.manifest.withdrawalCount, chain);
    if plan.manifest != expected {
      return None;
    }
    return reader;
  }

  /** At most ten thousand items and as many withdrawals, and no more batches than may be taken. */
  predicate IsReplaySized(plan: Planned, maximumBatches: int) {
    && plan.manifest.itemCount <= 10_000 && plan.manifest.withdrawalCount <= 10_000
    && 0 < maximumBatches && |plan.detail| + |plan.index| <= maximumBatches
  }

  lemma {:induction false} DistinctWhenAsMany(places: seq<Location>)
    ensures |KeysOf(places)| <= |places|
    ensures |KeysOf(places)| == |places| ==> forall i, j :: 0 <= i < j < |places| ==> places[i].key != places[j].key
  {
    if places != [] {
      var n := |places| - 1;
      DistinctWhenAsMany(places[..n]);
      var before := KeysOf(places[..n]);
      assert KeysOf(places) == before + {places[n].key} by { KeysAppend(places, n); }
      if |KeysOf(places)| == |places| {
        assert places[n].key !in before;
        forall i, j | 0 <= i < j < |places|
          ensures places[i].key != places[j].key
        {
          if j == n { assert places[..n][i].key in before; }
        }
      }
    }
  }

  lemma KeysAppend(places: seq<Location>, n: nat)
    requires n + 1 == |places|
    ensures KeysOf(places) == KeysOf(places[..n]) + {places[n].key}
  {
    forall k | k in KeysOf(places)
      ensures k in KeysOf(places[..n]) + {places[n].key}
    {
      var i :| 0 <= i < |places| && places[i].key == k;
      if i < n { assert places[..n][i].key == k; }
    }
    forall k | k in KeysOf(places[..n])
      ensures k in KeysOf(places)
    {
      var i :| 0 <= i < n && places[..n][i].key == k;
      assert places[i].key == k;
    }
    assert places[n].key in KeysOf(places);
  }

  /** Whatever plan is admitted, it lists as many items as it says and was captured, each under its own key, and stays within the counts given. */
  lemma AdmittedPlanIs(rt: Runtime, parts: seq<Stored>, itemCount: nat, withdrawalCount: nat, plan: Planned,
                       windowStart: string, watermark: string, maximumBatches: int)
    requires Replayable(rt, parts, itemCount, withdrawalCount, plan, windowStart, watermark, maximumBatches)
    ensures |plan.places| == plan.manifest.itemCount == itemCount <= 10_000
    ensures plan.manifest.withdrawalCount <= withdrawalCount && IsReplaySized(plan, maximumBatches)
    ensures forall i, j :: 0 <= i < j < |plan.places| ==> plan.places[i].key != plan.places[j].key
  {
    hide KeysOf, MakeManifest, PlacesAdmitted, RefsAdmitted, Chain;
    DistinctWhenAsMany(plan.places);
  }

  /** A plan made from a complete capture is refused only for its size or for two rows under one key. */
  lemma PlansAreReplayable(rt: Runtime, disk: Disk, parts: seq<Stored>, totals: Totals, q: Request, rows: seq<SourceRow>,
                           chunks: seq<seq<Value>>, g: Generation, plan: Planned, maximumBatches: int)
    requires Faithful(rt) && PlannedFrom(rt, disk, parts, totals, q, rows, chunks, g, plan)
    ensures Replayable(rt, parts, totals.itemCount, |Withdrawn(rows)|, plan, q.windowStart, q.watermark, maximumBatches)
       <==> IsReplaySized(plan, maximumBatches) && |KeysOf(plan.places)| == totals.itemCount
  {
    hide Admitted, Table, Served, BatchAt, Describe, Links, Cut, InKeyOrder, SortPlaces, Count, LocateAll, Captured, Faithful;
    PlanServesTheGeneration(rt, disk, parts, totals, q, rows, chunks, g, plan, Detail, 0);
    AssembledManifest(rt, q, g);
    SortedSetIs(WithdrawnKeys(rt, q.withdrawals));
    CapturedTotals(rt, disk, parts, totals, rows, chunks);
  }

  lemma CapturedTotals(rt: Runtime, disk: Disk, parts: seq<Stored>, totals: Totals, rows: seq<SourceRow>, chunks: seq<seq<Value>>)
    requires Captured(rt, disk, parts, totals, rows, chunks)
    ensures totals.itemCount == |Visible(rows)|
  {}

  lemma AssembledManifest(rt: Runtime, q: Request, g: Generation)
    requires Assemble(rt, q) == Some(g)
    ensures g.manifest.itemCount == |q.rows| && g.manifest.withdrawalCount == |SortedSet(WithdrawnKeys(rt, q.withdrawals))|
    ensures var d, i := Describe(rt, 0, g.detailBatches), Describe(rt, 0, g.indexBatches);
      && d.Some? && i.Some?
      && g.manifest == MakeManifest(rt, q.windowStart, q.watermark, g.manifest.sourceDigest, g.manifest.itemCount,
                                    g.manifest.withdrawalCount, Chain(rt.sha, LinksOf(Detail, d.value) + LinksOf(Index, i.value)))
  {
    hide Cut, InKeyOrder, Describe, Links, Sha, Source, Sorted, SortedSet, Chain, LinksOf;
    DescribeGivesLinks(rt, Detail, 0, g.detailBatches);
    DescribeGivesLinks(rt, Index, 0, g.indexBatches);
  }

  /** The counts of a capture, and how many batches a replay may take. */
  datatype Counts = Counts(items: nat, withdrawals: nat, batches: int)

  /**
    Two plans admitted under one manifest have the same batches: kind, offset, count and payload hash
    of each, in order. Otherwise the hash function collides, and the collision is produced.
   */
  lemma ManifestDeterminesBatches(rt: Runtime, a: Planned, b: Planned, parts: seq<Stored>, others: seq<Stored>, counts: Counts, otherCounts: Counts,
                                  windowStart: string, watermark: string) returns (x: Bytes, y: Bytes)
    requires Replayable(rt, parts, counts.items, counts.withdrawals, a, windowStart, watermark, counts.batches)
    requires Replayable(rt, others, otherCounts.items, otherCounts.withdrawals, b, windowStart, watermark, otherCounts.batches)
    requires a.manifest == b.manifest
    ensures AllLinks(a) == AllLinks(b) || Collision(rt.sha, x, y)
  {
    hide Chain, AllLinks, Sha, Admitted, KeysOf;
    x, y := ChainDeterminesLinks(rt.sha, AllLinks(a), AllLinks(b));
  }

  // ------------------------------------------------------------- the rows behind the batches

  function ReaderOf(plan: Planned): Reader {
    Reader(plan.places, Table(plan.detail), Table(plan.index))
  }

  function RefsIn(plan: Planned, kind: Kind): seq<BatchRef> {
    match kind case Detail => plan.detail case Index => plan.index
  }

  /** References that differ in their sizes at most. */
  ghost predicate SameRefs(a: seq<BatchRef>, b: seq<BatchRef>) {
    |a| == |b| && forall k :: 0 <= k < |a| ==> a[k].offset == b[k].offset && a[k].payload == b[k].payload
  }

  function DetailCount(links: seq<Link>): nat {
    if links == [] || links[0].kind == Index then 0 else 1 + DetailCount(links[1..])
  }

  lemma {:induction false} DetailsFirst(a: seq<BatchRef>, c: seq<BatchRef>)
    ensures DetailCount(LinksOf(Detail, a) + LinksOf(Index, c)) == |a|
  {
    var x := LinksOf(Detail, a) + LinksOf(Index, c);
    if a != [] {
      assert x[1..] == LinksOf(Detail, a[1..]) + LinksOf(Index, c);
      DetailsFirst(a[1..], c);
    }
  }

  lemma KindsSplit(a: seq<BatchRef>, b: seq<BatchRef>, c: seq<BatchRef>, d: seq<BatchRef>)
    requires LinksOf(Detail, a) + LinksOf(Index, c) == LinksOf(Detail, b) + LinksOf(Index, d)
    ensures SameRefs(a, b) && SameRefs(c, d)
  {
    var x, y := LinksOf(Detail, a) + LinksOf(Index, c), LinksOf(Detail, b) + LinksOf(Index, d);
    DetailsFirst(a, c);
    DetailsFirst(b, d);
    assert |a| == DetailCount(x) == DetailCount(y) == |b|;
    forall k | 0 <= k < |a|
      ensures a[k].offset == b[k].offset && a[k].payload == b[k].payload
    {
      assert x[k] == y[k];
    }
    forall k | 0 <= k < |c|
      ensures c[k].offset == d[k].offset && c[k].payload == d[k].payload
    {
      assert x[|a| + k] == y[|a| + k];
    }
  }

  lemma {:induction false} SameTables(a: seq<BatchRef>, b: seq<BatchRef>)
    requires SameRefs(a, b)
    ensures Table(a).Keys == Table(b).Keys && forall offset :: offset in Table(a) ==> Table(a)[offset].payload == Table(b)[offset].payload
  {
    if a != [] { SameTables(a[..|a| - 1], b[..|b| - 1]); }
  }

  /**
    Two replayable plans under one manifest serve the same rows at every offset, up to what receipts
    identify, wherever both serve any, though their captures and directories may differ. Otherwise the
    hash function collides.
   */
  lemma ManifestDeterminesRows(rt: Runtime, here: Disk, there: Disk, a: Planned, b: Planned, parts: seq<Stored>, others: seq<Stored>,
                               counts: Counts, otherCounts: Counts, windowStart: string, watermark: string, kind: Kind, offset: int)
    returns (x: Bytes, y: Bytes)
    requires Replayable(rt, parts, counts.items, counts.withdrawals, a, windowStart, watermark, counts.batches)
    requires Replayable(rt, others, otherCounts.items, otherCounts.withdrawals, b, windowStart, watermark, otherCounts.batches)
    requires a.manifest == b.manifest
    ensures var one, other := Served(rt, here, ReaderOf(a), kind, offset), Served(rt, there, ReaderOf(b), kind, offset);
      one.Some? && other.Some? ==> Receipt.Normal(List(one.value)) == Receipt.Normal(List(other.value)) || Collision(rt.sha, x, y)
  {
    hide Chain, LinksOf, MakeManifest, CheckedRows, Size, PayloadHash, Table, Receipt.Normal, PlacesAdmitted, RefsAdmitted, KeysOf;
    x, y := ManifestDeterminesBatches(rt, a, b, parts, others, counts, otherCounts, windowStart, watermark);
    var one, other := Served(rt, here, ReaderOf(a), kind, offset), Served(rt, there, ReaderOf(b), kind, offset);
    if one.Some? && other.Some? && !Collision(rt.sha, x, y) && offset != |a.places| {
      KindsSplit(a.detail, b.detail, a.index, b.index);
      SameTables(RefsIn(a, kind), RefsIn(b, kind));
      x, y := PayloadDetermines(rt.sha, one.value, other.value);
    }
  }
}
