/** The random-access reader of a plan: it admits every plan the planner makes and serves the builder's batches. */
module PlanReader {
  import opened Text
  import opened Sorting
  import opened Values
  import opened Json
  import opened Batching
  import opened ReceiptChain
  import opened Projection
  import opened Planner
  import opened Scan
  import opened Plan

  datatype Reader = Reader(places: seq<Location>, detail: map<nat, BatchRef>, index: map<nat, BatchRef>)

  function LookupOf(reader: Reader, kind: Kind): map<nat, BatchRef> {
    match kind case Detail => reader.detail case Index => reader.index
  }

  // --------------------------------------------------------------------- admission

  /** The records in the first `k` parts. */
  function Before(parts: seq<Stored>, k: nat): nat
    requires k <= |parts|
  {
    if k == 0 then 0 else Before(parts, k - 1) + parts[k - 1].sourceCount
  }

  /** A place lies inside the part of that name, and its ordinal among that part's ordinals. */
  predicate InPart(parts: seq<Stored>, k: nat, at: Location) {
    && k < |parts| && parts[k].name == at.name
    && Before(parts, k) < at.ordinal <= Before(parts, k + 1)
    && at.length > 0 && at.offset + at.length <= parts[k].bytes
  }

  ghost predicate InSomePart(parts: seq<Stored>, at: Location) {
    exists k :: InPart(parts, k, at)
  }

  predicate PlaceBefore(a: Location, b: Location) {
    Less(CodePoints(a.key), CodePoints(b.key)) || (a.key == b.key && a.ordinal < b.ordinal)
  }

  ghost predicate PlacesAdmitted(parts: seq<Stored>, places: seq<Location>) {
    && (forall i :: 0 <= i < |places| ==> InSomePart(parts, places[i]))
    && (forall i, j :: 0 <= i < j < |places| ==> places[i].ordinal != places[j].ordinal)
    && (forall i :: 0 < i < |places| ==> PlaceBefore(places[i - 1], places[i]))
  }

  function Covered(refs: seq<BatchRef>): nat {
    if refs == [] then 0 else Covered(refs[..|refs| - 1]) + refs[|refs| - 1].count
  }

  predicate RefFits(kind: Kind, offset: nat, ref: BatchRef) {
    ref.offset == offset && 1 <= ref.count <= MaxItems(kind) && 2 <= ref.bytes <= ByteLimit(kind)
  }

  ghost predicate RefsAdmitted(kind: Kind, refs: seq<BatchRef>, count: nat) {
    (forall i :: 0 <= i < |refs| ==> RefFits(kind, Covered(refs[..i]), refs[i])) && Covered(refs) == count
  }

  ghost predicate Admitted(parts: seq<Stored>, itemCount: nat, plan: Planned) {
    && |plan.places| == itemCount && PlacesAdmitted(parts, plan.places)
    && RefsAdmitted(Detail, plan.detail, itemCount) && RefsAdmitted(Index, plan.index, itemCount)
  }

  function Table(refs: seq<BatchRef>): map<nat, BatchRef> {
    if refs == [] then map[] else Table(refs[..|refs| - 1])[refs[|refs| - 1].offset := refs[|refs| - 1]]
  }

  method OpenRefs(kind: Kind, refs: seq<BatchRef>, count: nat) returns (r: Option<map<nat, BatchRef>>)
    ensures r == if RefsAdmitted(kind, refs, count) then Some(Table(refs)) else None
  {
    hide RefFits, Covered, Table;
    NoRefs(refs);
    var offset: nat := 0;
    var lookup: map<nat, BatchRef> := map[];
    for n := 0 to |refs|
      invariant offset == Covered(refs[..n]) && lookup == Table(refs[..n])
      invariant forall i :: 0 <= i < n ==> RefFits(kind, Covered(refs[..i]), refs[i])
    {
      RefsStep(refs, n);
      if !RefFits(kind, offset, refs[n]) {
        return None;
      }
      assert offset == refs[n].offset by { FitsAt(kind, offset, refs[n]); }
      lookup := lookup[offset := refs[n]];
      offset := offset + refs[n].count;
    }
    assert refs[..|refs|] == refs;
    if offset != count {
      return None;
    }
    return Some(lookup);
  }

  lemma FitsAt(kind: Kind, offset: nat, ref: BatchRef)
    requires RefFits(kind, offset, ref)
    ensures ref.offset == offset
  {}

  lemma NoRefs(refs: seq<BatchRef>)
    ensures Covered(refs[..0]) == 0 && Table(refs[..0]) == map[]
  {}

  lemma RefsStep(refs: seq<BatchRef>, n: nat)
    requires n < |refs|
    ensures Covered(refs[..n + 1]) == Covered(refs[..n]) + refs[n].count
    ensures Table(refs[..n + 1]) == Table(refs[..n])[refs[n].offset := refs[n]]
  {
    assert refs[..n + 1][..n] == refs[..n];
  }

  ghost predicate DistinctNames(parts: seq<Stored>) {
    forall i, j :: 0 <= i < j < |parts| ==> parts[i].name != parts[j].name
  }

  /** A part's size and the numbers of its first and last records. */
  datatype Span = Span(bytes: nat, first: nat, last: nat)

  function SpanOf(parts: seq<Stored>, k: nat): Span
    requires k < |parts|
  {
    Span(parts[k].bytes, Before(parts, k) + 1, Before(parts, k + 1))
  }

  predicate Spans(table: map<string, Span>, at: Location) {
    && at.name in table
    && table[at.name].first <= at.ordinal <= table[at.name].last
    && at.length > 0 && at.offset + at.length <= table[at.name].bytes
  }

  lemma SpanIs(parts: seq<Stored>, k: nat)
    requires k < |parts|
    ensures SpanOf(parts, k) == Span(parts[k].bytes, Before(parts, k) + 1, Before(parts, k) + parts[k].sourceCount)
  {}

  method PartTable(parts: seq<Stored>) returns (table: map<string, Span>)
    requires DistinctNames(parts)
    ensures forall name :: name in table ==> exists k :: 0 <= k < |parts| && parts[k].name == name
    ensures forall k :: 0 <= k < |parts| ==> parts[k].name in table && table[parts[k].name] == SpanOf(parts, k)
  {
    hide SpanOf;
    table := map[];
    var ordinal: nat := 0;
    for n := 0 to |parts|
      invariant ordinal == Before(parts, n)
      invariant forall name :: name in table ==> exists k :: 0 <= k < n && parts[k].name == name
      invariant forall k :: 0 <= k < n ==> parts[k].name in table && table[parts[k].name] == SpanOf(parts, k)
    {
      SpanIs(parts, n);
      table := table[parts[n].name := Span(parts[n].bytes, ordinal + 1, ordinal + parts[n].sourceCount)];
      ordinal := ordinal + parts[n].sourceCount;
    }
  }

  lemma SpansExactly(parts: seq<Stored>, table: map<string, Span>, at: Location)
    requires DistinctNames(parts)
    requires forall name :: name in table ==> exists k :: 0 <= k < |parts| && parts[k].name == name
    requires forall k :: 0 <= k < |parts| ==> parts[k].name in table && table[parts[k].name] == SpanOf(parts, k)
    ensures Spans(table, at) <==> InSomePart(parts, at)
  {
    hide Before;
    if Spans(table, at) {
      var k :| 0 <= k < |parts| && parts[k].name == at.name;
      assert InPart(parts, k, at);
    }
  }

  method OpenPlaces(parts: seq<Stored>, places: seq<Location>) returns (ok: bool)
    requires DistinctNames(parts)
    ensures ok <==> PlacesAdmitted(parts, places)
  {
    hide InSomePart, PlaceBefore, Spans, SpanOf;
    var table := PartTable(parts);
    var ordinals: set<nat> := {};
    for n := 0 to |places|
      invariant forall i :: 0 <= i < n ==> InSomePart(parts, places[i])
      invariant forall i, j :: 0 <= i < j < n ==> places[i].ordinal != places[j].ordinal
      invariant forall i :: 0 < i < n ==> PlaceBefore(places[i - 1], places[i])
      invariant forall x :: x in ordinals <==> exists i :: 0 <= i < n && places[i].ordinal == x
    {
      var at := places[n];
      SpansExactly(parts, table, at);
      if !Spans(table, at) || at.ordinal in ordinals || (n > 0 && !PlaceBefore(places[n - 1], at)) {
        return false;
      }
      ordinals := ordinals + {at.ordinal};
    }
    return true;
  }

  /** The constructor of the plan reader; `None` is its `ValueError`. */
  method Open(parts: seq<Stored>, itemCount: nat, plan: Planned) returns (r: Option<Reader>)
    requires DistinctNames(parts)
    ensures r == if Admitted(parts, itemCount, plan) then Some(Reader(plan.places, Table(plan.detail), Table(plan.index))) else None
  {
    if |plan.places| != itemCount {
      return None;
    }
    var placed := OpenPlaces(parts, plan.places);
    if !placed {
      return None;
    }
    var detail := OpenRefs(Detail, plan.detail, |plan.places|);
    if detail.None? {
      return None;
    }
    var index := OpenRefs(Index, plan.index, |plan.places|);
    if index.None? {
      return None;
    }
    return Some(Reader(plan.places, detail.value, index.value));
  }

  // ------------------------------------------------------------------------ serving

  /** One row of a batch, with the identity check of its record. */
  function CheckedRow(rt: Runtime, disk: Disk, kind: Kind, at: Location): Option<Row> {
    var record :- ReadRecord(rt, disk, at);
    if ItemChecks(rt, record, at.key) then Field(record, KindText(kind)) else None
  }

  function CheckedRows(rt: Runtime, disk: Disk, kind: Kind, places: seq<Location>): Option<seq<Row>> {
    if places == [] then Some([])
    else
      var n := |places| - 1;
      var rows :- CheckedRows(rt, disk, kind, places[..n]);
      var row :- CheckedRow(rt, disk, kind, places[n]);
      Some(rows + [row])
  }

  /** The answer to a request: `None` is the rejection. */
  function Served(rt: Runtime, disk: Disk, reader: Reader, kind: Kind, offset: int): Option<seq<Row>> {
    if offset < 0 then None
    else if offset == |reader.places| then Some([])
    else if offset !in LookupOf(reader, kind) then None
    else
      var ref := LookupOf(reader, kind)[offset];
      if offset + ref.count > |reader.places| then None
      else
        var rows :- CheckedRows(rt, disk, kind, reader.places[offset..offset + ref.count]);
        if Size(rt.f, rows) == ref.bytes && PayloadHash(rt.sha, rows) == Some(ref.payload) then Some(rows) else None
  }

  /** `_NewsSourcePlanReader.batch_items`. */
  method BatchItems(rt: Runtime, disk: Disk, reader: Reader, kind: Kind, offset: int) returns (r: Option<seq<Row>>)
    ensures r == Served(rt, disk, reader, kind, offset)
  {
    hide CheckedRow, CheckedRows, Size, PayloadHash;
    if offset < 0 {
      return None;
    }
    if offset == |reader.places| {
      return Some([]);
    }
    if offset !in LookupOf(reader, kind) {
      return None;
    }
    var ref := LookupOf(reader, kind)[offset];
    if offset + ref.count > |reader.places| {
      return None;
    }
    var places := reader.places[offset..offset + ref.count];
    var rows: seq<Row> := [];
    NoCheckedRows(rt, disk, kind, places);
    for n := 0 to |places|
      invariant CheckedRows(rt, disk, kind, places[..n]) == Some(rows)
    {
      CheckedRowsStep(rt, disk, kind, places, n);
      var row := CheckedRow(rt, disk, kind, places[n]);
      if row.None? {
        RowsFail(rt, disk, kind, places, n + 1);
        return None;
      }
      rows := rows + [row.value];
    }
    assert places[..|places|] == places;
    if Size(rt.f, rows) != ref.bytes || PayloadHash(rt.sha, rows) != Some(ref.payload) {
      return None;
    }
    return Some(rows);
  }

  lemma NoCheckedRows(rt: Runtime, disk: Disk, kind: Kind, places: seq<Location>)
    ensures CheckedRows(rt, disk, kind, places[..0]) == Some([])
  {}

  lemma CheckedRowsStep(rt: Runtime, disk: Disk, kind: Kind, places: seq<Location>, n: nat)
    requires n < |places|
    ensures CheckedRows(rt, disk, kind, places[..n + 1])
         == match CheckedRows(rt, disk, kind, places[..n])
            case None => None
            case Some(rows) => match CheckedRow(rt, disk, kind, places[n]) case None => None case Some(row) => Some(rows + [row])
  {
    hide CheckedRow;
    assert places[..n + 1][..n] == places[..n];
  }

  lemma {:induction false} RowsFail(rt: Runtime, disk: Disk, kind: Kind, places: seq<Location>, n: nat)
    requires n <= |places| && CheckedRows(rt, disk, kind, places[..n]).None?
    ensures CheckedRows(rt, disk, kind, places).None?
    decreases |places|
  {
    hide CheckedRow;
    if n < |places| {
      assert places[..|places| - 1][..n] == places[..n];
      RowsFail(rt, disk, kind, places[..|places| - 1], n);
    } else {
      assert places[..n] == places;
    }
  }

  // ----------------------------------------------------- references of described batches

  lemma {:induction false} DescribedAt(rt: Runtime, offset: nat, batches: seq<seq<Row>>, k: nat)
    requires Describe(rt, offset, batches).Some? && k < |batches|
    ensures var refs := Describe(rt, offset, batches).value;
      && |refs| == |batches|
      && refs[k].offset == offset + |Concat(batches[..k])| && refs[k].count == |batches[k]|
      && refs[k].bytes == Size(rt.f, batches[k]) && PayloadHash(rt.sha, batches[k]) == Some(refs[k].payload)
    decreases |batches|
  {
    hide PayloadHash, Size;
    if k > 0 {
      DescribedAt(rt, offset + |batches[0]|, batches[1..], k - 1);
      assert batches[..k][1..] == batches[1..][..k - 1];
    } else {
      DescribedLength(rt, offset, batches);
    }
  }

  lemma {:induction false} DescribedLength(rt: Runtime, offset: nat, batches: seq<seq<Row>>)
    requires Describe(rt, offset, batches).Some?
    ensures |Describe(rt, offset, batches).value| == |batches|
    decreases |batches|
  {
    hide PayloadHash, Size;
    if batches != [] { DescribedLength(rt, offset + |batches[0]|, batches[1..]); }
  }

  lemma {:induction false} ConcatPrefix(batches: seq<seq<Row>>, k: nat)
    requires k < |batches|
    ensures Concat(batches[..k + 1]) == Concat(batches[..k]) + batches[k]
    ensures |Concat(batches[..k + 1])| <= |Concat(batches)|
    ensures Concat(batches)[|Concat(batches[..k])|..|Concat(batches[..k])| + |batches[k]|] == batches[k]
  {
    assert batches[..k + 1] == batches[..k] + [batches[k]];
    ConcatAppend(batches[..k], [batches[k]]);
    ConcatOne(batches[k]);
    assert batches == batches[..k + 1] + batches[k + 1..];
    ConcatAppend(batches[..k + 1], batches[k + 1..]);
  }

  lemma {:induction false} CoveredIs(rt: Runtime, batches: seq<seq<Row>>, k: nat)
    requires Describe(rt, 0, batches).Some? && k <= |batches|
    ensures var refs := Describe(rt, 0, batches).value;
      |refs| == |batches| && Covered(refs[..k]) == |Concat(batches[..k])|
  {
    hide Describe;
    DescribedLength(rt, 0, batches);
    var refs := Describe(rt, 0, batches).value;
    if k > 0 {
      CoveredIs(rt, batches, k - 1);
      DescribedAt(rt, 0, batches, k - 1);
      ConcatPrefix(batches, k - 1);
      assert refs[..k][..k - 1] == refs[..k - 1];
    }
  }

  /** The batches of any successful cut are admitted. */
  lemma DescribedRefsAdmitted(rt: Runtime, kind: Kind, rows: seq<Row>, batches: seq<seq<Row>>)
    requires Cut(rt.f, ByteLimit(kind), MaxItems(kind), [], rows) == Some(batches)
    requires Describe(rt, 0, batches).Some?
    ensures RefsAdmitted(kind, Describe(rt, 0, batches).value, |rows|)
  {
    hide Cut, Describe, PayloadHash, Size;
    var refs := Describe(rt, 0, batches).value;
    CutIsPartition(rt.f, ByteLimit(kind), MaxItems(kind), [], rows);
    assert [] + rows == rows;
    DescribedLength(rt, 0, batches);
    forall k | 0 <= k < |refs|
      ensures RefFits(kind, Covered(refs[..k]), refs[k])
    {
      CoveredIs(rt, batches, k);
      DescribedAt(rt, 0, batches, k);
      assert batches[k] != [] && Fits(rt.f, ByteLimit(kind), MaxItems(kind), batches[k]);
      Brackets(rt.f, batches[k]);
    }
    CoveredIs(rt, batches, |batches|);
    assert refs[..|refs|] == refs && batches[..|batches|] == batches;
  }

  lemma {:induction false} TableOf(refs: seq<BatchRef>)
    requires forall i, j :: 0 <= i < j < |refs| ==> refs[i].offset < refs[j].offset
    ensures forall k :: 0 <= k < |refs| ==> refs[k].offset in Table(refs) && Table(refs)[refs[k].offset] == refs[k]
    ensures forall o :: o in Table(refs) ==> exists k :: 0 <= k < |refs| && refs[k].offset == o
  {
    if refs != [] { TableOf(refs[..|refs| - 1]); }
  }

  lemma {:induction false} ConcatMonotone(batches: seq<seq<Row>>, i: nat, j: nat)
    requires i < j <= |batches| && forall k :: 0 <= k < |batches| ==> batches[k] != []
    ensures |Concat(batches[..i])| < |Concat(batches[..j])|
    decreases j
  {
    ConcatPrefix(batches, j - 1);
    if i < j - 1 { ConcatMonotone(batches, i, j - 1); }
  }

  // ------------------------------------------------------------ serving what was built

  /** Where the builder's batches start. */
  lemma {:induction false} BatchAtBoundary(batches: seq<seq<Row>>, k: nat)
    requires k < |batches| && forall i :: 0 <= i < |batches| ==> batches[i] != []
    ensures BatchAt(batches, |Concat(batches[..k])|) == Some(batches[k])
    decreases |batches|
  {
    if k > 0 {
      assert batches[..k][1..] == batches[1..][..k - 1];
      BatchAtBoundary(batches[1..], k - 1);
    }
  }

  lemma {:induction false} BatchAtEnd(batches: seq<seq<Row>>)
    requires forall i :: 0 <= i < |batches| ==> batches[i] != []
    ensures BatchAt(batches, |Concat(batches)|) == Some([])
    decreases |batches|
  {
    if batches != [] { BatchAtEnd(batches[1..]); }
  }

  /** Every other offset is rejected. */
  lemma {:induction false} BatchAtElsewhere(batches: seq<seq<Row>>, offset: int)
    requires forall i :: 0 <= i < |batches| ==> batches[i] != []
    requires BatchAt(batches, offset).Some?
    ensures offset == |Concat(batches)| || exists k :: 0 <= k < |batches| && offset == |Concat(batches[..k])|
    decreases |batches|
  {
    if batches != [] {
      if offset == 0 {
        assert offset == |Concat(batches[..0])|;
      } else {
        var rest := batches[1..];
        BatchAtElsewhere(rest, offset - |batches[0]|);
        if offset != |Concat(batches)| {
          var k :| 0 <= k < |rest| && offset - |batches[0]| == |Concat(rest[..k])|;
          assert batches[..k + 1][1..] == rest[..k];
          assert offset == |Concat(batches[..k + 1])|;
        }
      }
    }
  }

  ghost predicate ChecksBack(rt: Runtime, disk: Disk, kind: Kind, places: seq<Location>, rows: seq<Row>) {
    |rows| == |places| && forall i :: 0 <= i < |places| ==> CheckedRow(rt, disk, kind, places[i]) == Some(rows[i])
  }

  lemma {:induction false} CheckedRowsAre(rt: Runtime, disk: Disk, kind: Kind, places: seq<Location>, rows: seq<Row>)
    requires ChecksBack(rt, disk, kind, places, rows)
    ensures CheckedRows(rt, disk, kind, places) == Some(rows)
    decreases |places|
  {
    hide CheckedRow;
    if places != [] {
      var n := |places| - 1;
      CheckedRowsAre(rt, disk, kind, places[..n], rows[..n]);
      assert rows == rows[..n] + [rows[n]];
    }
  }

  /** The reader and the in-memory generation answer every request alike: rows, end and rejections. */
  lemma ServedAsBuilt(rt: Runtime, disk: Disk, kind: Kind, rows: seq<Row>, batches: seq<seq<Row>>, reader: Reader, offset: int)
    requires Cut(rt.f, ByteLimit(kind), MaxItems(kind), [], rows) == Some(batches)
    requires Describe(rt, 0, batches).Some? && LookupOf(reader, kind) == Table(Describe(rt, 0, batches).value)
    requires ChecksBack(rt, disk, kind, reader.places, rows)
    ensures Served(rt, disk, reader, kind, offset) == BatchAt(batches, offset)
  {
    hide Cut, Describe, PayloadHash, Size, CheckedRow, Served, BatchAt, Table, Fits;
    var refs := Describe(rt, 0, batches).value;
    CutIsPartition(rt.f, ByteLimit(kind), MaxItems(kind), [], rows);
    assert [] + rows == rows && Concat(batches) == rows;
    assert forall i :: 0 <= i < |batches| ==> batches[i] != [];
    RefsIncrease(rt, batches);
    TableOf(refs);
    if offset == |rows| {
      BatchAtEnd(batches);
      ServedAtEnd(rt, disk, reader, kind);
    } else if k :| 0 <= k < |batches| && offset == |Concat(batches[..k])| {
      BatchAtBoundary(batches, k);
      ServedAtBoundary(rt, disk, kind, rows, batches, reader, k);
    } else {
      if BatchAt(batches, offset).Some? { BatchAtElsewhere(batches, offset); }
      if offset >= 0 && offset in LookupOf(reader, kind) {
        var k :| 0 <= k < |refs| && refs[k].offset == offset;
        DescribedAt(rt, 0, batches, k);
      }
      ServedNowhere(rt, disk, reader, kind, offset);
    }
  }

  lemma ServedAtEnd(rt: Runtime, disk: Disk, reader: Reader, kind: Kind)
    ensures Served(rt, disk, reader, kind, |reader.places|) == Some([])
  {}

  lemma ServedNowhere(rt: Runtime, disk: Disk, reader: Reader, kind: Kind, offset: int)
    requires offset != |reader.places| && (offset < 0 || offset !in LookupOf(reader, kind))
    ensures Served(rt, disk, reader, kind, offset).None?
  {}

  lemma RefsIncrease(rt: Runtime, batches: seq<seq<Row>>)
    requires Describe(rt, 0, batches).Some? && forall k :: 0 <= k < |batches| ==> batches[k] != []
    ensures var refs := Describe(rt, 0, batches).value;
      |refs| == |batches| && forall i, j :: 0 <= i < j < |refs| ==> refs[i].offset < refs[j].offset
  {
    hide Describe, PayloadHash, Size;
    var refs := Describe(rt, 0, batches).value;
    DescribedLength(rt, 0, batches);
    forall i, j | 0 <= i < j < |refs|
      ensures refs[i].offset < refs[j].offset
    {
      DescribedAt(rt, 0, batches, i);
      DescribedAt(rt, 0, batches, j);
      ConcatMonotone(batches, i, j);
    }
  }

  lemma ServedAtBoundary(rt: Runtime, disk: Disk, kind: Kind, rows: seq<Row>, batches: seq<seq<Row>>, reader: Reader, k: nat)
    requires k < |batches| && Concat(batches) == rows && batches[k] != []
    requires Describe(rt, 0, batches).Some? && |Describe(rt, 0, batches).value| == |batches|
    requires var ref := Describe(rt, 0, batches).value[k];
      ref.offset in LookupOf(reader, kind) && LookupOf(reader, kind)[ref.offset] == ref
    requires ChecksBack(rt, disk, kind, reader.places, rows)
    ensures Served(rt, disk, reader, kind, |Concat(batches[..k])|) == Some(batches[k])
  {
    hide Describe, PayloadHash, Size, CheckedRow, CheckedRows;
    DescribedAt(rt, 0, batches, k);
    ConcatPrefix(batches, k);
    var start, stop := |Concat(batches[..k])|, |Concat(batches[..k])| + |batches[k]|;
    assert rows[start..stop] == batches[k];
    CheckedRowsAre(rt, disk, kind, reader.places[start..stop], batches[k]);
  }

  // --------------------------------------------------- every plan that is made is admitted

  /** The places of a census are found records under their ordinals. */
  lemma {:induction false} CensusPlacesAreFound(rt: Runtime, found: seq<Found>, i: nat)
    requires Count(rt, found).Some? && i < |Count(rt, found).value.places|
    ensures var at := Count(rt, found).value.places[i];
      && 1 <= at.ordinal <= |found|
      && var f := found[at.ordinal - 1]; at.name == f.name && at.offset == f.offset && at.length == f.length
    decreases |found|
  {
    hide ItemKey, DescriptorBytes, Field;
    var n := |found| - 1;
    if i < |Count(rt, found[..n]).value.places| {
      CensusPlacesAreFound(rt, found[..n], i);
    }
  }

  /** The record found `i`-th lies inside its part, whose ordinals include `i + 1`. */
  lemma {:induction false} FoundInSomePart(rt: Runtime, disk: Disk, parts: seq<Stored>, chunks: seq<seq<Value>>, i: nat, key: Digest, digest: Digest)
    requires IsFloatText(rt.f) && Holds(rt, disk, parts, chunks) && i < |LocateAll(rt, parts, chunks)|
    ensures var f := LocateAll(rt, parts, chunks)[i];
      InSomePart(parts, Location(key, i + 1, f.name, f.offset, f.length, digest))
    decreases |parts|
  {
    hide Locate, LocateAll, Line, InPart, PartHolds;
    var n := |parts| - 1;
    LocateAllEnds(rt, parts, chunks);
    LocateAllStep(rt, parts, chunks, n);
    var earlier := LocateAll(rt, parts[..n], chunks[..n]);
    FoundCount(rt, disk, parts[..n], chunks[..n]);
    BeforePrefix(parts, n, n);
    if i < |earlier| {
      FoundInSomePart(rt, disk, parts[..n], chunks[..n], i, key, digest);
      var at := Location(key, i + 1, earlier[i].name, earlier[i].offset, earlier[i].length, digest);
      var k :| InPart(parts[..n], k, at);
      InLongerList(parts, n, k, at);
    } else {
      FoundInPart(rt, disk, parts, chunks, n, i - |earlier|, key, digest);
    }
  }

  lemma InLongerList(parts: seq<Stored>, n: nat, k: nat, at: Location)
    requires n <= |parts| && InPart(parts[..n], k, at)
    ensures InPart(parts, k, at)
  {
    BeforePrefix(parts, n, k);
    BeforePrefix(parts, n, k + 1);
  }

  lemma FoundInPart(rt: Runtime, disk: Disk, parts: seq<Stored>, chunks: seq<seq<Value>>, n: nat, j: nat, key: Digest, digest: Digest)
    requires IsFloatText(rt.f) && n < |parts| && |chunks| == |parts| && PartHolds(rt, disk, parts[n], chunks[n]) && j < |chunks[n]|
    ensures var f := Locate(rt, parts[n].name, 0, chunks[n])[j];
      InPart(parts, n, Location(key, Before(parts, n) + j + 1, f.name, f.offset, f.length, digest))
  {
    hide Locate, Line;
    assert disk[parts[n].name][0..] == disk[parts[n].name];
    LocateFindsLines(rt, disk, parts[n].name, [], chunks[n], j);
  }

  lemma {:induction false} BeforePrefix(parts: seq<Stored>, n: nat, k: nat)
    requires k <= n <= |parts|
    ensures Before(parts[..n], k) == Before(parts, k)
    decreases k
  {
    if k > 0 { BeforePrefix(parts, n, k - 1); }
  }

  lemma {:induction false} FoundCount(rt: Runtime, disk: Disk, parts: seq<Stored>, chunks: seq<seq<Value>>)
    requires Holds(rt, disk, parts, chunks)
    ensures |LocateAll(rt, parts, chunks)| == Before(parts, |parts|)
    decreases |parts|
  {
    hide Locate, LocateAll;
    if parts != [] {
      var n := |parts| - 1;
      LocateAllStep(rt, parts, chunks, n);
      LocateAllEnds(rt, parts, chunks);
      FoundCount(rt, disk, parts[..n], chunks[..n]);
      BeforePrefix(parts, n, n);
      assert PartHolds(rt, disk, parts[n], chunks[n]);
    } else {
      LocateAllEnds(rt, parts, chunks);
      assert parts[..0] == parts && chunks[..0] == chunks;
    }
  }

  /** Sorting keeps the places admitted: ordinals stay distinct and the order becomes strict. */
  lemma SortedPlacesAdmitted(parts: seq<Stored>, places: seq<Location>)
    requires forall i :: 0 <= i < |places| ==> InSomePart(parts, places[i])
    requires forall i, j :: 0 <= i < j < |places| ==> places[i].ordinal < places[j].ordinal
    ensures PlacesAdmitted(parts, SortPlaces(places))
  {
    hide InSomePart, StableOrder;
    var key := (at: Location) => CodePoints(at.key) + [at.ordinal];
    var keys, sorted := Keys(places, key), SortPlaces(places);
    var p := StableOrder(keys);
    forall i, j | 0 <= i < j < |p|
      ensures PlaceBefore(sorted[i], sorted[j]) && sorted[i].ordinal != sorted[j].ordinal
    {
      assert Precedes(keys, p[i], p[j]);
      assert keys[p[i]] == key(sorted[i]) && keys[p[j]] == key(sorted[j]);
      PlaceOrder(sorted[i], sorted[j]);
      assert p[i] != p[j] by { LessAsymmetric(keys[p[i]], keys[p[i]]); }
    }
  }

  lemma PlaceOrder(a: Location, b: Location)
    ensures Less(CodePoints(a.key) + [a.ordinal], CodePoints(b.key) + [b.ordinal]) <==> PlaceBefore(a, b)
    ensures CodePoints(a.key) + [a.ordinal] == CodePoints(b.key) + [b.ordinal] ==> a.ordinal == b.ordinal
  {
    LessWithTie(CodePoints(a.key), CodePoints(b.key), a.ordinal, b.ordinal);
    CodePointsInjective(a.key, b.key);
    assert (CodePoints(a.key) + [a.ordinal])[64] == a.ordinal && (CodePoints(b.key) + [b.ordinal])[64] == b.ordinal;
  }

  ghost predicate PlannedFrom(rt: Runtime, disk: Disk, parts: seq<Stored>, totals: Totals, q: Request,
                              rows: seq<SourceRow>, chunks: seq<seq<Value>>, g: Generation, plan: Planned) {
    && Captured(rt, disk, parts, totals, rows, chunks)
    && q == RequestFor(rows, q.windowStart, q.watermark) && Assemble(rt, q) == Some(g)
    && Expected(rt, Count(rt, LocateAll(rt, parts, chunks)), Some(g)) == Some(plan)
  }

  /** A plan made from a complete capture opens, and answers every request as the in-memory generation does. */
  lemma PlanServesTheGeneration(rt: Runtime, disk: Disk, parts: seq<Stored>, totals: Totals, q: Request,
                                rows: seq<SourceRow>, chunks: seq<seq<Value>>, g: Generation, plan: Planned, kind: Kind, offset: int)
    requires Faithful(rt) && PlannedFrom(rt, disk, parts, totals, q, rows, chunks, g, plan)
    ensures plan.manifest == g.manifest
    ensures Admitted(parts, totals.itemCount, plan)
    ensures Served(rt, disk, Reader(plan.places, Table(plan.detail), Table(plan.index)), kind, offset)
         == BatchAt(BatchesOf(g, kind), offset)
  {
    hide Captured, Count, LocateAll, Assemble, Describe, Served, BatchAt, Table, Cut, InKeyOrder, SortPlaces, CheckedRow, Checks,
         RefsAdmitted, PlacesAdmitted, ReadRow, Rows, Faithful, InSomePart;
    CapturedHolds(rt, disk, parts, totals, rows, chunks);
    var census := Count(rt, LocateAll(rt, parts, chunks)).value;
    var ps := InKeyOrder(rt, q.rows);
    CapturedCensus(rt, disk, parts, totals, rows, chunks, census);
    AssembledBatches(rt, q, g);
    DescribedRefsAdmitted(rt, Detail, Rows(Detail, ps), g.detailBatches);
    DescribedRefsAdmitted(rt, Index, Rows(Index, ps), g.indexBatches);
    forall i | 0 <= i < |census.places|
      ensures InSomePart(parts, census.places[i])
    {
      PlaceInSomePart(rt, disk, parts, totals, rows, chunks, census, i);
    }
    SortedPlacesAdmitted(parts, census.places);
    ReadsBackChecked(rt, disk, kind, plan.places, Rows(kind, ps));
    ServedAsBuilt(rt, disk, kind, Rows(kind, ps), BatchesOf(g, kind),
                  Reader(plan.places, Table(plan.detail), Table(plan.index)), offset);
  }

  lemma PlaceInSomePart(rt: Runtime, disk: Disk, parts: seq<Stored>, totals: Totals, rows: seq<SourceRow>, chunks: seq<seq<Value>>,
                        census: Census, i: nat)
    requires Faithful(rt) && Captured(rt, disk, parts, totals, rows, chunks)
    requires Count(rt, LocateAll(rt, parts, chunks)) == Some(census) && i < |census.places|
    ensures InSomePart(parts, census.places[i])
  {
    hide Count, LocateAll, InSomePart, Record, Faithful, Captured;
    FaithfulFloats(rt);
    CapturedHolds(rt, disk, parts, totals, rows, chunks);
    var found := LocateAll(rt, parts, chunks);
    CensusPlacesAreFound(rt, found, i);
    var at := census.places[i];
    FoundInSomePart(rt, disk, parts, chunks, at.ordinal - 1, at.key, at.digest);
  }

  lemma ReadsBackChecked(rt: Runtime, disk: Disk, kind: Kind, places: seq<Location>, rows: seq<Row>)
    requires ReadsBack(rt, disk, kind, places, rows) && forall k :: 0 <= k < |places| ==> Checks(rt, disk, places[k])
    ensures ChecksBack(rt, disk, kind, places, rows)
  {
    hide ReadRecord, ItemChecks, Field;
  }

  lemma AssembledBatches(rt: Runtime, q: Request, g: Generation)
    requires Assemble(rt, q) == Some(g)
    ensures var ps := InKeyOrder(rt, q.rows);
      && |Rows(Detail, ps)| == |Rows(Index, ps)| == |ps|
      && Cut(rt.f, ByteLimit(Detail), MaxItems(Detail), [], Rows(Detail, ps)) == Some(g.detailBatches)
      && Cut(rt.f, ByteLimit(Index), MaxItems(Index), [], Rows(Index, ps)) == Some(g.indexBatches)
      && Describe(rt, 0, g.detailBatches).Some? && Describe(rt, 0, g.indexBatches).Some?
  {
    hide Cut, InKeyOrder, Describe, Links, MakeManifest, Sha, Source, Sorted, SortedSet, Chain;
    DescribeGivesLinks(rt, Detail, 0, g.detailBatches);
    DescribeGivesLinks(rt, Index, 0, g.indexBatches);
  }
}
