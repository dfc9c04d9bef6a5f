/** What planning and the plan reader promise, told from rows and records. */
module PlanLaws {
  import opened Text
  import opened Sorting
  import opened Values
  import opened Json
  import opened Batching
  import opened ReceiptChain
  import opened Projection
  import opened Planner
  import opened Scan
  import opened Plan
  import opened PlanReader
  import opened ProjectedRows

  // ----------------------------------------------------------- the metadata of a capture

  /** What planning keeps of one row: the key of a withdrawal, or where the item lies. */
  function KeptBytes(rt: Runtime, row: SourceRow, ordinal: nat, found: Found): nat {
    if Excludes(row.entries) then |Utf8(StableKey(rt, row.entries))| + 3
    else
      |Wire(rt.f, List([Str(Project(rt, row.entries).key), Int(ordinal), Str(found.name), Int(found.offset), Int(found.length),
                        Str(found.digest)]))| + 1
  }

  function AllKept(rt: Runtime, rows: seq<SourceRow>, found: seq<Found>): nat
    requires |found| == |rows|
  {
    if rows == [] then 0
    else
      var n := |rows| - 1;
      AllKept(rt, rows[..n], found[..n]) + KeptBytes(rt, rows[n], |rows|, found[n])
  }

  /** Planning a captured source is refused for its metadata exactly when what it keeps of all rows is more than 32 MiB. */
  lemma {:induction false} MetadataIs(rt: Runtime, disk: Disk, rows: seq<SourceRow>, found: seq<Found>)
    requires IsSource(rows) && FoundAll(rt, disk, rows, found)
    ensures Plan.Count(rt, found).Some? <==> AllKept(rt, rows, found) <= 32 * 1024 * 1024
    ensures Plan.Count(rt, found).Some? ==> Plan.Count(rt, found).value.metadata == AllKept(rt, rows, found)
    decreases |rows|
  {
    hide Tally, KeptBytes, Record, LiesAt, Excludes;
    if rows != [] {
      var n := |rows| - 1;
      MetadataIs(rt, disk, rows[..n], found[..n]);
      if Plan.Count(rt, found[..n]).Some? { TallyIs(rt, Plan.Count(rt, found[..n]).value, rows[n], |rows|, found[n]); }
    }
  }

  lemma TallyIs(rt: Runtime, c: Census, row: SourceRow, ordinal: nat, found: Found)
    requires HasIdentity(row.entries) && found.record == Record(rt, row)
    ensures var r := Tally(rt, c, ordinal, found);
      && (r.Some? <==> c.metadata + KeptBytes(rt, row, ordinal, found) <= METADATA_BYTES)
      && (r.Some? ==> r.value.metadata == c.metadata + KeptBytes(rt, row, ordinal, found))
  {
    hide Excludes, Record, StableKey, ItemKey, Project, Wire, Utf8;
    WithdrawalField(rt, row);
    if !Excludes(row.entries) { RecordChecks(rt, row); }
  }

  // ---------------------------------------------------------------- what a source amounts to

  /** A row is withheld when a policy skipped it or it is marked irrelevant. */
  ghost predicate IsWithheld(es: seq<Entry>) {
    || (exists v :: Lookup(es, "content_policy_skipped") == Some(v) && !IsNothing(v))
    || Lookup(es, "xauusd_relevance") == Some(Str("IRRELEVANT"))
  }

  lemma WithheldIs(es: seq<Entry>)
    ensures Excludes(es) <==> IsWithheld(es)
  {
    hide Lookup, Truthy;
    TruthyIs(Get(es, "content_policy_skipped"));
  }

  predicate IsAmong(rows: seq<SourceRow>, es: seq<Entry>) {
    exists i :: 0 <= i < |rows| && rows[i].entries == es
  }

  lemma {:induction false} SourceIsDivided(rows: seq<SourceRow>)
    ensures |Visible(rows)| + |Withdrawn(rows)| == |rows|
    ensures forall es :: es in Visible(rows) <==> IsAmong(rows, es) && !IsWithheld(es)
    ensures forall es :: es in Withdrawn(rows) <==> IsAmong(rows, es) && IsWithheld(es)
  {
    hide IsWithheld, Excludes, IsAmong;
    if rows == [] {
      NoneAmong();
    } else {
      WithheldIs(rows[0].entries);
      SourceIsDivided(rows[1..]);
      forall es: seq<Entry>
        ensures IsAmong(rows, es) <==> rows[0].entries == es || IsAmong(rows[1..], es)
      {
        FirstOrLater(rows, es);
      }
    }
  }

  lemma NoneAmong()
    ensures forall es :: !IsAmong([], es)
  {}

  lemma FirstOrLater(rows: seq<SourceRow>, es: seq<Entry>)
    requires rows != []
    ensures IsAmong(rows, es) <==> rows[0].entries == es || IsAmong(rows[1..], es)
  {
    if IsAmong(rows, es) {
      var i :| 0 <= i < |rows| && rows[i].entries == es;
      if i > 0 { assert rows[1..][i - 1].entries == es; }
    }
    if IsAmong(rows[1..], es) {
      var i :| 0 <= i < |rows[1..]| && rows[1..][i].entries == es;
      assert rows[i + 1].entries == es;
    }
  }

  /** One place of a generation holds the two projections of a row. */
  predicate HoldsRow(rt: Runtime, g: Generation, k: nat, es: seq<Entry>) {
    && k < |g.indexRows| && k < |g.detailRows|
    && g.indexRows[k] == Project(rt, es).index && g.detailRows[k] == Project(rt, es).detail
  }

  /** One place of a generation holds the projections of a row that is not withheld. */
  ghost predicate ComesFrom(rt: Runtime, g: Generation, k: nat, rows: seq<SourceRow>) {
    exists i :: 0 <= i < |rows| && !IsWithheld(rows[i].entries) && HoldsRow(rt, g, k, rows[i].entries)
  }

  /**
    A generation built of a captured source holds the two projections of each row that is not withheld, and
    of no other; it withdraws the stable keys of the withheld rows, and no other.
   */
  lemma GenerationOfSource(rt: Runtime, rows: seq<SourceRow>, windowStart: string, watermark: string, g: Generation)
    requires Assemble(rt, RequestFor(rows, windowStart, watermark)) == Some(g)
    ensures |g.indexRows| + |Withdrawn(rows)| == |rows| && |g.detailRows| == |g.indexRows| == g.manifest.itemCount
    ensures forall i :: 0 <= i < |rows| && !IsWithheld(rows[i].entries) ==> exists k :: HoldsRow(rt, g, k, rows[i].entries)
    ensures forall k: nat | k < |g.indexRows| :: ComesFrom(rt, g, k, rows)
    ensures forall key :: key in SortedSet(WithdrawnKeys(rt, Withdrawn(rows))) <==>
      exists i :: 0 <= i < |rows| && IsWithheld(rows[i].entries) && StableKey(rt, rows[i].entries) == key
  {
    hide Assemble, Project, IsWithheld, Excludes, StableKey, SortedSet, IsAmong, HoldsRow;
    var q := RequestFor(rows, windowStart, watermark);
    SourceIsDivided(rows);
    WithdrawnKeysAre(rt, rows);
    var p := PlacesOf(rt, q, g);
    forall i | 0 <= i < |rows| && !IsWithheld(rows[i].entries)
      ensures exists k :: HoldsRow(rt, g, k, rows[i].entries)
    {
      AmongAt(rows, i);
      var j :| 0 <= j < |q.rows| && q.rows[j] == rows[i].entries;
      assert j in p;
    }
    forall k: nat | k < |g.indexRows|
      ensures ComesFrom(rt, g, k, rows)
    {
      assert q.rows[p[k]] in Visible(rows);
      var i := Among(rows, q.rows[p[k]]);
    }
  }

  lemma PlacesOf(rt: Runtime, q: Request, g: Generation) returns (p: seq<nat>)
    requires Assemble(rt, q) == Some(g)
    ensures |g.indexRows| == |g.detailRows| == |p| == |q.rows| == g.manifest.itemCount && forall i :: 0 <= i < |q.rows| ==> i in p
    ensures forall k :: 0 <= k < |p| ==> p[k] < |q.rows| && HoldsRow(rt, g, k, q.rows[p[k]])
  {
    hide Assemble, Project, Less, CodePoints;
    p := GenerationRowsAre(rt, q, g);
  }

  lemma AmongAt(rows: seq<SourceRow>, i: nat)
    requires i < |rows|
    ensures IsAmong(rows, rows[i].entries)
  {}

  lemma Among(rows: seq<SourceRow>, es: seq<Entry>) returns (i: nat)
    requires IsAmong(rows, es)
    ensures i < |rows| && rows[i].entries == es
  {
    i :| 0 <= i < |rows| && rows[i].entries == es;
  }

  lemma WithdrawnKeysAre(rt: Runtime, rows: seq<SourceRow>)
    ensures forall key :: key in SortedSet(WithdrawnKeys(rt, Withdrawn(rows))) <==>
      exists i :: 0 <= i < |rows| && IsWithheld(rows[i].entries) && StableKey(rt, rows[i].entries) == key
  {
    hide IsWithheld, Excludes, StableKey, SortedSet, IsAmong;
    var ws := Withdrawn(rows);
    var keys := WithdrawnKeys(rt, ws);
    SourceIsDivided(rows);
    SortedSetIs(keys);
    forall key: string | key in keys
      ensures exists i :: 0 <= i < |rows| && IsWithheld(rows[i].entries) && StableKey(rt, rows[i].entries) == key
    {
      var j :| 0 <= j < |keys| && keys[j] == key;
      assert ws[j] in ws;
      var i := Among(rows, ws[j]);
    }
    forall i | 0 <= i < |rows| && IsWithheld(rows[i].entries)
      ensures StableKey(rt, rows[i].entries) in keys
    {
      AmongAt(rows, i);
      var j :| 0 <= j < |ws| && ws[j] == rows[i].entries;
      assert keys[j] == StableKey(rt, rows[i].entries);
    }
  }

  // ------------------------------------------------------------------------ what is served

  /** A row is served from a record with the recorded digest, whose key and hash agree with its payload. */
  ghost predicate IsProvenRow(rt: Runtime, disk: Disk, kind: Kind, at: Location, row: Row) {
    && at.name in disk && at.offset + at.length <= |disk[at.name]|
    && var raw := disk[at.name][at.offset..at.offset + at.length];
       && rt.sha(raw) == at.digest && rt.loads(raw).Some?
       && var record := rt.loads(raw).value;
          && Field(record, KindText(kind)) == Some(row)
          && Field(record, "index").Some? && Field(record, "detail").Some?
          && var index, detail := Field(record, "index").value, Field(record, "detail").value;
             && index.Dict? && Field(index, "detail_key") == Some(Str(at.key)) && Field(detail, "detail_key") == Some(Str(at.key))
             && Field(detail, "payload").Some?
             && Field(detail, "detail_hash") == Some(Str(Sha(rt, Field(detail, "payload").value)))
             && DetailKey(rt, index.entries, Field(detail, "payload").value) == at.key
  }

  lemma RowIsProven(rt: Runtime, disk: Disk, kind: Kind, at: Location)
    requires at.length > 0
    ensures CheckedRow(rt, disk, kind, at).Some? ==> IsProvenRow(rt, disk, kind, at, CheckedRow(rt, disk, kind, at).value)
  {
    hide DetailKey, Sha, Lookup;
    var record := ReadRecord(rt, disk, at);
    if CheckedRow(rt, disk, kind, at).Some? {
      assert Slice(disk[at.name], at.offset, at.length) == disk[at.name][at.offset..at.offset + at.length];
    }
  }

  lemma {:induction false} RowsAreProven(rt: Runtime, disk: Disk, kind: Kind, places: seq<Location>)
    requires forall k :: 0 <= k < |places| ==> places[k].length > 0
    ensures CheckedRows(rt, disk, kind, places).Some? ==>
      var rows := CheckedRows(rt, disk, kind, places).value;
      |rows| == |places| && forall k :: 0 <= k < |rows| ==> IsProvenRow(rt, disk, kind, places[k], rows[k])
    decreases |places|
  {
    hide CheckedRow, IsProvenRow;
    if places != [] {
      var n := |places| - 1;
      RowsAreProven(rt, disk, kind, places[..n]);
      RowIsProven(rt, disk, kind, places[n]);
    }
  }

  /**
    Whatever plan was opened, its places not empty, and whatever lies in the directory: rows are served only at the offset of a
    batch, as many as it counts, each proven by its own record, with the batch's size and payload hash.
   */
  lemma ServedIsProven(rt: Runtime, disk: Disk, reader: Reader, kind: Kind, offset: int)
    requires Served(rt, disk, reader, kind, offset).Some? && offset != |reader.places|
    requires forall k :: 0 <= k < |reader.places| ==> reader.places[k].length > 0
    ensures var rows := Served(rt, disk, reader, kind, offset).value;
      && offset >= 0 && offset in LookupOf(reader, kind)
      && var ref := LookupOf(reader, kind)[offset];
         && |rows| == ref.count && offset + ref.count <= |reader.places|
         && |Wire(rt.f, List(rows))| == ref.bytes && PayloadHash(rt.sha, rows) == Some(ref.payload)
         && forall k :: 0 <= k < |rows| ==> IsProvenRow(rt, disk, kind, reader.places[offset + k], rows[k])
  {
    hide CheckedRows, IsProvenRow, PayloadHash, Wire;
    var ref := LookupOf(reader, kind)[offset];
    RowsAreProven(rt, disk, kind, reader.places[offset..offset + ref.count]);
  }

  // ---------------------------------------------------------------- what an admitted plan covers

  /** Reading from zero, each batch from where the one before ended, passes every place once and ends with the last. */
  lemma {:induction false} BatchesTile(kind: Kind, refs: seq<BatchRef>, count: nat, i: nat) returns (k: nat)
    requires RefsAdmitted(kind, refs, count) && i < count
    ensures k < |refs| && refs[k].offset <= i < refs[k].offset + refs[k].count
    ensures forall j :: 0 <= j < |refs| && refs[j].offset <= i < refs[j].offset + refs[j].count ==> j == k
    ensures 1 <= refs[k].count <= (match kind case Detail => 8 case Index => 4)
    ensures 2 <= refs[k].bytes <= (match kind case Detail => 400_000 case Index => 100_000)
  {
    hide Covered;
    assert refs[..|refs|] == refs;
    k := FindBatch(kind, refs, |refs|, i);
    forall j | 0 <= j < |refs| && refs[j].offset <= i < refs[j].offset + refs[j].count
      ensures j == k
    {
      if j < k { CoveredGrows(kind, refs, j, k); }
      if k < j { CoveredGrows(kind, refs, k, j); }
    }
  }

  lemma {:induction false} FindBatch(kind: Kind, refs: seq<BatchRef>, n: nat, i: nat) returns (k: nat)
    requires n <= |refs| && i < Covered(refs[..n]) && forall j :: 0 <= j < |refs| ==> RefFits(kind, Covered(refs[..j]), refs[j])
    ensures k < n && refs[k].offset <= i < refs[k].offset + refs[k].count
    decreases n
  {
    hide Covered;
    if n == 0 { NothingCovered(refs); }
    RefsStep(refs, n - 1);
    assert RefFits(kind, Covered(refs[..n - 1]), refs[n - 1]);
    if i < Covered(refs[..n - 1]) {
      k := FindBatch(kind, refs, n - 1, i);
    } else {
      k := n - 1;
    }
  }

  lemma NothingCovered(refs: seq<BatchRef>)
    ensures Covered(refs[..0]) == 0
  {}

  lemma {:induction false} CoveredGrows(kind: Kind, refs: seq<BatchRef>, a: nat, b: nat)
    requires a < b < |refs| && forall j :: 0 <= j < |refs| ==> RefFits(kind, Covered(refs[..j]), refs[j])
    ensures refs[a].offset + refs[a].count <= refs[b].offset
    decreases b
  {
    hide Covered;
    RefsStep(refs, b - 1);
    assert RefFits(kind, Covered(refs[..b - 1]), refs[b - 1]) && RefFits(kind, Covered(refs[..b]), refs[b]);
    if a < b - 1 { CoveredGrows(kind, refs, a, b - 1); }
  }

  /** The records of some parts together. */
  function RecordsIn(parts: seq<Stored>): nat {
    if parts == [] then 0 else RecordsIn(parts[..|parts| - 1]) + parts[|parts| - 1].sourceCount
  }

  lemma {:induction false} BeforeCounts(parts: seq<Stored>, k: nat)
    requires k <= |parts|
    ensures Before(parts, k) == RecordsIn(parts[..k])
  {
    if k > 0 {
      BeforeCounts(parts, k - 1);
      assert parts[..k][..k - 1] == parts[..k - 1];
    }
  }

  /** A place names the part, within its bytes, that its number falls into. */
  predicate LiesWithin(parts: seq<Stored>, k: nat, at: Location) {
    && k < |parts| && parts[k].name == at.name && at.length > 0 && at.offset + at.length <= parts[k].bytes
    && RecordsIn(parts[..k]) < at.ordinal <= RecordsIn(parts[..k]) + parts[k].sourceCount
  }

  /** The places of an admitted plan ascend by key and then by number, all of them, no number comes twice, and each lies within its part. */
  lemma AdmittedPlacesAscend(parts: seq<Stored>, itemCount: nat, plan: Planned, i: nat, j: nat)
    requires Admitted(parts, itemCount, plan) && i <= j < |plan.places|
    ensures i < j ==> PlaceBefore(plan.places[i], plan.places[j]) && plan.places[i].ordinal != plan.places[j].ordinal
    ensures exists k: nat :: LiesWithin(parts, k, plan.places[i])
    ensures exists k: nat :: LiesWithin(parts, k, plan.places[j])
  {
    hide RefsAdmitted, PlaceBefore, LiesWithin, InPart;
    if i < j { PlacesAscend(parts, plan.places, i, j); }
    var k := PartOf(parts, plan.places, i);
    k := PartOf(parts, plan.places, j);
  }

  lemma PartOf(parts: seq<Stored>, places: seq<Location>, i: nat) returns (k: nat)
    requires PlacesAdmitted(parts, places) && i < |places|
    ensures LiesWithin(parts, k, places[i])
  {
    hide PlaceBefore;
    assert InSomePart(parts, places[i]);
    k :| InPart(parts, k, places[i]);
    BeforeCounts(parts, k);
  }

  lemma {:induction false} PlacesAscend(parts: seq<Stored>, places: seq<Location>, i: nat, j: nat)
    requires PlacesAdmitted(parts, places) && i < j < |places|
    ensures PlaceBefore(places[i], places[j])
    decreases j
  {
    hide PlaceBefore;
    assert PlaceBefore(places[j - 1], places[j]);
    if i < j - 1 {
      PlacesAscend(parts, places, i, j - 1);
      BeforeIsTransitive(places[i], places[j - 1], places[j]);
    }
  }

  lemma BeforeIsTransitive(a: Location, b: Location, c: Location)
    requires PlaceBefore(a, b) && PlaceBefore(b, c)
    ensures PlaceBefore(a, c)
  {
    hide Less;
    if Less(CodePoints(a.key), CodePoints(b.key)) && Less(CodePoints(b.key), CodePoints(c.key)) {
      LessTransitive(CodePoints(a.key), CodePoints(b.key), CodePoints(c.key));
    }
  }
}
