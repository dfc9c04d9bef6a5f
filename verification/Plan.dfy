/** Planning a complete capture: what `finalize_plan` computes is what the in-memory builder computes. */
module Plan {
  import opened Text
  import opened Sorting
  import opened Values
  import opened Json
  import opened Batching
  import opened ReceiptChain
  import opened Projection
  import opened Planner
  import opened Scan

  const METADATA_BYTES := 32 * 1024 * 1024

  // ------------------------------------------------------------------ captured records

  /** A row as the source reader delivers it, with its four-part cursor. */
  datatype SourceRow = SourceRow(cursor: Value, entries: seq<Entry>)

  /** `news_reader_excludes`. */
  predicate Excludes(es: seq<Entry>) {
    Truthy(Get(es, "content_policy_skipped")) || Get(es, "xauusd_relevance") == Str("IRRELEVANT")
  }

  /** `news_source_capture_record`. */
  function Record(rt: Runtime, row: SourceRow): Value {
    if Excludes(row.entries) then
      Dict([Entry("cursor", row.cursor), Entry("withdrawal", Str(StableKey(rt, row.entries)))])
    else
      var p := Project(rt, row.entries);
      Dict([Entry("cursor", row.cursor), Entry("index", p.index), Entry("detail", p.detail)])
  }

  function Records(rt: Runtime, rows: seq<SourceRow>): (r: seq<Value>)
    ensures |r| == |rows| && forall i :: 0 <= i < |rows| ==> r[i] == Record(rt, rows[i])
  {
    seq(|rows|, i requires 0 <= i < |rows| => Record(rt, rows[i]))
  }

  /** Rows come out of JSON and have the three identity fields. */
  ghost predicate IsSource(rows: seq<SourceRow>) {
    forall i :: 0 <= i < |rows| ==> IsJson(rows[i].cursor) && IsJson(Dict(rows[i].entries)) && HasIdentity(rows[i].entries)
  }

  function Visible(rows: seq<SourceRow>): seq<seq<Entry>> {
    if rows == [] then []
    else (if Excludes(rows[0].entries) then [] else [rows[0].entries]) + Visible(rows[1..])
  }

  function Withdrawn(rows: seq<SourceRow>): seq<seq<Entry>> {
    if rows == [] then []
    else (if Excludes(rows[0].entries) then [rows[0].entries] else []) + Withdrawn(rows[1..])
  }

  // -------------------------------------------------------------------- classification

  /** The identity check of one item record. */
  predicate ItemChecks(rt: Runtime, record: Value, key: string) {
    var index, detail := Field(record, "index"), Field(record, "detail");
    && index.Some? && index.value.Dict? && detail.Some? && detail.value.Dict?
    && Lookup(index.value.entries, "detail_key") == Some(Str(key))
    && Lookup(detail.value.entries, "detail_key") == Some(Str(key))
    && var payload := Lookup(detail.value.entries, "payload");
       && payload.Some?
       && Lookup(detail.value.entries, "detail_hash") == Some(Str(Sha(rt, payload.value)))
       && DetailKey(rt, index.value.entries, payload.value) == key
  }

  /** The key under which an item record will be sorted. */
  function ItemKey(rt: Runtime, record: Value): Option<Digest> {
    var index := Field(record, "index");
    var detail := Field(record, "detail");
    if index.None? || detail.None? || !index.value.Dict? || !detail.value.Dict? then None
    else
      var payload :- Lookup(detail.value.entries, "payload");
      var key := DetailKey(rt, index.value.entries, payload);
      if ItemChecks(rt, record, key) then Some(key) else None
  }

  function DescriptorBytes(rt: Runtime, at: Location): nat {
    |Wire(rt.f, List([Str(at.key), Int(at.ordinal), Str(at.name), Int(at.offset), Int(at.length), Str(at.digest)]))| + 1
  }

  /** What the scan has collected: item places and withdrawal keys in the order met, and the metadata they take. */
  datatype Census = Census(places: seq<Location>, withdrawals: seq<string>, metadata: nat)

  function Tally(rt: Runtime, c: Census, ordinal: nat, found: Found): Option<Census> {
    match Field(found.record, "withdrawal")
    case Some(Str(key)) =>
      var metadata := c.metadata + |Utf8(key)| + 3;
      if metadata > METADATA_BYTES then None
      else Some(Census(c.places, c.withdrawals + [key], metadata))
    case Some(_) => None
    case None =>
      var key :- ItemKey(rt, found.record);
      var at := Location(key, ordinal, found.name, found.offset, found.length, found.digest);
      var metadata := c.metadata + DescriptorBytes(rt, at);
      if metadata > METADATA_BYTES then None
      else Some(Census(c.places + [at], c.withdrawals, metadata))
  }

  function Count(rt: Runtime, found: seq<Found>): Option<Census> {
    if found == [] then Some(Census([], [], 0))
    else
      var n := |found| - 1;
      var c :- Count(rt, found[..n]);
      Tally(rt, c, |found|, found[n])
  }

  method CountRecords(rt: Runtime, found: seq<Found>) returns (r: Option<Census>)
    ensures r == Count(rt, found)
  {
    hide Tally;
    var c := Census([], [], 0);
    for n := 0 to |found|
      invariant Count(rt, found[..n]) == Some(c)
    {
      assert found[..n + 1][..n] == found[..n];
      var next := Tally(rt, c, n + 1, found[n]);
      if next.None? {
        CountFails(rt, found, n + 1);
        return None;
      }
      c := next.value;
    }
    assert found[..|found|] == found;
    return Some(c);
  }

  lemma {:induction false} CountFails(rt: Runtime, found: seq<Found>, n: nat)
    requires n <= |found| && Count(rt, found[..n]).None?
    ensures Count(rt, found).None?
    decreases |found|
  {
    hide Tally;
    if n < |found| {
      assert found[..|found| - 1][..n] == found[..n];
      CountFails(rt, found[..|found| - 1], n);
    } else {
      assert found[..n] == found;
    }
  }

  /** The place is where one of the records found lies, and that record is the item the place's key names. */
  ghost predicate IsItemOf(rt: Runtime, found: seq<Found>, at: Location) {
    && 1 <= at.ordinal <= |found|
    && var one := found[at.ordinal - 1];
       && at == Location(at.key, at.ordinal, one.name, one.offset, one.length, one.digest)
       && ItemChecks(rt, one.record, at.key)
  }

  /** Whatever lies in the parts, only records whose key and hash agree with their own payload are planned. */
  lemma {:induction false} OnlyCheckedItems(rt: Runtime, found: seq<Found>)
    ensures Count(rt, found).Some? ==>
      forall k :: 0 <= k < |Count(rt, found).value.places| ==> IsItemOf(rt, found, Count(rt, found).value.places[k])
    decreases |found|
  {
    hide ItemChecks, DescriptorBytes, DetailKey;
    if found != [] && Count(rt, found).Some? {
      var n := |found| - 1;
      OnlyCheckedItems(rt, found[..n]);
      var before, after := Count(rt, found[..n]).value.places, Count(rt, found).value.places;
      forall k | 0 <= k < |after|
        ensures IsItemOf(rt, found, after[k])
      {
        if k < |before| {
          assert after[k] == before[k] && IsItemOf(rt, found[..n], before[k]);
        }
      }
    }
  }

  // ----------------------------------------------- the census of a captured source

  lemma WithdrawalField(rt: Runtime, row: SourceRow)
    ensures Field(Record(rt, row), "withdrawal")
         == if Excludes(row.entries) then Some(Str(StableKey(rt, row.entries))) else None
  {
    hide Excludes, Project, StableKey, Lookup;
    assert |"cursor"| != |"withdrawal"| && |"index"| != |"withdrawal"| && |"detail"| != |"withdrawal"|;
    var p, c := Project(rt, row.entries), Entry("cursor", row.cursor);
    LookupInPair(c, Entry("withdrawal", Str(StableKey(rt, row.entries))), "withdrawal");
    LookupInTriple(c, Entry("index", p.index), Entry("detail", p.detail), "withdrawal");
    LookupInPair(Entry("index", p.index), Entry("detail", p.detail), "withdrawal");
  }

  lemma ItemFields(rt: Runtime, row: SourceRow)
    requires !Excludes(row.entries)
    ensures Field(Record(rt, row), "index") == Some(Project(rt, row.entries).index)
    ensures Field(Record(rt, row), "detail") == Some(Project(rt, row.entries).detail)
  {
    hide Excludes, Project, Lookup;
    assert |"cursor"| != |"index"| && |"index"| != |"detail"| && "cursor"[0] != "detail"[0];
    var p, c := Project(rt, row.entries), Entry("cursor", row.cursor);
    LookupInTriple(c, Entry("index", p.index), Entry("detail", p.detail), "index");
    LookupInTriple(c, Entry("index", p.index), Entry("detail", p.detail), "detail");
    LookupInPair(Entry("index", p.index), Entry("detail", p.detail), "index");
    LookupInPair(Entry("index", p.index), Entry("detail", p.detail), "detail");
  }

  /** The planner accepts the identity of every record that the capture wrote. */
  lemma RecordChecks(rt: Runtime, row: SourceRow)
    requires HasIdentity(row.entries) && !Excludes(row.entries)
    ensures ItemKey(rt, Record(rt, row)) == Some(Project(rt, row.entries).key)
  {
    hide Project, Record, Sha, DetailKey, Payload;
    ItemFields(rt, row);
    ProjectionKeepsKey(rt, row.entries);
    ProjectionShapes(rt, row.entries);
  }

  lemma ProjectionShapes(rt: Runtime, es: seq<Entry>)
    ensures Project(rt, es).index.Dict? && Project(rt, es).detail.Dict?
  {}

  lemma RecordIsJson(rt: Runtime, row: SourceRow)
    requires IsJson(row.cursor) && IsJson(Dict(row.entries))
    ensures IsJson(Record(rt, row))
  {
    hide Project, Excludes, StableKey;
    ProjectionIsJson(rt, row.entries);
    assert |"cursor"| != |"withdrawal"| && |"cursor"| != |"index"| && |"index"| != |"detail"|;
    assert "cursor" != "detail" by { assert "cursor"[0] != "detail"[0]; }
  }

  /** The places hold the visible rows' records, in order, and reading a place gives the row's projection. */
  ghost predicate PlacesFor(rt: Runtime, disk: Disk, rows: seq<seq<Entry>>, places: seq<Location>, last: nat) {
    && |places| == |rows|
    && (forall i :: 0 <= i < |rows| ==> PlaceFor(rt, disk, rows[i], places[i]))
    && (forall i, j :: 0 <= i < j < |places| ==> places[i].ordinal < places[j].ordinal)
    && (forall i :: 0 <= i < |places| ==> 1 <= places[i].ordinal <= last)
  }

  ghost predicate PlaceFor(rt: Runtime, disk: Disk, row: seq<Entry>, at: Location) {
    && at.key == Project(rt, row).key
    && ReadRow(rt, disk, Detail, at) == Some(Project(rt, row).detail)
    && ReadRow(rt, disk, Index, at) == Some(Project(rt, row).index)
    && Checks(rt, disk, at)
  }

  /** The record at a place is the item its key names. */
  ghost predicate Checks(rt: Runtime, disk: Disk, at: Location) {
    var record := ReadRecord(rt, disk, at);
    record.Some? && ItemChecks(rt, record.value, at.key)
  }

  ghost predicate FoundAll(rt: Runtime, disk: Disk, rows: seq<SourceRow>, found: seq<Found>) {
    |found| == |rows| && forall i :: 0 <= i < |rows| ==> found[i].record == Record(rt, rows[i]) && LiesAt(rt, disk, found[i])
  }

  lemma {:induction false} VisibleAppend(rows: seq<SourceRow>, row: SourceRow)
    ensures Visible(rows + [row]) == Visible(rows) + (if Excludes(row.entries) then [] else [row.entries])
    ensures Withdrawn(rows + [row]) == Withdrawn(rows) + (if Excludes(row.entries) then [row.entries] else [])
  {
    hide Excludes;
    if rows == [] {
      assert rows + [row] == [row] && [row][1..] == [];
    } else {
      assert (rows + [row])[0] == rows[0] && (rows + [row])[1..] == rows[1..] + [row];
      VisibleAppend(rows[1..], row);
    }
  }

  ghost predicate CensusFor(rt: Runtime, disk: Disk, rows: seq<SourceRow>, c: Census) {
    && PlacesFor(rt, disk, Visible(rows), c.places, |rows|)
    && c.withdrawals == WithdrawnKeys(rt, Withdrawn(rows))
  }

  /** Unless the metadata bound is hit, the census of a captured source lists exactly its rows. */
  lemma {:induction false} CensusOfSource(rt: Runtime, disk: Disk, rows: seq<SourceRow>, found: seq<Found>)
    requires Faithful(rt) && IsSource(rows) && FoundAll(rt, disk, rows, found)
    ensures Count(rt, found).Some? ==> CensusFor(rt, disk, rows, Count(rt, found).value)
    decreases |rows|
  {
    hide Tally, CensusFor, Faithful, Excludes, LiesAt, Record;
    if rows == [] {
      EmptyCensus(rt, disk);
    } else {
      var n := |rows| - 1;
      CensusOfSource(rt, disk, rows[..n], found[..n]);
      assert rows == rows[..n] + [rows[n]];
      if Count(rt, found[..n]).Some? {
        TallyKeeps(rt, disk, rows[..n], rows[n], Count(rt, found[..n]).value, found[n]);
      }
    }
  }

  lemma EmptyCensus(rt: Runtime, disk: Disk)
    ensures CensusFor(rt, disk, [], Census([], [], 0))
  {
    assert WithdrawnKeys(rt, []) == [];
  }

  lemma TallyKeeps(rt: Runtime, disk: Disk, rows: seq<SourceRow>, row: SourceRow, c: Census, found: Found)
    requires Faithful(rt) && CensusFor(rt, disk, rows, c)
    requires IsJson(row.cursor) && IsJson(Dict(row.entries)) && HasIdentity(row.entries)
    requires found.record == Record(rt, row) && LiesAt(rt, disk, found)
    ensures var r := Tally(rt, c, |rows| + 1, found);
      r.Some? ==> CensusFor(rt, disk, rows + [row], r.value)
  {
    hide Excludes, Record, StableKey, ItemKey, CensusFor, Faithful, LiesAt, DescriptorBytes, Project;
    WithdrawalField(rt, row);
    if Excludes(row.entries) {
      AddWithdrawal(rt, disk, rows, row, c);
    } else {
      RecordChecks(rt, row);
      PlaceOfFound(rt, disk, row, found, |rows| + 1);
      AddPlace(rt, disk, rows, row, c,
               Location(Project(rt, row.entries).key, |rows| + 1, found.name, found.offset, found.length, found.digest));
    }
  }

  lemma AddWithdrawal(rt: Runtime, disk: Disk, rows: seq<SourceRow>, row: SourceRow, c: Census)
    requires CensusFor(rt, disk, rows, c) && Excludes(row.entries)
    ensures forall m :: CensusFor(rt, disk, rows + [row], Census(c.places, c.withdrawals + [StableKey(rt, row.entries)], m))
  {
    hide Excludes, StableKey, PlaceFor, Visible, Withdrawn;
    VisibleAppend(rows, row);
    assert WithdrawnKeys(rt, Withdrawn(rows) + [row.entries]) == WithdrawnKeys(rt, Withdrawn(rows)) + [StableKey(rt, row.entries)];
    assert Visible(rows) + [] == Visible(rows);
  }

  lemma AddPlace(rt: Runtime, disk: Disk, rows: seq<SourceRow>, row: SourceRow, c: Census, at: Location)
    requires CensusFor(rt, disk, rows, c) && !Excludes(row.entries)
    requires PlaceFor(rt, disk, row.entries, at) && at.ordinal == |rows| + 1
    ensures forall m :: CensusFor(rt, disk, rows + [row], Census(c.places + [at], c.withdrawals, m))
  {
    hide Excludes, StableKey, PlaceFor, Visible, Withdrawn;
    VisibleAppend(rows, row);
    assert Withdrawn(rows) + [] == Withdrawn(rows);
  }

  lemma PlaceOfFound(rt: Runtime, disk: Disk, row: SourceRow, found: Found, ordinal: nat)
    requires Faithful(rt) && !Excludes(row.entries) && IsJson(row.cursor) && IsJson(Dict(row.entries)) && HasIdentity(row.entries)
    requires found.record == Record(rt, row) && LiesAt(rt, disk, found)
    ensures PlaceFor(rt, disk, row.entries,
                     Location(Project(rt, row.entries).key, ordinal, found.name, found.offset, found.length, found.digest))
  {
    hide Project, Record, Excludes, Line, Faithful, ReadRecord, ItemChecks;
    RecordIsJson(rt, row);
    RecordChecks(rt, row);
    FoundReadsBack(rt, disk, found, Project(rt, row.entries).key, ordinal);
    ItemFields(rt, row);
  }

  // ---------------------------------------------------------- sorting the descriptors

  /** `descriptors.sort(key=lambda row: (row[0], row[1]))`. */
  function SortPlaces(places: seq<Location>): (r: seq<Location>)
    ensures |r| == |places|
  {
    SortBy(places, (at: Location) => CodePoints(at.key) + [at.ordinal])
  }

  /** Ties broken by ordinal are ties left in place: the descriptors come in the builder's order. */
  lemma PlacesSortLikeRows(rt: Runtime, disk: Disk, rows: seq<seq<Entry>>, places: seq<Location>, last: nat)
    requires PlacesFor(rt, disk, rows, places, last)
    ensures var ps, sorted := InKeyOrder(rt, rows), SortPlaces(places);
      && |sorted| == |ps|
      && ReadsBack(rt, disk, Detail, sorted, Rows(Detail, ps)) && ReadsBack(rt, disk, Index, sorted, Rows(Index, ps))
      && forall k :: 0 <= k < |sorted| ==> Checks(rt, disk, sorted[k])
  {
    hide Project, ReadRow, StableOrder, Checks;
    var all := ProjectAll(rt, rows);
    var byKey := Keys(all, (p: Projected) => CodePoints(p.key));
    var byBoth := Keys(places, (at: Location) => CodePoints(at.key) + [at.ordinal]);
    forall i | 0 <= i < |rows|
      ensures byBoth[i] == byKey[i] + [places[i].ordinal] && |byKey[i]| == 64
    {
      assert PlaceFor(rt, disk, rows[i], places[i]);
    }
    SameStableOrder(byKey, byBoth, seq(|places|, i requires 0 <= i < |places| => places[i].ordinal));
    var p := StableOrder(byKey);
    var ps, sorted := InKeyOrder(rt, rows), SortPlaces(places);
    forall k | 0 <= k < |p|
      ensures ReadRow(rt, disk, Detail, sorted[k]) == Some(Rows(Detail, ps)[k])
      ensures ReadRow(rt, disk, Index, sorted[k]) == Some(Rows(Index, ps)[k])
      ensures Checks(rt, disk, sorted[k])
    {
      assert ps[k] == all[p[k]] && sorted[k] == places[p[k]];
      assert PlaceFor(rt, disk, rows[p[k]], places[p[k]]);
    }
  }

  lemma SameStableOrder(keys: seq<seq<int>>, tied: seq<seq<int>>, ordinals: seq<int>)
    requires |keys| == |tied| == |ordinals|
    requires forall i :: 0 <= i < |keys| ==> tied[i] == keys[i] + [ordinals[i]] && |keys[i]| == 64
    requires forall i, j :: 0 <= i < j < |ordinals| ==> ordinals[i] < ordinals[j]
    ensures StableOrder(tied) == StableOrder(keys)
  {
    var p := StableOrder(keys);
    forall i, j | 0 <= i < j < |p|
      ensures Precedes(tied, p[i], p[j])
    {
      assert Precedes(keys, p[i], p[j]);
      LessWithTie(keys[p[i]], keys[p[j]], ordinals[p[i]], ordinals[p[j]]);
    }
    assert IsStableOrder(tied, p);
    StableOrderUnique(tied, StableOrder(tied), p);
  }

  // -------------------------------------------------------- the source text, in pieces

  lemma {:induction false} PlainText(s: string)
    requires forall i :: 0 <= i < |s| ==> 'a' <= s[i] <= 'z' || s[i] == '_'
    ensures EscapeAll(s) == s
  {
    if s != "" {
      PlainText(s[1..]);
      assert Escape(s[0]) == [s[0]];
      assert [s[0]] + s[1..] == s;
    }
  }

  lemma {:induction false} SortedStrings(keys: seq<string>)
    ensures SortedItems(Strings(keys)) == Strings(keys)
    decreases |keys|
  {
    if keys != [] {
      var vs := Strings(keys);
      assert vs[1..] == Strings(keys[1..]);
      SortedStrings(keys[1..]);
      assert SortedItems(vs) == [Str(keys[0])] + SortedItems(vs[1..]);
      assert vs == [Str(keys[0])] + vs[1..];
    } else {
      assert Strings(keys) == [];
    }
  }

  /** The keys of the source document sort as details, index, withdrawal_keys. */
  lemma SourceOrder(a: Value, b: Value, c: Value)
    ensures CodeOrder([Entry("index", a), Entry("details", b), Entry("withdrawal_keys", c)]) == [1, 0, 2]
  {
    hide StableOrder;
    var es := [Entry("index", a), Entry("details", b), Entry("withdrawal_keys", c)];
    var keys := Keys(es, (e: Entry) => CodePoints(e.key));
    var p: seq<nat> := [1, 0, 2];
    assert "details"[0] < "index"[0] < "withdrawal_keys"[0];
    assert keys[0] == CodePoints("index") && keys[1] == CodePoints("details") && keys[2] == CodePoints("withdrawal_keys");
    assert Less(keys[1], keys[0]) && Less(keys[0], keys[2]) && Less(keys[1], keys[2]);
    assert p[0] == 1 && p[1] == 0 && p[2] == 2;
    assert IsStableOrder(keys, p);
    StableOrderUnique(keys, StableOrder(keys), p);
  }

  function Opening(kind: Kind): string {
    match kind case Detail => "{\"details\":[" case Index => ",\"index\":["
  }

  /** What the streaming hash is fed, piece by piece. */
  function Fed(rt: Runtime, details: seq<Row>, indexes: seq<Row>, keys: seq<string>): Bytes {
    Utf8(Opening(Detail)) + Utf8(DumpsItems(rt.f, SortedItems(details))) + Utf8("]")
    + Utf8(Opening(Index)) + Utf8(DumpsItems(rt.f, SortedItems(indexes))) + Utf8("]")
    + Utf8(",\"withdrawal_keys\":") + Wire(rt.f, List(Strings(keys))) + Utf8("}")
  }

  lemma SourceSorted(rt: Runtime, details: seq<Row>, indexes: seq<Row>, keys: seq<string>)
    ensures Sorted(Source(indexes, details, keys))
         == Dict([Entry("details", List(SortedItems(details))), Entry("index", List(SortedItems(indexes))),
                  Entry("withdrawal_keys", List(Strings(keys)))])
  {
    hide CodeOrder, SortedItems;
    var es := Source(indexes, details, keys).entries;
    SourceOrder(List(indexes), List(details), List(Strings(keys)));
    SortedStrings(keys);
    assert [1, 0, 2][1..] == [0, 2] && [0, 2][1..] == [2] && [2][1..] == [];
    assert SortedEntries(es, [2]) == [Entry("withdrawal_keys", List(Strings(keys)))] + SortedEntries(es, []);
    assert SortedEntries(es, [0, 2]) == [Entry("index", List(SortedItems(indexes)))] + SortedEntries(es, [2]);
    assert SortedEntries(es, [1, 0, 2]) == [Entry("details", List(SortedItems(details)))] + SortedEntries(es, [0, 2]);
  }

  lemma DumpsThree(f: FloatText, a: Entry, b: Entry, c: Entry)
    ensures Dumps(f, Dict([a, b, c])) == "{" + DumpsEntry(f, a) + "," + DumpsEntry(f, b) + "," + DumpsEntry(f, c) + "}"
  {
    hide DumpsEntry;
    assert [a, b, c][1..] == [b, c] && [b, c][1..] == [c];
    assert DumpsEntries(f, [b, c]) == DumpsEntry(f, b) + "," + DumpsEntry(f, c);
    assert DumpsEntries(f, [a, b, c]) == DumpsEntry(f, a) + "," + DumpsEntries(f, [b, c]);
    Regroup("{" + DumpsEntry(f, a) + ",", DumpsEntry(f, b) + ",", DumpsEntry(f, c), "}");
  }

  /** Feeding the pieces hashes exactly the sorted JSON text of the whole source. */
  lemma FedIsSourceText(rt: Runtime, details: seq<Row>, indexes: seq<Row>, keys: seq<string>)
    ensures Fed(rt, details, indexes, keys) == Wire(rt.f, Sorted(Source(indexes, details, keys)))
  {
    hide Sorted, SortedItems, Utf8, Strings, Dumps, DumpsItems, EscapeAll;
    SourceSorted(rt, details, indexes, keys);
    var d, i, w := DumpsItems(rt.f, SortedItems(details)), DumpsItems(rt.f, SortedItems(indexes)), Dumps(rt.f, List(Strings(keys)));
    var a, b, c := Entry("details", List(SortedItems(details))), Entry("index", List(SortedItems(indexes))),
                   Entry("withdrawal_keys", List(Strings(keys)));
    DumpsThree(rt.f, a, b, c);
    ListEntry(rt.f, "details", SortedItems(details));
    ListEntry(rt.f, "index", SortedItems(indexes));
    PlainText("withdrawal_keys");
    assert DumpsEntry(rt.f, c) == "\"withdrawal_keys\":" + w;
    var text := Opening(Detail) + d + "]" + Opening(Index) + i + "]" + ",\"withdrawal_keys\":" + w + "}";
    JoinPieces(d, i, w, text);
    Utf8Pieces(Opening(Detail), d, "]", Opening(Index), i, "]", ",\"withdrawal_keys\":", w, "}");
  }

  lemma ListEntry(f: FloatText, key: string, items: seq<Value>)
    requires forall i :: 0 <= i < |key| ==> 'a' <= key[i] <= 'z' || key[i] == '_'
    ensures DumpsEntry(f, Entry(key, List(items))) == "\"" + key + "\":[" + DumpsItems(f, items) + "]"
  {
    hide DumpsItems, EscapeAll;
    PlainText(key);
    var body := DumpsItems(f, items);
    assert ("\"" + key + "\"") + ":" + ("[" + body + "]") == "\"" + key + "\":[" + body + "]";
  }

  lemma JoinPieces(d: string, i: string, w: string, text: string)
    requires text == Opening(Detail) + d + "]" + Opening(Index) + i + "]" + ",\"withdrawal_keys\":" + w + "}"
    ensures "{" + ("\"" + "details" + "\":[" + d + "]") + "," + ("\"" + "index" + "\":[" + i + "]") + ","
            + ("\"withdrawal_keys\":" + w) + "}" == text
  {}

  lemma Utf8Pieces(a: string, b: string, c: string, d: string, e: string, f: string, g: string, h: string, i: string)
    ensures Utf8(a + b + c + d + e + f + g + h + i)
         == Utf8(a) + Utf8(b) + Utf8(c) + Utf8(d) + Utf8(e) + Utf8(f) + Utf8(g) + Utf8(h) + Utf8(i)
  {
    hide Utf8;
    Utf8Concat(a, b);
    Utf8Concat(a + b, c);
    Utf8Concat(a + b + c, d);
    Utf8Concat(a + b + c + d, e);
    Utf8Concat(a + b + c + d + e, f);
    Utf8Concat(a + b + c + d + e + f, g);
    Utf8Concat(a + b + c + d + e + f + g, h);
    Utf8Concat(a + b + c + d + e + f + g + h, i);
  }

  // ------------------------------------------------------------------------ the plan

  datatype Totals = Totals(sourceCount: nat, itemCount: nat, canonicalBytes: nat)

  datatype Planned = Planned(manifest: Manifest, detail: seq<BatchRef>, index: seq<BatchRef>, places: seq<Location>)

  function TotalLength(found: seq<Found>): nat {
    if found == [] then 0 else TotalLength(found[..|found| - 1]) + found[|found| - 1].length
  }

  function TotalBytes(parts: seq<Stored>): nat {
    if parts == [] then 0 else TotalBytes(parts[..|parts| - 1]) + parts[|parts| - 1].bytes
  }

  /** The parts on disk hold the records of these rows, cut somehow into chunks, and the manifest counts agree. */
  ghost predicate Captured(rt: Runtime, disk: Disk, parts: seq<Stored>, totals: Totals, rows: seq<SourceRow>, chunks: seq<seq<Value>>) {
    && IsSource(rows) && Holds(rt, disk, parts, chunks) && Concat(chunks) == Records(rt, rows)
    && totals == Totals(|rows|, |Visible(rows)|, TotalBytes(parts))
  }

  function RequestFor(rows: seq<SourceRow>, windowStart: string, watermark: string): Request {
    Request(Visible(rows), Withdrawn(rows), windowStart, watermark)
  }

  /** The plan of a generation: its manifest, its batches by reference and the places of its rows. */
  function PlanOf(rt: Runtime, g: Generation, census: Census): Option<Planned> {
    var detail :- Describe(rt, 0, g.detailBatches);
    var index :- Describe(rt, 0, g.indexBatches);
    Some(Planned(g.manifest, detail, index, SortPlaces(census.places)))
  }

  /** What planning must return for a captured source: nothing only when building fails or the metadata bound is hit. */
  function Expected(rt: Runtime, census: Option<Census>, built: Option<Generation>): Option<Planned> {
    var c :- census;
    var g :- built;
    PlanOf(rt, g, c)
  }

  lemma ManifestOfStreams(rt: Runtime, q: Request, census: Census, d: Option<Streamed>, i: Option<Streamed>)
    requires var ps := InKeyOrder(rt, q.rows);
      && d == StreamOutcome(rt, Detail, Rows(Detail, ps), Utf8(Opening(Detail)), rt.sha([]))
      && (d.Some? ==> i == StreamOutcome(rt, Index, Rows(Index, ps), d.value.hashed + Utf8("]") + Utf8(Opening(Index)), d.value.chain))
    requires |census.places| == |InKeyOrder(rt, q.rows)| && census.withdrawals == WithdrawnKeys(rt, q.withdrawals)
    ensures Expected(rt, Some(census), Assemble(rt, q))
         == if d.None? || i.None? then None
            else Some(PlanFromStreams(rt, q.windowStart, q.watermark, census, d.value, i.value))
  {
    hide InKeyOrder, Cut, Describe, Links, ChainFrom, SortedSet, MakeManifest, Utf8, Wire, Sorted, Source, SortPlaces, LinksOf, DumpsItems, SortedItems;
    var ps := InKeyOrder(rt, q.rows);
    var details, indexes := CutKind(rt, Detail, ps), CutKind(rt, Index, ps);
    if details.Some? { DescribeGivesLinks(rt, Detail, 0, details.value); }
    if indexes.Some? { DescribeGivesLinks(rt, Index, 0, indexes.value); }
    if d.Some? && i.Some? {
      ChainFromConcat(rt.sha, rt.sha([]), LinksOf(Detail, d.value.refs), LinksOf(Index, i.value.refs));
      FedIsSourceText(rt, Rows(Detail, ps), Rows(Index, ps), SortedSet(census.withdrawals));
    }
  }

  function PlanFromStreams(rt: Runtime, windowStart: string, watermark: string, census: Census, d: Streamed, i: Streamed): Planned {
    var keys := SortedSet(census.withdrawals);
    var hashed := i.hashed + Utf8("]") + Utf8(",\"withdrawal_keys\":") + Wire(rt.f, List(Strings(keys))) + Utf8("}");
    Planned(MakeManifest(rt, windowStart, watermark, rt.sha(hashed), |census.places|, |keys|, i.chain),
            d.refs, i.refs, SortPlaces(census.places))
  }

  /** `finalize_plan` without its time and memory budgets; `None` is the recorded plan failure. */
  method FinalizePlan(rt: Runtime, disk: Disk, parts: seq<Stored>, totals: Totals, windowStart: string, watermark: string,
                      ghost rows: seq<SourceRow>, ghost chunks: seq<seq<Value>>)
    returns (r: Option<Planned>)
    ensures r.Some? ==> forall i :: 0 <= i < |parts| ==> Verified(rt, disk, parts[i])
    ensures Faithful(rt) && Captured(rt, disk, parts, totals, rows, chunks) ==>
      r == Expected(rt, Count(rt, LocateAll(rt, parts, chunks)), Assemble(rt, RequestFor(rows, windowStart, watermark)))
  {
    hide Faithful, Captured, Count, LocateAll, Assemble, Expected, StreamOutcome, PlanFromStreams, SortPlaces, Utf8, TotalLength, Verified;
    ghost var sound := Faithful(rt) && Captured(rt, disk, parts, totals, rows, chunks);
    if sound { CapturedHolds(rt, disk, parts, totals, rows, chunks); }
    var found := ScanParts(rt, disk, parts, chunks);
    if found.None? {
      return None;
    }
    var census := CountRecords(rt, found.value);
    if census.None? {
      if sound { NothingExpected(rt, Assemble(rt, RequestFor(rows, windowStart, watermark))); }
      return None;
    }
    if sound { CapturedCensus(rt, disk, parts, totals, rows, chunks, census.value); }
    if |found.value| != totals.sourceCount || |census.value.places| != totals.itemCount
       || TotalLength(found.value) != totals.canonicalBytes {
      return None;
    }
    var places := SortPlaces(census.value.places);
    ghost var ps := InKeyOrder(rt, Visible(rows));
    var d := StreamKind(rt, disk, Detail, places, Utf8(Opening(Detail)), rt.sha([]), Rows(Detail, ps));
    var i: Option<Streamed> := None;
    if d.Some? {
      i := StreamKind(rt, disk, Index, places, d.value.hashed + Utf8("]") + Utf8(Opening(Index)), d.value.chain, Rows(Index, ps));
    }
    if sound { ManifestOfStreams(rt, RequestFor(rows, windowStart, watermark), census.value, d, i); }
    if d.None? || i.None? {
      return None;
    }
    return Some(PlanFromStreams(rt, windowStart, watermark, census.value, d.value, i.value));
  }

  lemma NothingExpected(rt: Runtime, built: Option<Generation>)
    ensures Expected(rt, None, built).None?
  {}

  lemma CapturedHolds(rt: Runtime, disk: Disk, parts: seq<Stored>, totals: Totals, rows: seq<SourceRow>, chunks: seq<seq<Value>>)
    requires Captured(rt, disk, parts, totals, rows, chunks)
    ensures Holds(rt, disk, parts, chunks)
  {}

  lemma CapturedCensus(rt: Runtime, disk: Disk, parts: seq<Stored>, totals: Totals, rows: seq<SourceRow>, chunks: seq<seq<Value>>, c: Census)
    requires Faithful(rt) && Captured(rt, disk, parts, totals, rows, chunks)
    requires Count(rt, LocateAll(rt, parts, chunks)) == Some(c)
    ensures var found := LocateAll(rt, parts, chunks);
      |found| == totals.sourceCount && |c.places| == totals.itemCount && TotalLength(found) == totals.canonicalBytes
    ensures var ps, sorted := InKeyOrder(rt, Visible(rows)), SortPlaces(c.places);
      && |c.places| == |ps| && c.withdrawals == WithdrawnKeys(rt, Withdrawn(rows))
      && ReadsBack(rt, disk, Detail, sorted, Rows(Detail, ps)) && ReadsBack(rt, disk, Index, sorted, Rows(Index, ps))
      && forall k :: 0 <= k < |sorted| ==> Checks(rt, disk, sorted[k])
    ensures forall i, j :: 0 <= i < j < |c.places| ==> c.places[i].ordinal < c.places[j].ordinal
  {
    hide Record, LiesAt, PlaceFor, ReadsBack, InKeyOrder, SortPlaces, Faithful, Tally, LocateAll;
    var found := LocateAll(rt, parts, chunks);
    assert IsFloatText(rt.f) by { FaithfulFloats(rt); }
    forall i | 0 <= i < |found|
      ensures found[i].record == Record(rt, rows[i]) && LiesAt(rt, disk, found[i])
    {
      AllRecordsLieWhereFound(rt, disk, parts, chunks, i);
    }
    CensusOfSource(rt, disk, rows, found);
    PlacesSortLikeRows(rt, disk, Visible(rows), c.places, |rows|);
    LengthOfFound(rt, disk, parts, chunks);
  }

  lemma FaithfulFloats(rt: Runtime)
    requires Faithful(rt)
    ensures IsFloatText(rt.f)
  {}

  lemma {:induction false} LengthOfFound(rt: Runtime, disk: Disk, parts: seq<Stored>, chunks: seq<seq<Value>>)
    requires Holds(rt, disk, parts, chunks)
    ensures TotalLength(LocateAll(rt, parts, chunks)) == TotalBytes(parts)
    decreases |parts|
  {
    hide Locate, Line;
    if parts != [] {
      var n := |parts| - 1;
      LengthOfFound(rt, disk, parts[..n], chunks[..n]);
      LocateAllStep(rt, parts, chunks, n);
      LocateAllEnds(rt, parts, chunks);
      assert PartHolds(rt, disk, parts[n], chunks[n]);
      TotalLengthConcat(LocateAll(rt, parts[..n], chunks[..n]), Locate(rt, parts[n].name, 0, chunks[n]));
      LengthOfChunk(rt, parts[n].name, 0, chunks[n]);
    }
  }

  lemma {:induction false} TotalLengthConcat(a: seq<Found>, b: seq<Found>)
    ensures TotalLength(a + b) == TotalLength(a) + TotalLength(b)
    decreases |b|
  {
    if b == [] {
      assert a + b == a;
    } else {
      assert (a + b)[..|a + b| - 1] == a + b[..|b| - 1];
      TotalLengthConcat(a, b[..|b| - 1]);
    }
  }

  lemma {:induction false} LengthOfChunk(rt: Runtime, name: string, offset: nat, chunk: seq<Value>)
    ensures TotalLength(Locate(rt, name, offset, chunk)) == |Concat(Lines(rt.f, chunk))|
    decreases |chunk|
  {
    hide Line, TotalLength;
    TotalLengthEnds(rt, name, offset);
    if chunk != [] {
      var line := Line(rt.f, chunk[0]);
      var first, rest := Found(chunk[0], name, offset, |line|, rt.sha(line)), Locate(rt, name, offset + |line|, chunk[1..]);
      assert Locate(rt, name, offset, chunk) == [first] + rest;
      LengthOfChunk(rt, name, offset + |line|, chunk[1..]);
      TotalLengthConcat([first], rest);
      TotalLengthOne(first);
      assert Lines(rt.f, chunk) == [line] + Lines(rt.f, chunk[1..]);
      assert Lines(rt.f, chunk)[1..] == Lines(rt.f, chunk[1..]);
    }
  }

  lemma TotalLengthOne(found: Found)
    ensures TotalLength([found]) == found.length
  {
    assert [found][..0] == [];
  }

  lemma TotalLengthEnds(rt: Runtime, name: string, offset: nat)
    ensures TotalLength(Locate(rt, name, offset, [])) == 0 && Concat(Lines(rt.f, [])) == []
  {
    assert Lines(rt.f, []) == [];
  }
}
