/**
  The streaming planner: one scan of the retained parts collects the place of every item record,
  and two passes in key order read the records back one at a time, hashing, batching and chaining
  as they go. It never holds more than one batch, and it must arrive where the in-memory builder does.
 */
module Planner {
  import opened Text
  import opened Values
  import opened Json
  import opened Batching
  import opened ReceiptChain
  import opened Projection

  // ---------------------------------------------------------------- one kind, streamed

  datatype BatchRef = BatchRef(offset: nat, count: nat, bytes: nat, payload: Digest)

  /** Where one item record lies. */
  datatype Location = Location(key: Digest, ordinal: nat, name: string, offset: nat, length: nat, digest: Digest)

  type Disk = map<string, Bytes>

  function Slice(b: Bytes, offset: nat, length: nat): Bytes {
    var start := if offset < |b| then offset else |b|;
    var stop := if offset + length < |b| then offset + length else |b|;
    b[start..stop]
  }

  /** `read_record`: the bytes at a location, checked against their digest. */
  function ReadRecord(rt: Runtime, disk: Disk, at: Location): Option<Value> {
    if at.name !in disk then None
    else
      var raw := Slice(disk[at.name], at.offset, at.length);
      if |raw| != at.length || rt.sha(raw) != at.digest then None else rt.loads(raw)
  }

  function ReadRow(rt: Runtime, disk: Disk, kind: Kind, at: Location): Option<Row> {
    var record :- ReadRecord(rt, disk, at);
    Field(record, KindText(kind))
  }

  ghost predicate ReadsBack(rt: Runtime, disk: Disk, kind: Kind, places: seq<Location>, rows: seq<Row>) {
    |rows| == |places| && forall i :: 0 <= i < |places| ==> ReadRow(rt, disk, kind, places[i]) == Some(rows[i])
  }

  /** The plan's record of consecutive batches. */
  function Describe(rt: Runtime, offset: nat, batches: seq<seq<Row>>): Option<seq<BatchRef>>
    decreases |batches|
  {
    if batches == [] then Some([])
    else
      var payload :- PayloadHash(rt.sha, batches[0]);
      var rest :- Describe(rt, offset + |batches[0]|, batches[1..]);
      Some([BatchRef(offset, |batches[0]|, Size(rt.f, batches[0]), payload)] + rest)
  }

  function LinkOf(kind: Kind, ref: BatchRef): Link {
    Link(kind, ref.offset, ref.count, ref.payload)
  }

  function LinksOf(kind: Kind, refs: seq<BatchRef>): (links: seq<Link>)
    ensures |links| == |refs| && forall i :: 0 <= i < |refs| ==> links[i] == LinkOf(kind, refs[i])
  {
    seq(|refs|, i requires 0 <= i < |refs| => LinkOf(kind, refs[i]))
  }

  lemma {:induction false} DescribeGivesLinks(rt: Runtime, kind: Kind, offset: nat, batches: seq<seq<Row>>)
    ensures var d, l := Describe(rt, offset, batches), Links(rt.sha, kind, offset, batches);
      (d.None? <==> l.None?) && (d.Some? ==> l.value == LinksOf(kind, d.value))
    decreases |batches|
  {
    if batches != [] {
      DescribeGivesLinks(rt, kind, offset + |batches[0]|, batches[1..]);
      OneMoreLink(rt, kind, offset, batches);
    } else {
      assert LinksOf(kind, []) == [];
    }
  }

  lemma OneMoreLink(rt: Runtime, kind: Kind, offset: nat, batches: seq<seq<Row>>)
    requires batches != []
    requires var d, l := Describe(rt, offset + |batches[0]|, batches[1..]), Links(rt.sha, kind, offset + |batches[0]|, batches[1..]);
      (d.None? <==> l.None?) && (d.Some? ==> l.value == LinksOf(kind, d.value))
    ensures var d, l := Describe(rt, offset, batches), Links(rt.sha, kind, offset, batches);
      (d.None? <==> l.None?) && (d.Some? ==> l.value == LinksOf(kind, d.value))
  {
    hide PayloadHash;
    var payload := PayloadHash(rt.sha, batches[0]);
    var d := Describe(rt, offset + |batches[0]|, batches[1..]);
    if payload.Some? && d.Some? {
      var ref := BatchRef(offset, |batches[0]|, Size(rt.f, batches[0]), payload.value);
      assert LinksOf(kind, [ref] + d.value) == [LinkOf(kind, ref)] + LinksOf(kind, d.value);
    }
  }

  lemma {:induction false} DescribeAppend(rt: Runtime, offset: nat, batches: seq<seq<Row>>, last: seq<Row>)
    ensures Describe(rt, offset, batches + [last]) == DescribeOneMore(rt, offset, batches, last)
    decreases |batches|
  {
    hide PayloadHash, Size;
    if batches == [] {
      assert [] + [last] == [last] && [last][1..] == [];
      assert forall refs: seq<BatchRef> :: [] + refs == refs == refs + [];
    } else {
      assert (batches + [last])[0] == batches[0] && (batches + [last])[1..] == batches[1..] + [last];
      DescribeAppend(rt, offset + |batches[0]|, batches[1..], last);
      var first, rest := PayloadHash(rt.sha, batches[0]), Describe(rt, offset + |batches[0]|, batches[1..]);
      var more := PayloadHash(rt.sha, last);
      if first.Some? && rest.Some? && more.Some? {
        var ref := BatchRef(offset, |batches[0]|, Size(rt.f, batches[0]), first.value);
        var end := BatchRef(offset + |Concat(batches)|, |last|, Size(rt.f, last), more.value);
        assert [ref] + (rest.value + [end]) == [ref] + rest.value + [end];
      }
    }
  }

  function DescribeOneMore(rt: Runtime, offset: nat, batches: seq<seq<Row>>, last: seq<Row>): Option<seq<BatchRef>> {
    var refs :- Describe(rt, offset, batches);
    var payload :- PayloadHash(rt.sha, last);
    Some(refs + [BatchRef(offset + |Concat(batches)|, |last|, Size(rt.f, last), payload)])
  }

  lemma {:induction false} DescribeMore(rt: Runtime, offset: nat, batches: seq<seq<Row>>, more: seq<seq<Row>>)
    requires Describe(rt, offset, batches).None?
    ensures Describe(rt, offset, batches + more).None?
    decreases |batches|
  {
    assert (batches + more)[0] == batches[0] && (batches + more)[1..] == batches[1..] + more;
    if PayloadHash(rt.sha, batches[0]).Some? { DescribeMore(rt, offset + |batches[0]|, batches[1..], more); }
  }

  datatype Streamed = Streamed(hashed: Bytes, refs: seq<BatchRef>, chain: Digest)

  /** What a pass over the rows of one kind must produce. */
  function StreamOutcome(rt: Runtime, kind: Kind, rows: seq<Row>, hashed: Bytes, chain: Digest): Option<Streamed> {
    var batches :- Cut(rt.f, ByteLimit(kind), MaxItems(kind), [], rows);
    var refs :- Describe(rt, 0, batches);
    Some(Streamed(hashed + Utf8(DumpsItems(rt.f, SortedItems(rows))), refs, ChainFrom(rt.sha, chain, LinksOf(kind, refs))))
  }

  /** The variables of a pass: the hashed bytes, the closed batches and the open batch with its running size. */
  datatype Pass = Pass(hashed: Bytes, refs: seq<BatchRef>, offset: nat, chain: Digest, current: seq<Row>, size: nat)

  /** `flush`: closes the open batch. */
  function Flush(rt: Runtime, kind: Kind, p: Pass): Option<Pass> {
    if p.current == [] then Some(p)
    else
      var payload :- PayloadHash(rt.sha, p.current);
      var ref := BatchRef(p.offset, |p.current|, p.size, payload);
      Some(Pass(p.hashed, p.refs + [ref], p.offset + |p.current|, Step(rt.sha, p.chain, LinkOf(kind, ref)), [], 2))
  }

  predicate Closes(rt: Runtime, kind: Kind, p: Pass, row: Row) {
    p.current != [] && (|p.current| == MaxItems(kind) || p.size + 1 + RowSize(rt.f, row) > ByteLimit(kind))
  }

  /** What the pass does with the next row. */
  function Take(rt: Runtime, kind: Kind, p: Pass, first: bool, row: Row): Option<Pass> {
    var rowSize := RowSize(rt.f, row);
    if rowSize + 2 > ByteLimit(kind) then None
    else
      var q :- if Closes(rt, kind, p, row) then Flush(rt, kind, p) else Some(p);
      Some(q.(hashed := p.hashed + (if first then [] else Utf8(",")) + Utf8(Dumps(rt.f, Sorted(row))),
              size := q.size + rowSize + (if q.current == [] then 0 else 1),
              current := q.current + [row]))
  }

  /** The batches so far, the open batch and the chain, as the pass has them after `n` rows. */
  ghost predicate InStep(rt: Runtime, kind: Kind, rows: seq<Row>, start: Bytes, first: Digest, n: nat, cuts: seq<seq<Row>>, p: Pass)
    requires n <= |rows|
  {
    && Prepend(cuts, Cut(rt.f, ByteLimit(kind), MaxItems(kind), p.current, rows[n..]))
       == Cut(rt.f, ByteLimit(kind), MaxItems(kind), [], rows)
    && |p.current| <= MaxItems(kind) && (n > 0 <==> p.current != [])
    && p.hashed == start + Utf8(DumpsItems(rt.f, SortedItems(rows[..n])))
    && Closed(rt, kind, first, cuts, p)
  }

  ghost predicate Closed(rt: Runtime, kind: Kind, first: Digest, cuts: seq<seq<Row>>, p: Pass) {
    && p.size == Size(rt.f, p.current)
    && Describe(rt, 0, cuts) == Some(p.refs)
    && p.offset == |Concat(cuts)|
    && p.chain == ChainFrom(rt.sha, first, LinksOf(kind, p.refs))
  }

  lemma FlushKeeps(rt: Runtime, kind: Kind, first: Digest, cuts: seq<seq<Row>>, p: Pass)
    requires Closed(rt, kind, first, cuts, p) && p.current != []
    ensures var r := Flush(rt, kind, p);
      && (r.None? <==> Describe(rt, 0, cuts + [p.current]).None?)
      && (r.Some? ==> Closed(rt, kind, first, cuts + [p.current], r.value) && r.value.current == [] && r.value.hashed == p.hashed)
  {
    hide Describe, PayloadHash, Size, ChainFrom, Concat, LinksOf;
    DescribeAppend(rt, 0, cuts, p.current);
    ConcatAppend(cuts, [p.current]);
    ConcatOne(p.current);
    SizeAppend(rt.f, [], Null);
    var payload := PayloadHash(rt.sha, p.current);
    if payload.Some? {
      LinksOfAppend(rt.sha, first, kind, p.refs, BatchRef(p.offset, |p.current|, p.size, payload.value));
    }
  }

  lemma LinksOfAppend(sha: Hash, start: Digest, kind: Kind, refs: seq<BatchRef>, ref: BatchRef)
    ensures ChainFrom(sha, start, LinksOf(kind, refs + [ref]))
         == Step(sha, ChainFrom(sha, start, LinksOf(kind, refs)), LinkOf(kind, ref))
  {
    assert LinksOf(kind, refs + [ref]) == LinksOf(kind, refs) + [LinkOf(kind, ref)];
    ChainFromConcat(sha, start, LinksOf(kind, refs), [LinkOf(kind, ref)]);
    assert [LinkOf(kind, ref)][1..] == [];
  }

  /** Whether the open batch takes a row, decided from sizes alone, is whether the longer batch fits. */
  lemma JoinsExactly(rt: Runtime, kind: Kind, current: seq<Row>, row: Row)
    requires |current| <= MaxItems(kind) && current != []
    ensures Fits(rt.f, ByteLimit(kind), MaxItems(kind), current + [row])
       <==> !(|current| == MaxItems(kind) || Size(rt.f, current) + 1 + RowSize(rt.f, row) > ByteLimit(kind))
  {
    SizeAppend(rt.f, current, row);
  }

  lemma FlushStep(rt: Runtime, kind: Kind, rows: seq<Row>, n: nat, cuts: seq<seq<Row>>, current: seq<Row>)
    requires n < |rows| && current != [] && RowSize(rt.f, rows[n]) + 2 <= ByteLimit(kind)
    requires !Fits(rt.f, ByteLimit(kind), MaxItems(kind), current + [rows[n]])
    ensures Prepend(cuts, Cut(rt.f, ByteLimit(kind), MaxItems(kind), current, rows[n..]))
         == Prepend(cuts + [current], Cut(rt.f, ByteLimit(kind), MaxItems(kind), [rows[n]], rows[n + 1..]))
  {
    assert rows[n..][0] == rows[n] && rows[n..][1..] == rows[n + 1..];
    PrependOne(cuts, current, Cut(rt.f, ByteLimit(kind), MaxItems(kind), [rows[n]], rows[n + 1..]));
  }

  lemma JoinStep(rt: Runtime, kind: Kind, rows: seq<Row>, n: nat, current: seq<Row>)
    requires n < |rows| && RowSize(rt.f, rows[n]) + 2 <= ByteLimit(kind)
    requires current != [] ==> Fits(rt.f, ByteLimit(kind), MaxItems(kind), current + [rows[n]])
    ensures Cut(rt.f, ByteLimit(kind), MaxItems(kind), current, rows[n..])
         == Cut(rt.f, ByteLimit(kind), MaxItems(kind), current + [rows[n]], rows[n + 1..])
  {
    assert rows[n..][0] == rows[n] && rows[n..][1..] == rows[n + 1..];
  }

  /** An oversized row, or a batch the receipts refuse, sinks the whole pass. */
  lemma OversizedSinks(rt: Runtime, kind: Kind, rows: seq<Row>, n: nat)
    requires n < |rows| && RowSize(rt.f, rows[n]) + 2 > ByteLimit(kind)
    ensures Cut(rt.f, ByteLimit(kind), MaxItems(kind), [], rows).None?
  {
    CutFailsExactly(rt.f, ByteLimit(kind), MaxItems(kind), [], rows);
  }

  lemma RefusedSinks(rt: Runtime, kind: Kind, rows: seq<Row>, start: Bytes, first: Digest, batches: seq<seq<Row>>, rest: Option<seq<seq<Row>>>)
    requires Prepend(batches, rest) == Cut(rt.f, ByteLimit(kind), MaxItems(kind), [], rows)
    requires Describe(rt, 0, batches).None?
    ensures StreamOutcome(rt, kind, rows, start, first).None?
  {
    if rest.Some? { DescribeMore(rt, 0, batches, rest.value); }
  }

  /** The text hashed so far grows by a comma and the sorted row. */
  lemma HashedAppend(rt: Runtime, rows: seq<Row>, n: nat)
    requires n < |rows|
    ensures Utf8(DumpsItems(rt.f, SortedItems(rows[..n + 1])))
         == Utf8(DumpsItems(rt.f, SortedItems(rows[..n]))) + (if n > 0 then Utf8(",") else []) + Utf8(Dumps(rt.f, Sorted(rows[n])))
  {
    assert rows[..n + 1] == rows[..n] + [rows[n]];
    SortedItemsAppend(rows[..n], rows[n]);
    var before := SortedItems(rows[..n]);
    ItemsAppend(rt.f, before, Sorted(rows[n]));
    if n > 0 {
      Utf8Concat(DumpsItems(rt.f, before) + ",", Dumps(rt.f, Sorted(rows[n])));
      Utf8Concat(DumpsItems(rt.f, before), ",");
    } else {
      assert "" + Dumps(rt.f, Sorted(rows[n])) == Dumps(rt.f, Sorted(rows[n]));
    }
  }

  lemma {:induction false} SortedItemsAppend(rows: seq<Row>, row: Row)
    ensures SortedItems(rows + [row]) == SortedItems(rows) + [Sorted(row)]
  {
    if rows == [] {
      assert rows + [row] == [row] && [row][1..] == [];
    } else {
      assert (rows + [row])[0] == rows[0] && (rows + [row])[1..] == rows[1..] + [row];
      SortedItemsAppend(rows[1..], row);
    }
  }

  lemma TakeKeeps(rt: Runtime, kind: Kind, rows: seq<Row>, start: Bytes, first: Digest, n: nat, cuts: seq<seq<Row>>, p: Pass)
    returns (after: seq<seq<Row>>)
    requires n < |rows| && InStep(rt, kind, rows, start, first, n, cuts, p)
    ensures var r := Take(rt, kind, p, n == 0, rows[n]);
      && (r.None? ==> StreamOutcome(rt, kind, rows, start, first).None?)
      && (r.Some? ==> InStep(rt, kind, rows, start, first, n + 1, after, r.value))
  {
    after := cuts;
    if RowSize(rt.f, rows[n]) + 2 > ByteLimit(kind) {
      OversizedSinks(rt, kind, rows, n);
    } else if Closes(rt, kind, p, rows[n]) {
      after := cuts + [p.current];
      TakeCloses(rt, kind, rows, start, first, n, cuts, p);
    } else {
      TakeJoins(rt, kind, rows, start, first, n, cuts, p);
    }
  }

  lemma TakeCloses(rt: Runtime, kind: Kind, rows: seq<Row>, start: Bytes, first: Digest, n: nat, cuts: seq<seq<Row>>, p: Pass)
    requires n < |rows| && InStep(rt, kind, rows, start, first, n, cuts, p)
    requires RowSize(rt.f, rows[n]) + 2 <= ByteLimit(kind) && Closes(rt, kind, p, rows[n])
    ensures var r := Take(rt, kind, p, n == 0, rows[n]);
      && (r.None? ==> StreamOutcome(rt, kind, rows, start, first).None?)
      && (r.Some? ==> InStep(rt, kind, rows, start, first, n + 1, cuts + [p.current], r.value))
  {
    hide Cut, Describe, PayloadHash, Size, RowSize, Dumps, DumpsItems, SortedItems, Sorted, ChainFrom, Utf8;
    var row := rows[n];
    JoinsExactly(rt, kind, p.current, row);
    FlushStep(rt, kind, rows, n, cuts, p.current);
    FlushKeeps(rt, kind, first, cuts, p);
    SizeAppend(rt.f, [], row);
    HashedAppend(rt, rows, n);
    assert [] + [row] == [row];
    if Flush(rt, kind, p).None? {
      RefusedSinks(rt, kind, rows, start, first, cuts + [p.current],
                   Cut(rt.f, ByteLimit(kind), MaxItems(kind), [row], rows[n + 1..]));
    }
  }

  lemma TakeJoins(rt: Runtime, kind: Kind, rows: seq<Row>, start: Bytes, first: Digest, n: nat, cuts: seq<seq<Row>>, p: Pass)
    requires n < |rows| && InStep(rt, kind, rows, start, first, n, cuts, p)
    requires RowSize(rt.f, rows[n]) + 2 <= ByteLimit(kind) && !Closes(rt, kind, p, rows[n])
    ensures var r := Take(rt, kind, p, n == 0, rows[n]);
      r.Some? && InStep(rt, kind, rows, start, first, n + 1, cuts, r.value)
  {
    hide Cut, Describe, PayloadHash, Size, RowSize, Dumps, DumpsItems, SortedItems, Sorted, ChainFrom, Utf8;
    var row := rows[n];
    if p.current != [] { JoinsExactly(rt, kind, p.current, row); }
    JoinStep(rt, kind, rows, n, p.current);
    SizeAppend(rt.f, p.current, row);
    HashedAppend(rt, rows, n);
  }

  /** One pass of `finalize_plan`: `None` is the failure that ends the planning. */
  method StreamKind(rt: Runtime, disk: Disk, kind: Kind, places: seq<Location>, start: Bytes, first: Digest, ghost rows: seq<Row>)
    returns (r: Option<Streamed>)
    ensures ReadsBack(rt, disk, kind, places, rows) ==> r == StreamOutcome(rt, kind, rows, start, first)
  {
    hide Take, Flush, ReadRow, InStep, StreamOutcome;
    var p := Pass(start, [], 0, first, [], 2);
    ghost var cuts: seq<seq<Row>> := [];
    ghost var sound := ReadsBack(rt, disk, kind, places, rows);
    StreamStart(rt, kind, rows, start, first);
    for n := 0 to |places|
      invariant sound ==> InStep(rt, kind, rows, start, first, n, cuts, p)
    {
      var row := ReadRow(rt, disk, kind, places[n]);
      if row.None? {
        return None;
      }
      var taken := Take(rt, kind, p, n == 0, row.value);
      if sound {
        cuts := TakeKeeps(rt, kind, rows, start, first, n, cuts, p);
      }
      if taken.None? {
        return None;
      }
      p := taken.value;
    }
    if sound { StreamEnd(rt, kind, rows, start, first, cuts, p); }
    var flushed := Flush(rt, kind, p);
    if flushed.None? {
      return None;
    }
    return Some(Streamed(flushed.value.hashed, flushed.value.refs, flushed.value.chain));
  }

  lemma StreamStart(rt: Runtime, kind: Kind, rows: seq<Row>, start: Bytes, first: Digest)
    ensures InStep(rt, kind, rows, start, first, 0, [], Pass(start, [], 0, first, [], 2))
  {
    PrependNothing(Cut(rt.f, ByteLimit(kind), MaxItems(kind), [], rows));
    assert rows[0..] == rows && rows[..0] == [];
    SizeAppend(rt.f, [], Null);
    assert LinksOf(kind, []) == [];
    assert start + Utf8("") == start;
  }

  lemma StreamEnd(rt: Runtime, kind: Kind, rows: seq<Row>, start: Bytes, first: Digest, cuts: seq<seq<Row>>, p: Pass)
    requires InStep(rt, kind, rows, start, first, |rows|, cuts, p)
    ensures var r := Flush(rt, kind, p);
      StreamOutcome(rt, kind, rows, start, first)
      == if r.None? then None else Some(Streamed(r.value.hashed, r.value.refs, r.value.chain))
  {
    assert rows[|rows|..] == [] && rows[..|rows|] == rows;
    if p.current != [] {
      FlushKeeps(rt, kind, first, cuts, p);
    } else {
      assert cuts + [] == cuts;
    }
  }
}
