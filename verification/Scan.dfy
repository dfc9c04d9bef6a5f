/** The retained parts: their lines, the records in them, and the one scan that locates every record. */
module Scan {
  import opened Text
  import opened Values
  import opened Json
  import opened Projection
  import opened Planner

  // ------------------------------------------------------------------------- lines

  /** The length of the first line with its terminator, as `bytes.splitlines` finds it. */
  function LineEnd(b: Bytes): (k: nat)
    ensures k <= |b| && (b != [] ==> k > 0)
  {
    if b == [] then 0
    else if b[0] == 10 then 1
    else if b[0] == 13 then if |b| > 1 && b[1] == 10 then 2 else 1
    else 1 + LineEnd(b[1..])
  }

  /** `raw.splitlines(keepends=True)`. */
  function SplitLines(b: Bytes): seq<Bytes>
    decreases |b|
  {
    if b == [] then [] else [b[..LineEnd(b)]] + SplitLines(b[LineEnd(b)..])
  }

  ghost predicate IsLine(line: Bytes) {
    line != [] && line[|line| - 1] == 10 && forall i :: 0 <= i < |line| - 1 ==> line[i] >= 32
  }

  lemma {:induction false} LineEndIs(line: Bytes, rest: Bytes)
    requires IsLine(line)
    ensures LineEnd(line + rest) == |line|
  {
    if |line| > 1 {
      assert (line + rest)[1..] == line[1..] + rest;
      LineEndIs(line[1..], rest);
    }
  }

  lemma {:induction false} SplitInverts(lines: seq<Bytes>)
    requires forall i :: 0 <= i < |lines| ==> IsLine(lines[i])
    ensures SplitLines(Concat(lines)) == lines
  {
    if lines != [] {
      var rest := Concat(lines[1..]);
      LineEndIs(lines[0], rest);
      var b := Concat(lines);
      assert b == lines[0] + rest;
      assert b[..|lines[0]|] == lines[0] && b[|lines[0]|..] == rest;
      SplitInverts(lines[1..]);
    }
  }

  lemma LineIsLine(f: FloatText, v: Value)
    requires IsFloatText(f)
    ensures IsLine(Line(f, v))
  {
    var s := Dumps(f, v);
    DumpsIsPrintable(f, v);
    PrintableBytes(s);
    Utf8Concat(s, "\n");
    Utf8One('\n');
  }

  // ------------------------------------------------------------------------- parts

  /** What the manifest says of a part file. */
  datatype Stored = Stored(name: string, sha: Digest, sourceCount: nat, bytes: nat)

  function Lines(f: FloatText, chunk: seq<Value>): (r: seq<Bytes>)
    ensures |r| == |chunk| && forall i :: 0 <= i < |chunk| ==> r[i] == Line(f, chunk[i])
  {
    seq(|chunk|, i requires 0 <= i < |chunk| => Line(f, chunk[i]))
  }

  /** The file of a part holds exactly these records, one line each. */
  ghost predicate PartHolds(rt: Runtime, disk: Disk, part: Stored, chunk: seq<Value>) {
    && part.name in disk && disk[part.name] == Concat(Lines(rt.f, chunk))
    && part.sha == rt.sha(disk[part.name]) && part.bytes == |disk[part.name]| && part.sourceCount == |chunk|
    && forall i :: 0 <= i < |chunk| ==> IsJson(chunk[i])
  }

  ghost predicate Holds(rt: Runtime, disk: Disk, parts: seq<Stored>, chunks: seq<seq<Value>>) {
    |chunks| == |parts| && forall i :: 0 <= i < |parts| ==> PartHolds(rt, disk, parts[i], chunks[i])
  }

  predicate Verified(rt: Runtime, disk: Disk, part: Stored) {
    part.name in disk && |disk[part.name]| == part.bytes && rt.sha(disk[part.name]) == part.sha
  }

  /** A record and where its line lies. */
  datatype Found = Found(record: Value, name: string, offset: nat, length: nat, digest: Digest)

  function Locate(rt: Runtime, name: string, offset: nat, chunk: seq<Value>): (r: seq<Found>)
    ensures |r| == |chunk| && forall i :: 0 <= i < |chunk| ==> r[i].record == chunk[i]
    decreases |chunk|
  {
    if chunk == [] then []
    else
      var line := Line(rt.f, chunk[0]);
      [Found(chunk[0], name, offset, |line|, rt.sha(line))] + Locate(rt, name, offset + |line|, chunk[1..])
  }

  function LocateAll(rt: Runtime, parts: seq<Stored>, chunks: seq<seq<Value>>): (r: seq<Found>)
    requires |chunks| == |parts|
    ensures |r| == |Concat(chunks)| && forall i :: 0 <= i < |r| ==> r[i].record == Concat(chunks)[i]
    decreases |parts|
  {
    if parts == [] then [] else Locate(rt, parts[0].name, 0, chunks[0]) + LocateAll(rt, parts[1..], chunks[1..])
  }

  ghost predicate AreLinesOf(rt: Runtime, lines: seq<Bytes>, chunk: seq<Value>) {
    Faithful(rt) && lines == Lines(rt.f, chunk) && forall i :: 0 <= i < |chunk| ==> IsJson(chunk[i])
  }

  /** The records of one part's lines; `None` when a line is not JSON. */
  method ScanLines(rt: Runtime, name: string, lines: seq<Bytes>, ghost chunk: seq<Value>) returns (r: Option<seq<Found>>)
    ensures AreLinesOf(rt, lines, chunk) ==> r == Some(Locate(rt, name, 0, chunk))
  {
    hide Locate, AreLinesOf, Extent;
    var found: seq<Found>, offset: nat := [], 0;
    ghost var sound := AreLinesOf(rt, lines, chunk);
    if sound { LocateEnds(rt, name, lines, chunk); }
    for n := 0 to |lines|
      invariant sound ==> |chunk| == |lines|
      invariant sound ==> found == Locate(rt, name, 0, chunk[..n]) && offset == Extent(rt.f, chunk[..n])
    {
      if sound { LocateStep(rt, name, lines, chunk, n); }
      var record := rt.loads(lines[n]);
      if record.None? {
        return None;
      }
      found := found + [Found(record.value, name, offset, |lines[n]|, rt.sha(lines[n]))];
      offset := offset + |lines[n]|;
    }
    return Some(found);
  }

  /** The bytes that the lines of these records take. */
  function Extent(f: FloatText, chunk: seq<Value>): nat {
    if chunk == [] then 0 else |Line(f, chunk[0])| + Extent(f, chunk[1..])
  }

  lemma {:induction false} LocateAppend(rt: Runtime, name: string, offset: nat, chunk: seq<Value>, v: Value)
    ensures Locate(rt, name, offset, chunk + [v])
         == Locate(rt, name, offset, chunk)
            + [Found(v, name, offset + Extent(rt.f, chunk), |Line(rt.f, v)|, rt.sha(Line(rt.f, v)))]
    ensures Extent(rt.f, chunk + [v]) == Extent(rt.f, chunk) + |Line(rt.f, v)|
    decreases |chunk|
  {
    hide Line, Locate, Extent;
    LocateFirst(rt, name, offset, chunk);
    LocateFirst(rt, name, offset, chunk + [v]);
    if chunk == [] {
      assert chunk + [v] == [v] && [v][1..] == [];
      LocateFirst(rt, name, offset + |Line(rt.f, v)|, []);
    } else {
      assert (chunk + [v])[0] == chunk[0] && (chunk + [v])[1..] == chunk[1..] + [v];
      LocateAppend(rt, name, offset + |Line(rt.f, chunk[0])|, chunk[1..], v);
    }
  }

  lemma LocateFirst(rt: Runtime, name: string, offset: nat, chunk: seq<Value>)
    ensures chunk == [] ==> Locate(rt, name, offset, chunk) == [] && Extent(rt.f, chunk) == 0
    ensures chunk != [] ==>
      var line := Line(rt.f, chunk[0]);
      && Locate(rt, name, offset, chunk) == [Found(chunk[0], name, offset, |line|, rt.sha(line))] + Locate(rt, name, offset + |line|, chunk[1..])
      && Extent(rt.f, chunk) == |line| + Extent(rt.f, chunk[1..])
  {
    hide Line;
  }

  lemma LocateStep(rt: Runtime, name: string, lines: seq<Bytes>, chunk: seq<Value>, n: nat)
    requires AreLinesOf(rt, lines, chunk) && n < |lines|
    ensures |chunk| == |lines| && rt.loads(lines[n]) == Some(chunk[n])
    ensures Locate(rt, name, 0, chunk[..n + 1])
         == Locate(rt, name, 0, chunk[..n])
            + [Found(chunk[n], name, Extent(rt.f, chunk[..n]), |lines[n]|, rt.sha(lines[n]))]
    ensures Extent(rt.f, chunk[..n + 1]) == Extent(rt.f, chunk[..n]) + |lines[n]|
  {
    hide Line, Locate, Extent;
    assert chunk[..n + 1] == chunk[..n] + [chunk[n]];
    LocateAppend(rt, name, 0, chunk[..n], chunk[n]);
  }

  lemma LocateEnds(rt: Runtime, name: string, lines: seq<Bytes>, chunk: seq<Value>)
    requires AreLinesOf(rt, lines, chunk)
    ensures |chunk| == |lines| && Locate(rt, name, 0, chunk[..0]) == [] && Extent(rt.f, chunk[..0]) == 0
    ensures chunk[..|lines|] == chunk
  {}

  /** `_record_locations`: every part is checked against its digest and count before its records are used. */
  method ScanParts(rt: Runtime, disk: Disk, parts: seq<Stored>, ghost chunks: seq<seq<Value>>) returns (r: Option<seq<Found>>)
    ensures r.Some? ==> forall i :: 0 <= i < |parts| ==> Verified(rt, disk, parts[i])
    ensures Faithful(rt) && Holds(rt, disk, parts, chunks) ==> r == Some(LocateAll(rt, parts, chunks))
  {
    hide Locate, LocateAll, SplitLines, PartHolds, AreLinesOf, Faithful;
    var found: seq<Found> := [];
    ghost var sound := Faithful(rt) && Holds(rt, disk, parts, chunks);
    if sound { LocateAllEnds(rt, parts, chunks); }
    for n := 0 to |parts|
      invariant forall i :: 0 <= i < n ==> Verified(rt, disk, parts[i])
      invariant sound ==> |chunks| == |parts| && found == LocateAll(rt, parts[..n], chunks[..n])
    {
      var part := parts[n];
      if sound {
        assert PartHolds(rt, disk, part, chunks[n]);
        LinesOfPart(rt, disk, part, chunks[n]);
      }
      if !Verified(rt, disk, part) {
        return None;
      }
      var lines := SplitLines(disk[part.name]);
      if |lines| != part.sourceCount {
        return None;
      }
      var records := ScanLines(rt, part.name, lines, if sound then chunks[n] else []);
      if records.None? {
        return None;
      }
      if sound {
        LocateAllStep(rt, parts, chunks, n);
      }
      found := found + records.value;
    }
    return Some(found);
  }

  lemma {:induction false} LocateAllAppend(rt: Runtime, parts: seq<Stored>, chunks: seq<seq<Value>>, part: Stored, chunk: seq<Value>)
    requires |parts| == |chunks|
    ensures LocateAll(rt, parts + [part], chunks + [chunk]) == LocateAll(rt, parts, chunks) + Locate(rt, part.name, 0, chunk)
    decreases |parts|
  {
    hide Locate;
    if parts == [] {
      assert parts + [part] == [part] && chunks + [chunk] == [chunk] && [part][1..] == [] && [chunk][1..] == [];
      assert LocateAll(rt, [part], [chunk]) == Locate(rt, part.name, 0, chunk) + LocateAll(rt, [], []);
    } else {
      assert (parts + [part])[1..] == parts[1..] + [part] && (chunks + [chunk])[1..] == chunks[1..] + [chunk];
      LocateAllAppend(rt, parts[1..], chunks[1..], part, chunk);
    }
  }

  lemma LocateAllStep(rt: Runtime, parts: seq<Stored>, chunks: seq<seq<Value>>, n: nat)
    requires |parts| == |chunks| && n < |parts|
    ensures LocateAll(rt, parts[..n + 1], chunks[..n + 1])
         == LocateAll(rt, parts[..n], chunks[..n]) + Locate(rt, parts[n].name, 0, chunks[n])
  {
    hide Locate, LocateAll;
    assert parts[..n + 1] == parts[..n] + [parts[n]] && chunks[..n + 1] == chunks[..n] + [chunks[n]];
    LocateAllAppend(rt, parts[..n], chunks[..n], parts[n], chunks[n]);
  }

  lemma LocateAllEnds(rt: Runtime, parts: seq<Stored>, chunks: seq<seq<Value>>)
    requires |parts| == |chunks|
    ensures LocateAll(rt, parts[..0], chunks[..0]) == []
    ensures parts[..|parts|] == parts && chunks[..|parts|] == chunks
  {}

  lemma LinesOfPart(rt: Runtime, disk: Disk, part: Stored, chunk: seq<Value>)
    requires Faithful(rt) && PartHolds(rt, disk, part, chunk)
    ensures Verified(rt, disk, part) && part.sourceCount == |chunk| == |SplitLines(disk[part.name])|
    ensures AreLinesOf(rt, SplitLines(disk[part.name]), chunk)
  {
    hide Line;
    forall i | 0 <= i < |chunk|
      ensures IsLine(Lines(rt.f, chunk)[i])
    {
      LineIsLine(rt.f, chunk[i]);
    }
    SplitInverts(Lines(rt.f, chunk));
  }

  // ------------------------------------------------------- located records read back

  /** The bytes at a place are the line of the record found there. */
  ghost predicate LiesAt(rt: Runtime, disk: Disk, found: Found) {
    && found.name in disk && found.offset + found.length <= |disk[found.name]|
    && disk[found.name][found.offset..found.offset + found.length] == Line(rt.f, found.record)
    && found.digest == rt.sha(Line(rt.f, found.record)) && found.length > 0
  }

  lemma {:induction false} LocateFindsLines(rt: Runtime, disk: Disk, name: string, before: Bytes, chunk: seq<Value>, i: nat)
    requires IsFloatText(rt.f) && name in disk && i < |chunk|
    requires before <= disk[name] && disk[name][|before|..] == Concat(Lines(rt.f, chunk))
    ensures LiesAt(rt, disk, Locate(rt, name, |before|, chunk)[i])
    ensures Locate(rt, name, |before|, chunk)[i].name == name
    decreases i
  {
    hide Line;
    var line := Line(rt.f, chunk[0]);
    LineIsLine(rt.f, chunk[0]);
    var lines := Lines(rt.f, chunk);
    assert lines[1..] == Lines(rt.f, chunk[1..]);
    assert Concat(lines) == line + Concat(lines[1..]);
    var b := disk[name];
    assert b == before + (line + Concat(lines[1..]));
    if i == 0 {
      assert b[|before|..|before| + |line|] == line;
    } else {
      assert before + line <= b;
      assert b[|before + line|..] == Concat(lines[1..]);
      LocateFindsLines(rt, disk, name, before + line, chunk[1..], i - 1);
    }
  }

  lemma {:induction false} AllRecordsLieWhereFound(rt: Runtime, disk: Disk, parts: seq<Stored>, chunks: seq<seq<Value>>, i: nat)
    requires IsFloatText(rt.f) && Holds(rt, disk, parts, chunks) && i < |LocateAll(rt, parts, chunks)|
    ensures LiesAt(rt, disk, LocateAll(rt, parts, chunks)[i])
    ensures IsJson(LocateAll(rt, parts, chunks)[i].record)
    decreases |parts|
  {
    hide LiesAt, Locate, IsFloatText;
    var first := Locate(rt, parts[0].name, 0, chunks[0]);
    assert PartHolds(rt, disk, parts[0], chunks[0]);
    if i < |first| {
      assert disk[parts[0].name][0..] == disk[parts[0].name];
      LocateFindsLines(rt, disk, parts[0].name, [], chunks[0], i);
    } else {
      AllRecordsLieWhereFound(rt, disk, parts[1..], chunks[1..], i - |first|);
    }
  }

  /** A descriptor made from a found record reads that record back. */
  lemma FoundReadsBack(rt: Runtime, disk: Disk, found: Found, key: Digest, ordinal: nat)
    requires Faithful(rt) && LiesAt(rt, disk, found) && IsJson(found.record)
    ensures ReadRecord(rt, disk, Location(key, ordinal, found.name, found.offset, found.length, found.digest)) == Some(found.record)
  {
  }

  // ----------------------------------------------------------------------- part names

  /** `part-{number:08d}-{digest}.jsonl`. */
  function PartName(number: nat, sha: Digest): string {
    "part-" + Pad(Decimal(number), 8) + "-" + sha + ".jsonl"
  }

  /** Parts of different numbers have different files. */
  lemma PartNameInjective(m: nat, n: nat, s: Digest, t: Digest)
    requires PartName(m, s) == PartName(n, t)
    ensures m == n && s == t
  {
    var p, q := Pad(Decimal(m), 8), Pad(Decimal(n), 8);
    assert |p| == |q|;
    assert PartName(m, s)[5..5 + |p|] == p && PartName(n, t)[5..5 + |q|] == q;
    assert PartName(m, s)[6 + |p|..70 + |p|] == s && PartName(n, t)[6 + |q|..70 + |q|] == t;
    PadKeepsValue(Decimal(m), 8);
    PadKeepsValue(Decimal(n), 8);
    DecimalValue(m);
    DecimalValue(n);
  }
}
