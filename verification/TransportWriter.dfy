/** `render_transport` as a loop over facts, sources and parts. */
module TransportWriter {
  import opened Text
  import opened Values
  import opened Canonical
  import opened CanonicalForm
  import opened Projection
  import opened Transport

  /** A fact with the length of its pair, measured once. */
  datatype Sized = Sized(item: Item, size: nat)

  function Measured(xs: seq<Item>): (r: seq<Sized>)
    ensures |r| == |xs| && forall i :: 0 <= i < |xs| ==> r[i] == Sized(xs[i], Cost(PairValue(xs[i])))
  {
    seq(|xs|, i requires 0 <= i < |xs| => Sized(xs[i], Cost(PairValue(xs[i]))))
  }

  function Prepend(first: seq<Part>, rest: Option<seq<Part>>): Option<seq<Part>> {
    match rest case None => None case Some(ps) => Some(first + ps)
  }

  lemma PrependTwice(a: seq<Part>, b: seq<Part>, rest: Option<seq<Part>>)
    ensures Prepend(a, Prepend(b, rest)) == Prepend(a + b, rest) && Prepend([], rest) == rest
  {
    if rest.Some? {
      assert a + (b + rest.value) == a + b + rest.value && [] + rest.value == rest.value;
    }
  }

  lemma PrependOne(first: seq<Part>, part: Part)
    ensures Prepend(first, Some([part])) == Some(first + [part])
  {}

  lemma {:induction false} EmittedPrefix(digest: Value, parts: seq<Part>, more: seq<Part>)
    requires Emitted(digest, parts + more)
    ensures Emitted(digest, parts)
    decreases |more|
  {
    if more == [] {
      assert parts + more == parts;
    } else {
      var n := |more| - 1;
      assert (parts + more)[..|parts + more| - 1] == parts + more[..n];
      EmittedButLast(digest, parts + more);
      EmittedPrefix(digest, parts, more[..n]);
    }
  }

  lemma EmittedButLast(digest: Value, parts: seq<Part>)
    requires parts != [] && Emitted(digest, parts)
    ensures Emitted(digest, parts[..|parts| - 1])
  {
    hide Written, PartValue, PartBytes;
    var shorter := parts[..|parts| - 1];
    assert forall k :: 0 <= k < |shorter| ==> shorter[k] == parts[k];
  }

  lemma TextLength(v: Value)
    ensures |Utf8(CanonicalText(v) + "\n")| == Cost(v) + 1 == |CanonicalBytes(v)|
  {
    CanonicalLength(v);
  }

  class Writer {
    const sha: Hash
    const digest: Value
    var outputs: Files
    var descriptors: seq<Descriptor>
    var total: nat
    ghost var parts: seq<Part>

    ghost predicate Valid()
      reads this
    {
      && outputs == PartFiles(digest, parts)
      && descriptors == Descriptors(sha, digest, parts)
      && total == TotalBytes(digest, parts)
      && Emitted(digest, parts)
    }

    constructor (sha: Hash, digest: Value)
      ensures this.sha == sha && this.digest == digest && parts == [] && Valid()
    {
      this.sha, this.digest := sha, digest;
      outputs, descriptors, total, parts := map[], [], 0, [];
    }

    /** `emit`: the part is written unless it breaks a limit. */
    method EmitPart(source: string, observed: Each<seq<Value>>, ghost items: seq<Item>) returns (ok: bool)
      requires Valid() && observed == PairsOf(items)
      modifies this
      ensures ok == Emitted(digest, old(parts) + [Part(source, items)])
      ensures ok ==> Valid() && parts == old(parts) + [Part(source, items)]
    {
      hide Cost, Admissible, PartRecord, PairsOf, CanonicalText, Utf8;
      ghost var part := Part(source, items);
      AppendPart(sha, digest, parts, part);
      if |descriptors| >= MAXIMUM_PARTS {
        return false;
      }
      var name := PartName(|descriptors|);
      var value := PartRecord(digest, source, observed);
      var content := Canonical.Canonical(value, MAXIMUM_INDEX_BYTES);
      if content.None? {
        return false;
      }
      TextLength(value);
      var raw := Utf8(content.value);
      if |raw| > MAXIMUM_INDEX_BYTES {
        return false;
      }
      total := total + |raw|;
      if total > MAXIMUM_TRANSPORT_BYTES {
        return false;
      }
      outputs := outputs[name := raw];
      descriptors := descriptors + [Descriptor(name, source, |raw|, sha(raw), CountsOf(observed))];
      parts := parts + [part];
      return true;
    }

    /** The facts of one source, packed into parts in order. */
    method EmitSource(source: string, rows: seq<Sized>, ghost items: seq<Item>) returns (ok: bool)
      requires Valid() && rows == Measured(items)
      modifies this
      ensures ok == (Written(PartValue(digest, Part(source, [])), MAXIMUM_TRANSPORT_BYTES)
                     && Pack(digest, source, [], items).Some?
                     && Emitted(digest, old(parts) + Pack(digest, source, [], items).value))
      ensures ok ==> Valid() && parts == old(parts) + Pack(digest, source, [], items).value
    {
      hide Cost, Admissible, PartRecord, Only, CanonicalText, Utf8, PairValue, Emitted, PartFiles, TotalBytes, Descriptors;
      ghost var before := parts;
      ghost var packed := Pack(digest, source, [], items);
      var observed: Each<seq<Value>> := Each([], [], []);
      NothingPacked();
      var empty := Canonical.Canonical(PartRecord(digest, source, observed), MAXIMUM_TRANSPORT_BYTES);
      if empty.None? {
        return false;
      }
      TextLength(PartRecord(digest, source, observed));
      var emptySize: nat := |Utf8(empty.value)|;
      var size: nat := emptySize;
      ghost var open: seq<Item> := [];
      ghost var done: seq<Part> := [];
      assert items[0..] == items;
      PrependTwice([], [], packed);
      for k := 0 to |rows|
        invariant Valid() && parts == before + done && observed == PairsOf(open)
        invariant size == PartBytes(digest, Part(source, open))
        invariant packed == Prepend(done, Pack(digest, source, open, items[k..]))
      {
        var x := rows[k].item;
        assert items[k..][0] == x && items[k..][1..] == items[k + 1..];
        PartBytesAppend(digest, source, open, x);
        PartBytesAppend(digest, source, [], x);
        PairsAppend(open, x);
        PairsAppend([], x);
        SameEmptiness(open, x.family);
        assert [] + [x] == [x];
        var extra := rows[k].size + if observed.Of(x.family) == [] then 0 else 1;
        if size + extra > MAXIMUM_INDEX_BYTES {
          if observed.symbols == [] && observed.edges == [] && observed.tests == [] {
            NothingOpen(open);
            return false;
          }
          SomethingOpen(open);
          ok := EmitPart(source, observed, open);
          if !ok {
            if packed.Some? {
              PackStartsWith(digest, source, open, items[k..]);
              RefusedPrefix(digest, before, done, Part(source, open), packed.value);
            }
            return;
          }
          ghost var rest := Pack(digest, source, [x], items[k + 1..]);
          assert PartBytes(digest, Part(source, [x])) <= MAXIMUM_INDEX_BYTES ==>
            Pack(digest, source, open, items[k..]) == Prepend([Part(source, open)], rest);
          PrependTwice(done, [Part(source, open)], rest);
          done := done + [Part(source, open)];
          assert parts == before + done;
          open := [];
          observed := Each([], [], []);
          size := emptySize;
          extra := rows[k].size;
        }
        if size + extra > MAXIMUM_INDEX_BYTES {
          return false;
        }
        observed := observed.Put(x.family, observed.Of(x.family) + [PairValue(x)]);
        size := size + extra;
        open := open + [x];
      }
      assert items[|rows|..] == [];
      PrependOne(done, Part(source, open));
      ok := EmitPart(source, observed, open);
      assert before + done + [Part(source, open)] == before + (done + [Part(source, open)]);
    }
  }

  lemma NothingPacked()
    ensures PairsOf([]) == Each([], [], []) && forall f :: Only([], f) == []
  {
    assert PairsOf([]).symbols == [] && PairsOf([]).edges == [] && PairsOf([]).tests == [];
  }

  lemma SameEmptiness(xs: seq<Item>, f: Family)
    ensures PairsOf(xs).Of(f) == [] <==> Only(xs, f) == []
  {
    assert PairsOf(xs).Of(f) == Pairs(Only(xs, f));
    assert |Pairs(Only(xs, f))| == |Only(xs, f)|;
  }

  lemma NothingOpen(xs: seq<Item>)
    requires PairsOf(xs).symbols == [] && PairsOf(xs).edges == [] && PairsOf(xs).tests == []
    ensures xs == []
  {}

  lemma SomethingOpen(xs: seq<Item>)
    requires !(PairsOf(xs).symbols == [] && PairsOf(xs).edges == [] && PairsOf(xs).tests == [])
    ensures xs != []
  {
    NothingPacked();
  }

  lemma PackStartsWith(digest: Value, source: string, open: seq<Item>, rows: seq<Item>)
    requires rows != [] && Pack(digest, source, open, rows).Some?
    requires PartBytes(digest, Part(source, open + [rows[0]])) > MAXIMUM_INDEX_BYTES
    ensures var ps := Pack(digest, source, open, rows).value; ps != [] && ps[0] == Part(source, open)
  {
    hide PartBytes;
  }

  lemma RefusedPrefix(digest: Value, before: seq<Part>, done: seq<Part>, part: Part, all: seq<Part>)
    requires !Emitted(digest, before + done + [part])
    requires |done| < |all| && all[..|done|] == done && all[|done|] == part
    ensures !Emitted(digest, before + all)
  {
    hide Emitted;
    if Emitted(digest, before + all) {
      assert before + all == before + done + [part] + all[|done| + 1..];
      EmittedPrefix(digest, before + done + [part], all[|done| + 1..]);
    }
  }

  lemma AppendPart(sha: Hash, digest: Value, parts: seq<Part>, part: Part)
    ensures PartFiles(digest, parts + [part]) == PartFiles(digest, parts)[PartName(|parts|) := CanonicalBytes(PartValue(digest, part))]
    ensures Descriptors(sha, digest, parts + [part]) == Descriptors(sha, digest, parts) + [Describe(sha, digest, |parts|, part)]
    ensures TotalBytes(digest, parts + [part]) == TotalBytes(digest, parts) + PartBytes(digest, part)
    ensures Emitted(digest, parts) ==>
      (Emitted(digest, parts + [part]) <==>
        |parts| < MAXIMUM_PARTS && Written(PartValue(digest, part), MAXIMUM_INDEX_BYTES)
        && TotalBytes(digest, parts) + PartBytes(digest, part) <= MAXIMUM_TRANSPORT_BYTES)
  {
    hide Written, PartBytes, PartValue, CanonicalBytes, Describe, Emitted, PartName;
    assert (parts + [part])[..|parts|] == parts;
    AppendDescriptor(sha, digest, parts, part);
    if Emitted(digest, parts) { AppendEmitted(digest, parts, part); }
  }

  lemma AppendDescriptor(sha: Hash, digest: Value, parts: seq<Part>, part: Part)
    ensures Descriptors(sha, digest, parts + [part]) == Descriptors(sha, digest, parts) + [Describe(sha, digest, |parts|, part)]
  {
    hide Describe;
    var all, before := Descriptors(sha, digest, parts + [part]), Descriptors(sha, digest, parts);
    forall k | 0 <= k < |parts|
      ensures all[k] == before[k]
    {
      assert (parts + [part])[k] == parts[k];
    }
  }

  lemma AppendEmitted(digest: Value, parts: seq<Part>, part: Part)
    requires Emitted(digest, parts)
    ensures Emitted(digest, parts + [part]) <==>
      |parts| < MAXIMUM_PARTS && Written(PartValue(digest, part), MAXIMUM_INDEX_BYTES)
      && TotalBytes(digest, parts) + PartBytes(digest, part) <= MAXIMUM_TRANSPORT_BYTES
  {
    hide Written, PartBytes, PartValue;
    var all := parts + [part];
    assert all[..|parts|] == parts;
    assert TotalBytes(digest, all) == TotalBytes(digest, parts) + PartBytes(digest, part);
    assert all[|parts|] == part;
  }

  // -------------------------------------------------------------------- the whole index

  lemma GroupAppend(xs: seq<Item>, x: Item, source: string)
    ensures Group(xs + [x], source) == if SourceOf(x) == source then Group(xs, source) + [x] else Group(xs, source)
  {
    hide SourceOf;
    assert (xs + [x])[..|xs|] == xs;
    assert Group(xs, source) + [] == Group(xs, source);
  }

  lemma {:induction false} UnmetGroup(xs: seq<Item>, source: string)
    requires source !in SourcesOf(xs)
    ensures Group(xs, source) == []
  {
    hide SourceOf;
    if xs != [] {
      var n := |xs| - 1;
      assert SourcesOf(xs)[n] == SourceOf(xs[n]);
      assert SourcesOf(xs[..n]) == SourcesOf(xs)[..n];
      UnmetGroup(xs[..n], source);
    }
  }

  lemma MeasuredAppend(xs: seq<Item>, x: Item)
    ensures Measured(xs + [x]) == Measured(xs) + [Sized(x, Cost(PairValue(x)))] && Measured([]) == []
  {
    hide Cost, PairValue;
  }

  lemma MetAppend(xs: seq<Item>, x: Item)
    ensures forall s :: s in SourcesOf(xs + [x]) <==> s in SourcesOf(xs) || s == SourceOf(x)
  {
    hide SourceOf;
    assert SourcesOf(xs + [x]) == SourcesOf(xs) + [SourceOf(x)];
  }

  type Groups = map<string, seq<Sized>>

  ghost predicate Grouped(groups: Groups, xs: seq<Item>) {
    && (forall s :: s in groups <==> s in SourcesOf(xs))
    && (forall s :: s in groups ==> groups[s] == Measured(Group(xs, s)))
  }

  /** `groups.setdefault(source, []).append(...)`. */
  lemma GroupedAppend(groups: Groups, xs: seq<Item>, x: Item)
    requires Grouped(groups, xs)
    ensures var s := SourceOf(x);
      Grouped(groups[s := (if s in groups then groups[s] else []) + [Sized(x, Cost(PairValue(x)))]], xs + [x])
  {
    hide SourceOf, Cost, PairValue, Group, Measured, SourcesOf;
    var source := SourceOf(x);
    MetAppend(xs, x);
    MeasuredAppend(Group(xs, source), x);
    if source !in groups { UnmetGroup(xs, source); }
    forall s
      ensures Group(xs + [x], s) == if source == s then Group(xs, s) + [x] else Group(xs, s)
    {
      GroupAppend(xs, x, s);
    }
    MeasuredAppend([], x);
  }

  lemma PairBytesAppend(xs: seq<Item>, x: Item)
    ensures PairBytes(xs + [x]) == PairBytes(xs) + Cost(PairValue(x))
  {
    hide Cost, PairValue;
    assert (xs + [x])[..|xs|] == xs;
  }

  lemma {:induction false} PairBytesGrow(xs: seq<Item>, n: nat)
    requires n <= |xs|
    ensures PairBytes(xs[..n]) <= PairBytes(xs)
    decreases |xs| - n
  {
    if n < |xs| {
      assert xs[..n + 1] == xs[..n] + [xs[n]];
      PairBytesAppend(xs[..n], xs[n]);
      PairBytesGrow(xs, n + 1);
    } else {
      assert xs[..n] == xs;
    }
  }

  /** The first pass: every fact is measured and filed under its source. */
  method GroupFacts(index: Index) returns (r: Option<Groups>)
    ensures var xs := AllItems(index.observed);
      r.Some? == ((forall i :: 0 <= i < |xs| ==> Placeable(index.fields, xs[i])) && PairBytes(xs) <= MAXIMUM_TRANSPORT_BYTES)
    ensures r.Some? ==> Grouped(r.value, AllItems(index.observed))
  {
    hide Cost, PairValue, Sourced, Admissible, CanonicalText, Utf8, AllItems, Group, Grouped, PairBytes, SourcesOf, RecordSource;
    var xs := AllItems(index.observed);
    var groups: Groups := map[];
    var recordBytes := 0;
    NothingGrouped();
    for i := 0 to |xs|
      invariant Grouped(groups, xs[..i])
      invariant recordBytes == PairBytes(xs[..i]) <= MAXIMUM_TRANSPORT_BYTES
      invariant forall k :: 0 <= k < i ==> Placeable(index.fields, xs[k])
    {
      var x := xs[i];
      assert xs[..i + 1] == xs[..i] + [x];
      PairBytesAppend(xs[..i], x);
      PairBytesGrow(xs, i + 1);
      GroupedAppend(groups, xs[..i], x);
      if !Sourced(index.fields, x) {
        return None;
      }
      var source := SourceOf(x);
      var text := Canonical.Canonical(PairValue(x), MAXIMUM_INDEX_BYTES);
      if text.None? {
        return None;
      }
      TextLength(PairValue(x));
      var size := |Utf8(text.value)| - 1;
      if size >= MAXIMUM_INDEX_BYTES {
        return None;
      }
      recordBytes := recordBytes + size;
      if recordBytes > MAXIMUM_TRANSPORT_BYTES {
        return None;
      }
      groups := groups[source := (if source in groups then groups[source] else []) + [Sized(x, size)]];
    }
    assert xs[..|xs|] == xs;
    return Some(groups);
  }

  lemma NothingGrouped()
    ensures Grouped(map[], []) && PairBytes([]) == 0
  {}

  /** The second pass: the parts of all sources, in the order of the sources. */
  method EmitSources(sha: Hash, index: Index, groups: Groups) returns (writer: Writer, ok: bool)
    requires Grouped(groups, AllItems(index.observed))
    ensures fresh(writer) && writer.sha == sha && writer.digest == InputDigest(index.fields)
    ensures var xs := AllItems(index.observed);
      var packed := PackSources(index.fields, SortedSet(SourcesOf(xs)), xs);
      ok == (packed.Some? && Emitted(InputDigest(index.fields), packed.value))
      && (ok ==> writer.Valid() && writer.parts == packed.value)
  {
    hide Cost, Admissible, AllItems, Group, Emitted, PartFiles, TotalBytes, Descriptors, PackSources, PartValue, Lookup,
         SourcesOf, SortedSet, Pack, Measured;
    ghost var xs := AllItems(index.observed);
    var sources := SortedSet(SourcesOf(AllItems(index.observed)));
    SortedSetIs(SourcesOf(xs));
    writer := new Writer(sha, InputDigest(index.fields));
    ghost var packed := PackSources(index.fields, sources, xs);
    assert sources[0..] == sources;
    PrependTwice([], [], packed);
    for k := 0 to |sources|
      invariant writer.Valid() && fresh(writer) && writer.sha == sha && writer.digest == InputDigest(index.fields)
      invariant packed == Prepend(writer.parts, PackSources(index.fields, sources[k..], xs))
    {
      assert sources[k] in sources;
      ghost var before := writer.parts;
      ghost var first := Pack(writer.digest, sources[k], [], Group(xs, sources[k]));
      ghost var rest := PackSources(index.fields, sources[k + 1..], xs);
      PackSourcesStep(index.fields, sources, xs, k);
      if Lookup(index.fields, "source_input_digest").None? {
        return writer, false;
      }
      ok := writer.EmitSource(sources[k], groups[sources[k]], Group(xs, sources[k]));
      if !ok {
        if packed.Some? { RefusedSource(writer.digest, before, first.value, rest); }
        return;
      }
      PrependTwice(before, first.value, rest);
    }
    NoSources(index.fields, xs, writer.parts);
    assert sources[|sources|..] == [];
    ok := true;
  }

  lemma RefusedSource(digest: Value, before: seq<Part>, first: seq<Part>, rest: Option<seq<Part>>)
    requires rest.Some? && !Emitted(digest, before + first)
    ensures !Emitted(digest, before + (first + rest.value))
  {
    hide Emitted;
    assert before + (first + rest.value) == before + first + rest.value;
    if Emitted(digest, before + (first + rest.value)) { EmittedPrefix(digest, before + first, rest.value); }
  }

  /** `render_transport`. */
  method RenderTransport(sha: Hash, index: Index) returns (r: Option<Files>)
    ensures r == Render(sha, index)
  {
    hide Cost, Admissible, CanonicalText, Utf8, AllItems, Emitted, PartFiles, TotalBytes, Descriptors, PackSources,
         PairBytes, SourcesOf, SortedSet, IndexValue, ManifestValue, ManifestRecord, Sourced, PairValue, Grouped;
    if |AllItems(index.observed)| > MAXIMUM_RECORDS {
      return None;
    }
    var groups := GroupFacts(index);
    if groups.None? {
      return None;
    }
    var writer, ok := EmitSources(sha, index, groups.value);
    if !ok {
      return None;
    }
    var logical := Canonical.Canonical(IndexValue(index), MAXIMUM_TRANSPORT_BYTES);
    if logical.None? {
      return None;
    }
    var manifest := ManifestRecord(index, sha(Utf8(logical.value)), writer.descriptors);
    ManifestIs(sha, index, writer.parts);
    var content := Canonical.Canonical(manifest, MAXIMUM_INDEX_BYTES);
    if content.None? {
      return None;
    }
    TextLength(manifest);
    var size := |Utf8(content.value)|;
    if size > MAXIMUM_INDEX_BYTES || writer.total + size > MAXIMUM_TRANSPORT_BYTES {
      return None;
    }
    return Some(writer.outputs[MANIFEST_FILE := Utf8(content.value)]);
  }

  function ManifestRecord(index: Index, logical: string, ds: seq<Descriptor>): Value {
    Dict([Entry("schema", Str(TRANSPORT_VERSION)), Entry("index", Dict(index.fields)),
          Entry("counts", CountsValue(CountsOf(index.observed))),
          Entry("logical_sha256", Str(logical)),
          Entry("parts", List(DescriptorValues(ds)))])
  }

  lemma ManifestIs(sha: Hash, index: Index, parts: seq<Part>)
    ensures ManifestValue(sha, index, parts)
         == ManifestRecord(index, sha(Utf8(CanonicalText(IndexValue(index)) + "\n")), Descriptors(sha, InputDigest(index.fields), parts))
  {}

  lemma NoSources(fields: seq<Entry>, xs: seq<Item>, parts: seq<Part>)
    ensures Prepend(parts, PackSources(fields, [], xs)) == Some(parts)
  {
    assert parts + [] == parts;
  }

  lemma PackSourcesStep(fields: seq<Entry>, sources: seq<string>, xs: seq<Item>, k: nat)
    requires k < |sources|
    ensures var digest := InputDigest(fields);
      var first := Pack(digest, sources[k], [], Group(xs, sources[k]));
      PackSources(fields, sources[k..], xs)
      == if Lookup(fields, "source_input_digest").Some?
            && Written(PartValue(digest, Part(sources[k], [])), MAXIMUM_TRANSPORT_BYTES) && first.Some?
         then Prepend(first.value, PackSources(fields, sources[k + 1..], xs)) else None
  {
    hide Written, Pack, Lookup, Group, PartValue;
    assert sources[k..][1..] == sources[k + 1..];
  }
}
