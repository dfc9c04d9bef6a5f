/** What is written is what is read: the reader restores exactly the index whose files it is given. */
module TransportRoundTrip {
  import opened Text
  import opened Values
  import opened Json
  import opened Canonical
  import opened CanonicalForm
  import opened Projection
  import opened Transport
  import opened TransportReader
  import opened TransportParts

  // ---------------------------------------------------------- reading sorted dictionaries

  lemma FieldSorted(v: Value, key: string)
    requires WellKeyed(v)
    ensures Field(Sorted(v), key) == match Field(v, key) case None => None case Some(w) => Some(Sorted(w))
  {
    hide Lookup, SortedEntries, CodeOrder;
    if v.Dict? { LookupSorted(v.entries, key); }
  }

  lemma ExactlySorted(v: Value, keys: seq<string>)
    requires WellKeyed(v) && HasExactly(v, keys)
    ensures HasExactly(Sorted(v), keys)
  {
    hide Lookup, SortedEntries, CodeOrder;
    SortedDictMembers(v.entries);
    forall e | e in SortedDict(v.entries)
      ensures e.key in keys
    {
      var i :| 0 <= i < |v.entries| && EachSorted(v.entries)[i] == e;
      assert v.entries[i] in v.entries;
    }
    forall key | key in keys
      ensures Lookup(SortedDict(v.entries), key).Some?
    {
      LookupSorted(v.entries, key);
    }
  }

  lemma CanonicalSorted(v: Value, maximum: int)
    requires WellKeyed(v)
    ensures Written(Sorted(v), maximum) <==> Written(v, maximum)
    ensures CanonicalBytes(Sorted(v)) == CanonicalBytes(v)
  {
    hide Dumps, Utf8, Admissible, Sorted;
    SortedTwice(v);
    AdmissionSorted(v, 0);
  }

  /** A file of canonical bytes gives the reader the value with its keys sorted, and passes as canonical. */
  lemma FileReadsBack(loads: Loads, dir: Files, name: string, v: Value, maximum: int)
    requires Reads(loads) && WellKeyed(v) && name in dir && dir[name] == CanonicalBytes(v)
    requires Written(v, MAXIMUM_TRANSPORT_BYTES) && |dir[name]| <= maximum
    ensures ReadFile(loads, dir, name, maximum) == Some((dir[name], Sorted(v)))
    ensures IsCanonical(Sorted(v), dir[name])
  {
    hide CanonicalBytes, Admissible, Sorted;
    ReadsBack(loads, v);
    CanonicalSorted(v, MAXIMUM_TRANSPORT_BYTES);
  }

  // ------------------------------------------------------------------- the literal shapes

  lemma FamilyFields(values: Each<Value>)
    ensures DistinctKeys(FamilyEntries(values)) && HasExactly(Dict(FamilyEntries(values)), FAMILY_KEYS)
    ensures forall f :: Field(Dict(FamilyEntries(values)), FAMILY_KEYS[Position(f)]) == Some(values.Of(f))
  {
    hide Lookup;
    assert |"symbols"| == 7 && |"edges"| == 5 && |"tests"| == 5 && "edges"[0] != "tests"[0];
    var es := FamilyEntries(values);
    forall f: Family
      ensures Lookup(es, FAMILY_KEYS[Position(f)]) == Some(values.Of(f))
    {
      assert es[Position(f)] == Entry(FAMILY_KEYS[Position(f)], values.Of(f));
      LookupUnique(es, es[Position(f)]);
    }
    assert FAMILY_KEYS[Position(Symbols)] == "symbols" && FAMILY_KEYS[Position(Edges)] == "edges" && FAMILY_KEYS[Position(Tests)] == "tests";
  }

  /** The fields of a dictionary that is written out key by key. */
  lemma Fields(es: seq<Entry>, keys: seq<string>)
    requires |es| == |keys| && forall i :: 0 <= i < |es| ==> es[i].key == keys[i]
    requires forall i, j :: 0 <= i < j < |keys| ==> keys[i] != keys[j]
    ensures DistinctKeys(es) && HasExactly(Dict(es), keys)
    ensures forall i :: 0 <= i < |es| ==> Field(Dict(es), keys[i]) == Some(es[i].value)
  {
    hide Lookup;
    forall i | 0 <= i < |es|
      ensures Lookup(es, keys[i]) == Some(es[i].value)
    {
      LookupUnique(es, es[i]);
    }
  }

  const PART_KEYS := ["schema", "source_input_digest", "source_path", "observed"]
  const DESCRIPTOR_KEYS := ["file", "source_path", "bytes", "sha256", "counts"]
  const MANIFEST_KEYS := ["schema", "index", "counts", "logical_sha256", "parts"]

  lemma KeysAreDistinct()
    ensures forall i, j :: 0 <= i < j < |PART_KEYS| ==> PART_KEYS[i] != PART_KEYS[j]
    ensures forall i, j :: 0 <= i < j < |DESCRIPTOR_KEYS| ==> DESCRIPTOR_KEYS[i] != DESCRIPTOR_KEYS[j]
    ensures forall i, j :: 0 <= i < j < |MANIFEST_KEYS| ==> MANIFEST_KEYS[i] != MANIFEST_KEYS[j]
  {
    assert |"schema"| == 6 && |"source_input_digest"| == 19 && |"source_path"| == 11 && |"observed"| == 8;
    assert |"file"| == 4 && |"bytes"| == 5 && |"sha256"| == 6 && |"counts"| == 6 && "sha256"[0] != "counts"[0];
    assert |"index"| == 5 && |"logical_sha256"| == 14 && |"parts"| == 5;
    assert "schema"[0] != "counts"[0] && "index"[0] != "parts"[0];
  }

  lemma CountsReadBack(c: Each<nat>)
    requires c.symbols + c.edges + c.tests <= MAXIMUM_RECORDS
    ensures WellKeyed(CountsValue(c)) && ReadCounts(Sorted(CountsValue(c))) == Some(c)
  {
    hide Lookup, Sorted, HasExactly;
    var values := Each(Int(c.symbols), Int(c.edges), Int(c.tests));
    FamilyFields(values);
    var v := CountsValue(c);
    assert WellKeyed(v);
    ExactlySorted(v, FAMILY_KEYS);
    forall f: Family
      ensures Field(Sorted(v), FAMILY_KEYS[Position(f)]) == Some(values.Of(f))
    {
      FieldSorted(v, FAMILY_KEYS[Position(f)]);
      ScalarSorted(values.Of(f));
    }
    assert FAMILY_KEYS[Position(Symbols)] == "symbols" && FAMILY_KEYS[Position(Edges)] == "edges" && FAMILY_KEYS[Position(Tests)] == "tests";
  }

  lemma ScalarSorted(v: Value)
    requires v.Int? || v.Str?
    ensures Sorted(v) == v && WellKeyed(v)
  {}

  lemma SourceSorted(f: Family, record: Value)
    requires WellKeyed(record)
    ensures RecordSource(f, Sorted(record)) == RecordSource(f, record)
  {
    hide Lookup, BeforeScope;
    FieldSorted(record, "source");
    FieldSorted(record, "path");
  }

  lemma InputSorted(fields: seq<Entry>, source: string)
    requires WellKeyed(Dict(fields))
    ensures IsInput(SortedDict(fields), source) == IsInput(fields, source)
  {
    hide Lookup, SortedEntries, CodeOrder, WellKeyed;
    LookupSorted(fields, "inputs") by { DictKeys(fields); }
    if Lookup(fields, "inputs").Some? {
      FieldIsWellKeyed(fields, "inputs");
      FieldSorted(Lookup(fields, "inputs").value, source);
    }
  }

  lemma DictKeys(es: seq<Entry>)
    requires WellKeyed(Dict(es))
    ensures DistinctKeys(es)
  {}

  lemma FieldIsWellKeyed(es: seq<Entry>, key: string)
    requires WellKeyed(Dict(es)) && Lookup(es, key).Some?
    ensures WellKeyed(Lookup(es, key).value)
  {
    hide Lookup;
    LookupFinds(es, key);
    var i :| 0 <= i < |es| && es[i] == Entry(key, Lookup(es, key).value);
  }

  // ------------------------------------------------------------------------ descriptors

  lemma DescriptorReadsBack(fields: seq<Entry>, ordinal: nat, d: Descriptor)
    requires d.file == PartName(ordinal) && IsInput(fields, d.source) && IsDigest(d.sha)
    requires 0 < d.bytes <= MAXIMUM_INDEX_BYTES && d.counts.symbols + d.counts.edges + d.counts.tests <= MAXIMUM_RECORDS
    ensures WellKeyed(DescriptorValue(d)) && ReadDescriptor(fields, ordinal, Sorted(DescriptorValue(d))) == Some(d)
  {
    hide Lookup, Sorted, HasExactly, PartName, IsInput, CountsValue, ReadCounts, IsDigest;
    var v := DescriptorValue(d);
    KeysAreDistinct();
    Fields(v.entries, DESCRIPTOR_KEYS);
    CountsReadBack(d.counts);
    assert WellKeyed(v);
    ExactlySorted(v, DESCRIPTOR_KEYS);
    forall i | 0 <= i < 5
      ensures Field(Sorted(v), DESCRIPTOR_KEYS[i]) == Some(Sorted(v.entries[i].value))
    {
      FieldSorted(v, DESCRIPTOR_KEYS[i]);
    }
    ScalarSorted(Str(d.file));
    ScalarSorted(Str(d.source));
    ScalarSorted(Int(d.bytes));
    ScalarSorted(Str(d.sha));
    assert DESCRIPTOR_KEYS[0] == "file" && DESCRIPTOR_KEYS[1] == "source_path" && DESCRIPTOR_KEYS[2] == "bytes"
        && DESCRIPTOR_KEYS[3] == "sha256" && DESCRIPTOR_KEYS[4] == "counts";
    assert Sorted(v).Dict? by { DictStaysDict(v.entries); }
  }

  lemma DictStaysDict(es: seq<Entry>)
    ensures Sorted(Dict(es)) == Dict(SortedDict(es))
  {}

  ghost predicate ReadsBackAll(fields: seq<Entry>, ds: seq<Descriptor>) {
    forall k :: 0 <= k < |ds| ==> WellKeyed(DescriptorValue(ds[k])) && ReadDescriptor(fields, k, Sorted(DescriptorValue(ds[k]))) == Some(ds[k])
  }

  lemma {:induction false} DescriptorsReadBack(fields: seq<Entry>, ds: seq<Descriptor>, n: nat)
    requires n <= |ds| && ReadsBackAll(fields, ds)
    ensures ReadDescriptors(fields, SortedItems(DescriptorValues(ds))[..n]) == Some(ds[..n])
    decreases n
  {
    hide ReadDescriptor, DescriptorValue, Sorted, SortedItems, WellKeyed;
    if n > 0 {
      DescriptorsReadBack(fields, ds, n - 1);
      SortedItemsAt(DescriptorValues(ds), n - 1);
      assert SortedItems(DescriptorValues(ds))[..n][..n - 1] == SortedItems(DescriptorValues(ds))[..n - 1];
      assert ds[..n] == ds[..n - 1] + [ds[n - 1]];
    }
  }

  // ------------------------------------------------------------------------------ slots

  /** The slots hold the given facts, each at its place, and nothing else. */
  ghost predicate Filled(slots: Slots, counts: Each<nat>, ys: seq<Item>) {
    && (forall f :: |slots.Of(f)| == counts.Of(f))
    && (forall f, o :: 0 <= o < counts.Of(f) ==> (slots.Of(f)[o].None? <==> Count(ys, At(f, o)) == 0))
    && (forall x :: x in ys ==> x.ordinal < counts.Of(x.family) && slots.Of(x.family)[x.ordinal] == Some(Sorted(x.record)))
  }

  lemma PairSorted(x: Item)
    ensures Sorted(PairValue(x)) == List([Int(x.ordinal), Sorted(x.record)])
  {
    hide Sorted;
    var items := [Int(x.ordinal), x.record];
    SortedItemsAt(items, 0);
    SortedItemsAt(items, 1);
    ScalarSorted(Int(x.ordinal));
    assert SortedItems(items) == [Int(x.ordinal), Sorted(x.record)];
    ListStaysList(items);
  }

  lemma ListStaysList(items: seq<Value>)
    ensures Sorted(List(items)) == List(SortedItems(items))
  {}

  lemma FillOne(source: string, slots: Slots, counts: Each<nat>, ys: seq<Item>, x: Item)
    requires Filled(slots, counts, ys) && x.ordinal < counts.Of(x.family) && Count(ys, At(x.family, x.ordinal)) == 0
    requires WellKeyed(x.record) && RecordSource(x.family, x.record) == Some(source)
    ensures FillPair(source, x.family, slots, Sorted(PairValue(x))).Some?
    ensures Filled(FillPair(source, x.family, slots, Sorted(PairValue(x))).value, counts, ys + [x])
  {
    hide Sorted, Count, RecordSource, PairValue;
    PairSorted(x);
    SourceSorted(x.family, x.record);
    var after := FillPair(source, x.family, slots, Sorted(PairValue(x))).value;
    assert after.Of(x.family) == slots.Of(x.family)[x.ordinal := Some(Sorted(x.record))];
    forall f, o | 0 <= o < counts.Of(f)
      ensures after.Of(f)[o].None? <==> Count(ys + [x], At(f, o)) == 0
    {
      CountAppend(ys, x, At(f, o));
    }
    forall y | y in ys
      ensures !(y.family == x.family && y.ordinal == x.ordinal)
    {
      if y.family == x.family && y.ordinal == x.ordinal { CountMember(ys, y, At(x.family, x.ordinal)); }
    }
  }

  /** Facts that may still be placed: no place is named twice. */
  ghost predicate Placeables(source: string, counts: Each<nat>, ys: seq<Item>, zs: seq<Item>) {
    && (forall f, o :: Count(ys + zs, At(f, o)) <= 1)
    && (forall z :: z in zs ==> z.ordinal < counts.Of(z.family) && WellKeyed(z.record) && RecordSource(z.family, z.record) == Some(source))
  }

  lemma {:induction false} FillMany(source: string, f: Family, slots: Slots, counts: Each<nat>, ys: seq<Item>, zs: seq<Item>, n: nat)
    requires n <= |zs| && Filled(slots, counts, ys) && Placeables(source, counts, ys, zs)
    requires forall z :: z in zs ==> z.family == f
    ensures var r := FillPairs(source, f, slots, SortedItems(Pairs(zs))[..n]);
      r.Some? && Filled(r.value, counts, ys + zs[..n])
    decreases n
  {
    hide Sorted, SortedItems, Count, RecordSource, PairValue, FillPair, Filled, WellKeyed;
    var vs := SortedItems(Pairs(zs));
    if n == 0 {
      assert ys + zs[..0] == ys;
    } else {
      var x := zs[n - 1];
      FillMany(source, f, slots, counts, ys, zs, n - 1);
      var before := FillPairs(source, f, slots, vs[..n - 1]).value;
      SortedItemsAt(Pairs(zs), n - 1);
      assert vs[..n][..n - 1] == vs[..n - 1];
      assert ys + zs[..n - 1] + [x] == ys + zs[..n];
      assert ys + zs == ys + zs[..n] + zs[n..];
      CountConcat(ys + zs[..n], zs[n..], At(x.family, x.ordinal));
      CountAppend(ys + zs[..n - 1], x, At(x.family, x.ordinal));
      FillOne(source, before, counts, ys + zs[..n - 1], x);
    }
  }

  lemma OnlyMembers(xs: seq<Item>, f: Family)
    ensures forall x :: x in Only(xs, f) <==> x in xs && x.family == f
  {
    if xs != [] {
      var n := |xs| - 1;
      assert xs == xs[..n] + [xs[n]];
      OnlyMembers(xs[..n], f);
    }
  }

  lemma {:induction false} OnlyCount(xs: seq<Item>, f: Family, t: Test)
    ensures Count(Only(xs, f), t) == if t.f == f then Count(xs, t) else 0
  {
    hide Only, Count, Pairs;
    if xs == [] {
      OnlyNothing(f, t);
    } else {
      var n := |xs| - 1;
      assert xs == xs[..n] + [xs[n]];
      OnlyCount(xs[..n], f, t);
      CountAppend(xs[..n], xs[n], t);
      OnlyAppend(xs[..n], xs[n], f);
      if xs[n].family == f {
        CountAppend(Only(xs[..n], f), xs[n], t);
      } else {
        assert Only(xs[..n], f) + [] == Only(xs[..n], f);
      }
    }
  }

  lemma OnlyNothing(f: Family, t: Test)
    ensures Count(Only([], f), t) == 0 == Count([], t)
  {}

  /** The order in which the reader meets the facts of a part. */
  function ReadOrder(xs: seq<Item>): seq<Item> {
    Only(xs, Symbols) + Only(xs, Edges) + Only(xs, Tests)
  }

  lemma ReadOrderKeeps(xs: seq<Item>, t: Test)
    ensures Count(ReadOrder(xs), t) == Count(xs, t)
    ensures forall x :: x in ReadOrder(xs) <==> x in xs
  {
    hide Count, Only;
    OnlyMembers(xs, Symbols);
    OnlyMembers(xs, Edges);
    OnlyMembers(xs, Tests);
    OnlyCount(xs, Symbols, t);
    OnlyCount(xs, Edges, t);
    OnlyCount(xs, Tests, t);
    CountConcat(Only(xs, Symbols), Only(xs, Edges), t);
    CountConcat(Only(xs, Symbols) + Only(xs, Edges), Only(xs, Tests), t);
    forall x
      ensures x in ReadOrder(xs) <==> x in xs
    {
      match x.family case Symbols => case Edges => case Tests =>
    }
  }

  // --------------------------------------------------------------------------- one part

  lemma PlaceablesSplit(source: string, counts: Each<nat>, ys: seq<Item>, a: seq<Item>, b: seq<Item>)
    requires Placeables(source, counts, ys, a + b)
    ensures Placeables(source, counts, ys, a) && Placeables(source, counts, ys + a, b)
  {
    hide Count, RecordSource, WellKeyed;
    assert ys + (a + b) == ys + a + b;
    forall f, o
      ensures Count(ys + a, At(f, o)) <= 1 && Count(ys + a + b, At(f, o)) <= 1
    {
      CountConcat(ys + a, b, At(f, o));
    }
  }

  lemma PairsWellKeyed(items: seq<Item>)
    requires forall x :: x in items ==> WellKeyed(x.record)
    ensures WellKeyed(ObservedValue(PairsOf(items)))
  {
    OnlyMembers(items, Symbols);
    OnlyMembers(items, Edges);
    OnlyMembers(items, Tests);
    assert WellKeyed(List(PairsOf(items).symbols)) by { PairListWellKeyed(Only(items, Symbols)); }
    assert WellKeyed(List(PairsOf(items).edges)) by { PairListWellKeyed(Only(items, Edges)); }
    assert WellKeyed(List(PairsOf(items).tests)) by { PairListWellKeyed(Only(items, Tests)); }
    hide WellKeyed, Lookup;
    var values := Each(List(PairsOf(items).symbols), List(PairsOf(items).edges), List(PairsOf(items).tests));
    FamilyFields(values);
    DictWellKeyed(FamilyEntries(values));
  }

  lemma DictWellKeyed(es: seq<Entry>)
    requires DistinctKeys(es) && forall e :: e in es ==> WellKeyed(e.value)
    ensures WellKeyed(Dict(es))
  {}

  lemma PairListWellKeyed(items: seq<Item>)
    requires forall x :: x in items ==> WellKeyed(x.record)
    ensures WellKeyed(List(Pairs(items)))
  {
    forall i | 0 <= i < |items|
      ensures WellKeyed(PairValue(items[i]))
    {
      assert items[i] in items;
    }
  }

  lemma PartWellKeyed(digest: Value, p: Part)
    requires WellKeyed(digest) && forall x :: x in p.items ==> WellKeyed(x.record)
    ensures WellKeyed(PartValue(digest, p))
  {
    hide Lookup, PairsOf;
    PairsWellKeyed(p.items);
    KeysAreDistinct();
    hide WellKeyed;
    ScalarSorted(Str(PART_VERSION));
    ScalarSorted(Str(p.source));
    Fields(PartValue(digest, p).entries, PART_KEYS);
    DictWellKeyed(PartValue(digest, p).entries);
  }

  /** A part's file passes every check of its identity and gives back its arrays of pairs. */
  lemma PartIsAdmitted(sha: Hash, loads: Loads, dir: Files, m: Admitted, digest: Value, k: nat, p: Part)
    requires Reads(loads) && WellKeyed(PartValue(digest, p)) && Written(PartValue(digest, p), MAXIMUM_INDEX_BYTES)
    requires WellKeyed(ObservedValue(PairsOf(p.items)))
    requires PartName(k) in dir && dir[PartName(k)] == CanonicalBytes(PartValue(digest, p))
    requires Lookup(m.fields, "source_input_digest") == Some(Sorted(digest))
    ensures AdmitPart(sha, loads, dir, m, Describe(sha, digest, k, p)) == Some(Sorted(ObservedValue(PairsOf(p.items))))
  {
    hide Lookup, Sorted, HasExactly, PartName, PairsOf, CanonicalBytes, ObservedValue, IsCanonical, Admissible, Cost, WellKeyed, ReadFile, PartValue;
    var v := PartValue(digest, p);
    var d := Describe(sha, digest, k, p);
    CanonicalLength(v);
    FileReadsBack(loads, dir, PartName(k), v, d.bytes);
    PartFields(digest, p);
    ObservedIsExact(PairsOf(p.items));
  }

  lemma PartFields(digest: Value, p: Part)
    requires WellKeyed(PartValue(digest, p))
    ensures var v := Sorted(PartValue(digest, p));
      && v.Dict? && HasExactly(v, PART_KEYS)
      && Field(v, "schema") == Some(Str(PART_VERSION)) && Field(v, "source_input_digest") == Some(Sorted(digest))
      && Field(v, "source_path") == Some(Str(p.source)) && Field(v, "observed") == Some(Sorted(ObservedValue(PairsOf(p.items))))
  {
    hide Lookup, Sorted, HasExactly, PairsOf, ObservedValue, WellKeyed;
    var v := PartValue(digest, p);
    KeysAreDistinct();
    Fields(v.entries, PART_KEYS);
    ExactlySorted(v, PART_KEYS);
    forall i | 0 <= i < 4
      ensures Field(Sorted(v), PART_KEYS[i]) == Some(Sorted(v.entries[i].value))
    {
      FieldSorted(v, PART_KEYS[i]);
    }
    ScalarSorted(Str(PART_VERSION));
    ScalarSorted(Str(p.source));
    assert PART_KEYS[0] == "schema" && PART_KEYS[1] == "source_input_digest" && PART_KEYS[2] == "source_path" && PART_KEYS[3] == "observed";
    DictStaysDict(v.entries);
  }

  lemma ObservedIsExact(o: Each<seq<Value>>)
    requires WellKeyed(ObservedValue(o))
    ensures HasExactly(Sorted(ObservedValue(o)), FAMILY_KEYS)
    ensures forall f :: Field(Sorted(ObservedValue(o)), FAMILY_KEYS[Position(f)]) == Some(List(SortedItems(o.Of(f))))
  {
    hide Lookup, Sorted, HasExactly, WellKeyed, SortedItems;
    FamilyFields(Each(List(o.symbols), List(o.edges), List(o.tests)));
    ExactlySorted(ObservedValue(o), FAMILY_KEYS);
    forall f: Family
      ensures Field(Sorted(ObservedValue(o)), FAMILY_KEYS[Position(f)]) == Some(List(SortedItems(o.Of(f))))
    {
      FieldSorted(ObservedValue(o), FAMILY_KEYS[Position(f)]);
      ListStaysList(o.Of(f));
    }
  }

  lemma FamilyFills(o: Each<seq<Value>>, d: Descriptor, f: Family, slots: Slots, counts: Each<nat>, ys: seq<Item>, items: seq<Item>)
    requires o == PairsOf(items) && WellKeyed(ObservedValue(o)) && d.counts == CountsOf(o)
    requires Filled(slots, counts, ys) && Placeables(d.source, counts, ys, Only(items, f))
    ensures FillFamily(Sorted(ObservedValue(o)), d, f, slots).Some?
    ensures Filled(FillFamily(Sorted(ObservedValue(o)), d, f, slots).value, counts, ys + Only(items, f))
  {
    hide Lookup, Sorted, HasExactly, WellKeyed, SortedItems, Filled, Placeables, Only, FillPairs, Field;
    ObservedIsExact(o);
    var zs := Only(items, f);
    OnlyMembers(items, f);
    FillMany(d.source, f, slots, counts, ys, zs, |zs|);
    assert o.Of(f) == Pairs(zs) by { match f case Symbols => case Edges => case Tests => }
    assert SortedItems(Pairs(zs))[..|zs|] == SortedItems(Pairs(zs)) && zs[..|zs|] == zs;
  }

  /** One part: its facts go to their places, which were empty. */
  lemma PartFills(sha: Hash, loads: Loads, dir: Files, m: Admitted, digest: Value, k: nat, p: Part, slots: Slots, ys: seq<Item>)
    requires AdmitPart(sha, loads, dir, m, Describe(sha, digest, k, p)) == Some(Sorted(ObservedValue(PairsOf(p.items))))
    requires WellKeyed(ObservedValue(PairsOf(p.items)))
    requires Filled(slots, m.counts, ys) && Placeables(p.source, m.counts, ys, ReadOrder(p.items))
    ensures FillPart(sha, loads, dir, m, Describe(sha, digest, k, p), slots).Some?
    ensures Filled(FillPart(sha, loads, dir, m, Describe(sha, digest, k, p), slots).value, m.counts, ys + ReadOrder(p.items))
  {
    hide AdmitPart, Sorted, WellKeyed, Filled, Placeables, Only, FillFamily, PairsOf, ObservedValue, PartBytes, CanonicalBytes, PartName;
    var d, o := Describe(sha, digest, k, p), PairsOf(p.items);
    var observed := Sorted(ObservedValue(o));
    var a, b, c := Only(p.items, Symbols), Only(p.items, Edges), Only(p.items, Tests);
    PlaceablesSplit(p.source, m.counts, ys, a + b, c);
    PlaceablesSplit(p.source, m.counts, ys, a, b);
    FamilyFills(o, d, Symbols, slots, m.counts, ys, p.items);
    var one := FillFamily(observed, d, Symbols, slots).value;
    FamilyFills(o, d, Edges, one, m.counts, ys + a, p.items);
    var two := FillFamily(observed, d, Edges, one).value;
    assert ys + a + b == ys + (a + b);
    FamilyFills(o, d, Tests, two, m.counts, ys + a + b, p.items);
    assert ys + a + b + c == ys + ReadOrder(p.items);
  }
}
