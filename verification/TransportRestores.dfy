/** The round trip of a whole index through its files. */
module TransportRestores {
  import opened Text
  import opened Values
  import opened Json
  import opened Canonical
  import opened CanonicalForm
  import opened Projection
  import opened Transport
  import opened TransportReader
  import opened TransportParts
  import opened TransportRoundTrip

  // -------------------------------------------------------------------------- all parts

  /** All facts in the order the reader meets them. */
  function ReadAll(parts: seq<Part>): seq<Item> {
    if parts == [] then [] else ReadAll(parts[..|parts| - 1]) + ReadOrder(parts[|parts| - 1].items)
  }

  lemma FlattenLast(parts: seq<Part>)
    requires parts != []
    ensures Flatten(parts) == Flatten(parts[..|parts| - 1]) + parts[|parts| - 1].items
  {
    var n := |parts| - 1;
    assert parts == parts[..n] + [parts[n]];
    FlattenConcat(parts[..n], [parts[n]]);
    assert [parts[n]][1..] == [];
  }

  lemma {:induction false} ReadAllKeeps(parts: seq<Part>, t: Test)
    ensures Count(ReadAll(parts), t) == Count(Flatten(parts), t)
    ensures forall x :: x in ReadAll(parts) <==> x in Flatten(parts)
  {
    hide Count, Flatten, ReadOrder;
    if parts == [] {
      assert Flatten(parts) == [] by { NothingFlat(); }
    } else {
      var n := |parts| - 1;
      ReadAllKeeps(parts[..n], t);
      ReadOrderKeeps(parts[n].items, t);
      FlattenLast(parts);
      CountConcat(ReadAll(parts[..n]), ReadOrder(parts[n].items), t);
      CountConcat(Flatten(parts[..n]), parts[n].items, t);
    }
  }

  lemma NothingFlat()
    ensures Flatten([]) == []
  {}

  lemma {:induction false} CountOfSome(parts: seq<Part>, n: nat, t: Test)
    requires n <= |parts|
    ensures Count(Flatten(parts[..n]), t) <= Count(Flatten(parts), t)
    ensures n < |parts| ==> Count(parts[n].items, t) <= Count(Flatten(parts), t)
  {
    hide Count, Flatten;
    assert parts == parts[..n] + parts[n..];
    FlattenConcat(parts[..n], parts[n..]);
    CountConcat(Flatten(parts[..n]), Flatten(parts[n..]), t);
    if n < |parts| {
      assert parts[n..] == [parts[n]] + parts[n + 1..];
      FlattenFirst(parts[n..]);
      CountConcat(parts[n].items, Flatten(parts[n + 1..]), t);
    }
  }

  lemma FlattenFirst(parts: seq<Part>)
    requires parts != []
    ensures Flatten(parts) == parts[0].items + Flatten(parts[1..])
  {}

  // ---------------------------------------------------------------------------- the files

  lemma PartNamesDiffer(m: nat, n: nat)
    ensures PartName(m) == PartName(n) <==> m == n
    ensures PartName(n) != MANIFEST_FILE
  {
    var p, q := Pad(Decimal(m), 5), Pad(Decimal(n), 5);
    assert PartName(n)[9] == 'f' && MANIFEST_FILE[9] == 'i';
    if PartName(m) == PartName(n) {
      assert |p| == |q|;
      assert PartName(m)[15..15 + |p|] == p && PartName(n)[15..15 + |q|] == q;
      PadKeepsValue(Decimal(m), 5);
      PadKeepsValue(Decimal(n), 5);
      DecimalValue(m);
      DecimalValue(n);
    }
  }

  lemma {:induction false} PartFilesAre(digest: Value, parts: seq<Part>)
    ensures forall name :: name in PartFiles(digest, parts) <==> exists k :: 0 <= k < |parts| && name == PartName(k)
    ensures forall k :: 0 <= k < |parts| ==> PartName(k) in PartFiles(digest, parts) && PartFiles(digest, parts)[PartName(k)] == CanonicalBytes(PartValue(digest, parts[k]))
  {
    hide PartName, CanonicalBytes, PartValue;
    if parts != [] {
      var n := |parts| - 1;
      PartFilesAre(digest, parts[..n]);
      forall k | 0 <= k < n
        ensures PartName(k) != PartName(n)
      {
        PartNamesDiffer(k, n);
      }
    }
  }

  // --------------------------------------------------------------------------- the totals

  lemma {:induction false} SumOfBytes(sha: Hash, digest: Value, parts: seq<Part>, n: nat)
    requires n <= |parts|
    ensures SumBytes(Descriptors(sha, digest, parts)[..n]) == TotalBytes(digest, parts[..n])
  {
    hide PartBytes, CanonicalBytes, PartName;
    if n > 0 {
      SumOfBytes(sha, digest, parts, n - 1);
      assert Descriptors(sha, digest, parts)[..n][..n - 1] == Descriptors(sha, digest, parts)[..n - 1];
      assert parts[..n][..n - 1] == parts[..n - 1];
    }
  }

  lemma {:induction false} OnlyLength(xs: seq<Item>, f: Family)
    ensures |Only(xs, f)| == Count(xs, Of(f))
  {
    if xs != [] { OnlyLength(xs[..|xs| - 1], f); }
  }

  lemma PartCounts(p: Part, f: Family)
    ensures CountsOf(PairsOf(p.items)).Of(f) == Count(p.items, Of(f))
  {
    hide Count, Only;
    OnlyLength(p.items, f);
  }

  lemma {:induction false} SumOfCounts(sha: Hash, digest: Value, parts: seq<Part>, f: Family)
    ensures SumCounts(Descriptors(sha, digest, parts)).Of(f) == Count(Flatten(parts), Of(f))
  {
    hide PartBytes, CanonicalBytes, PartName, Count, Flatten, PairsOf, CountsOf;
    if parts == [] {
      NothingFlat();
      NothingCounts(Of(f));
    } else {
      var n := |parts| - 1;
      var ds := Descriptors(sha, digest, parts);
      SumOfCounts(sha, digest, parts[..n], f);
      assert ds[..n] == Descriptors(sha, digest, parts[..n]);
      FlattenLast(parts);
      CountConcat(Flatten(parts[..n]), parts[n].items, Of(f));
      PartCounts(parts[n], f);
    }
  }

  // ----------------------------------------------------------------------------- the index

  /** The index the reader gives back: the same facts at the same places, keys in code point order. */
  function Restored(index: Index): Index {
    Index(SortedDict(index.fields),
          Each(SortedItems(index.observed.symbols), SortedItems(index.observed.edges), SortedItems(index.observed.tests)))
  }

  lemma IndexParts(index: Index)
    requires WellKeyed(IndexValue(index))
    ensures WellKeyed(Dict(index.fields)) && DistinctKeys(index.fields) && Lookup(index.fields, "observed").None?
    ensures WellKeyed(ObservedValue(index.observed))
    ensures forall x :: x in AllItems(index.observed) ==> WellKeyed(x.record)
  {
    hide Lookup;
    var es := IndexValue(index).entries;
    var n := |index.fields|;
    assert es[..n] == index.fields && es[n] == Entry("observed", ObservedValue(index.observed));
    forall i | 0 <= i < n
      ensures es[i] == index.fields[i] && es[i].key != "observed"
    {
      assert es[i].key != es[n].key;
    }
    LookupFinds(index.fields, "observed");
    RecordsWellKeyed(index.observed);
  }

  lemma RecordsWellKeyed(o: Each<seq<Value>>)
    requires WellKeyed(ObservedValue(o))
    ensures forall f, i :: 0 <= i < |o.Of(f)| ==> WellKeyed(o.Of(f)[i])
    ensures forall x :: x in AllItems(o) ==> WellKeyed(x.record)
  {
    var es := ObservedValue(o).entries;
    forall f: Family
      ensures WellKeyed(List(o.Of(f)))
    {
      assert es[Position(f)].value == List(o.Of(f));
    }
    forall x | x in AllItems(o)
      ensures WellKeyed(x.record)
    {
      AllItemsAre(o, x);
      assert WellKeyed(List(o.Of(x.family)));
    }
  }

  lemma ItemsTwice(items: seq<Value>)
    requires forall i :: 0 <= i < |items| ==> WellKeyed(items[i])
    ensures Sorted(List(SortedItems(items))) == Sorted(List(items))
    ensures forall i :: 0 <= i < |items| ==> WellKeyed(SortedItems(items)[i])
  {
    hide Sorted, SortedItems, WellKeyed;
    ItemsSortedTwice(items);
    ListStaysList(items);
    ListStaysList(SortedItems(items));
  }

  lemma FamiliesSame(a: Each<Value>, b: Each<Value>)
    requires Sorted(a.symbols) == Sorted(b.symbols) && Sorted(a.edges) == Sorted(b.edges) && Sorted(a.tests) == Sorted(b.tests)
    ensures Sorted(Dict(FamilyEntries(a))) == Sorted(Dict(FamilyEntries(b)))
  {
    hide Sorted, Lookup;
    FamilyFields(a);
    FamilyFields(b);
    assert EachSorted(FamilyEntries(a)) == EachSorted(FamilyEntries(b));
    SortedForgets(FamilyEntries(a), FamilyEntries(b));
  }

  lemma ObservedTwice(o: Each<seq<Value>>)
    requires WellKeyed(ObservedValue(o))
    ensures var p := Each(SortedItems(o.symbols), SortedItems(o.edges), SortedItems(o.tests));
      Sorted(ObservedValue(p)) == Sorted(ObservedValue(o)) && WellKeyed(ObservedValue(p))
  {
    RecordsWellKeyed(o);
    hide Sorted, SortedItems, WellKeyed, Lookup, HasExactly;
    forall f: Family
      ensures Sorted(List(SortedItems(o.Of(f)))) == Sorted(List(o.Of(f))) && WellKeyed(List(SortedItems(o.Of(f))))
    {
      ItemsTwice(o.Of(f));
      ListWellKeyed(SortedItems(o.Of(f)));
    }
    assert o.Of(Symbols) == o.symbols && o.Of(Edges) == o.edges && o.Of(Tests) == o.tests;
    var a := Each(List(SortedItems(o.symbols)), List(SortedItems(o.edges)), List(SortedItems(o.tests)));
    FamiliesSame(a, Each(List(o.symbols), List(o.edges), List(o.tests)));
    FamilyFields(a);
    DictWellKeyed(FamilyEntries(a));
  }

  lemma ListWellKeyed(items: seq<Value>)
    requires forall i :: 0 <= i < |items| ==> WellKeyed(items[i])
    ensures WellKeyed(List(items))
  {}

  lemma EachSortedAppend(es: seq<Entry>, e: Entry)
    ensures EachSorted(es + [e]) == EachSorted(es) + [Entry(e.key, Sorted(e.value))]
  {
    hide Sorted;
  }

  /** Sorting the keys of a dictionary and replacing one value by an equal one gives an equal dictionary. */
  lemma ExtendedSame(fields: seq<Entry>, key: string, v: Value, w: Value)
    requires WellKeyed(Dict(fields)) && Lookup(fields, key).None? && Sorted(v) == Sorted(w) && WellKeyed(w)
    ensures Same(Dict(SortedDict(fields) + [Entry(key, w)]), Dict(fields + [Entry(key, v)]))
    ensures WellKeyed(Dict(SortedDict(fields) + [Entry(key, w)]))
  {
    DictKeys(fields);
    hide Sorted, SortedDict, EachSorted, Lookup, WellKeyed;
    var again := SortedDict(fields);
    EachSortedAppend(fields, Entry(key, v));
    EachSortedAppend(again, Entry(key, w));
    FieldsTwice(fields);
    SortedDictKeys(fields);
    LookupSorted(fields, key);
    KeysWithout(fields, Entry(key, v));
    KeysWithout(again, Entry(key, w));
    assert SameMembers(EachSorted(again + [Entry(key, w)]), EachSorted(fields + [Entry(key, v)]));
    SortedForgets(again + [Entry(key, w)], fields + [Entry(key, v)]);
    ExtendedWellKeyed(again, Entry(key, w));
  }

  lemma ExtendedWellKeyed(es: seq<Entry>, e: Entry)
    requires DistinctKeys(es + [e]) && WellKeyed(e.value) && forall i :: 0 <= i < |es| ==> WellKeyed(es[i].value)
    ensures WellKeyed(Dict(es + [e]))
  {}

  /** What the reader gives back equals the index, as Python compares dictionaries. */
  lemma RestoredIsSame(index: Index)
    requires WellKeyed(IndexValue(index))
    ensures Same(IndexValue(Restored(index)), IndexValue(index)) && WellKeyed(IndexValue(Restored(index)))
    ensures forall f :: |Restored(index).observed.Of(f)| == |index.observed.Of(f)|
    ensures forall f, i :: 0 <= i < |index.observed.Of(f)| ==> Restored(index).observed.Of(f)[i] == Sorted(index.observed.Of(f)[i])
  {
    hide Sorted, SortedItems, SortedEntries, CodeOrder, Lookup, ObservedValue, WellKeyed;
    IndexParts(index);
    ObservedTwice(index.observed);
    ExtendedSame(index.fields, "observed", ObservedValue(index.observed), ObservedValue(Restored(index).observed));
    forall f, i | 0 <= i < |index.observed.Of(f)|
      ensures Restored(index).observed.Of(f)[i] == Sorted(index.observed.Of(f)[i])
    {
      SortedItemsAt(index.observed.Of(f), i);
      match f case Symbols => case Edges => case Tests =>
    }
  }

  lemma KeysWithout(es: seq<Entry>, e: Entry)
    requires DistinctKeys(es) && Lookup(es, e.key).None?
    ensures DistinctKeys(es + [e])
  {
    hide Lookup;
    LookupFinds(es, e.key);
    assert forall i :: 0 <= i < |es| ==> es[i] in es;
  }

  lemma FieldsTwice(fields: seq<Entry>)
    requires WellKeyed(Dict(fields))
    ensures forall e :: e in EachSorted(SortedDict(fields)) <==> e in EachSorted(fields)
    ensures forall i :: 0 <= i < |fields| ==> WellKeyed(SortedDict(fields)[i].value)
  {
    assert DistinctKeys(fields) && forall i :: 0 <= i < |fields| ==> WellKeyed(fields[i].value);
    hide Sorted, SortedDict, WellKeyed, EachSorted;
    EntriesSortedTwice(fields);
    SortedDictMembers(fields);
    SortedDictMembers(SortedDict(fields));
    DictStaysDict(SortedDict(fields));
  }

  // ---------------------------------------------------------------- filling from all parts

  ghost predicate OnDisk(dir: Files, digest: Value, parts: seq<Part>) {
    forall k :: 0 <= k < |parts| ==> PartName(k) in dir && dir[PartName(k)] == CanonicalBytes(PartValue(digest, parts[k]))
  }

  /** The facts of a part are facts of the index that name the part's source. */
  lemma FactOfPart(index: Index, k: nat, x: Item)
    requires WellKeyed(IndexValue(index)) && Cut(index).Some? && k < |Cut(index).value| && x in Cut(index).value[k].items
    ensures WellKeyed(x.record) && RecordSource(x.family, x.record) == Some(Cut(index).value[k].source)
    ensures x.ordinal < CountsOf(index.observed).Of(x.family)
  {
    hide WellKeyed, Lookup, Cut, AllItems, RecordSource, Count, Flatten, IsInput;
    EveryFactHasOnePart(index);
    IndexParts(index);
    assert Cut(index).value[k] in Cut(index).value;
    AllItemsAre(index.observed, x);
  }

  lemma HasInputDigest(index: Index, k: nat)
    requires WellKeyed(IndexValue(index)) && Cut(index).Some? && k < |Cut(index).value|
    ensures Lookup(index.fields, "source_input_digest") == Some(InputDigest(index.fields)) && WellKeyed(InputDigest(index.fields))
    ensures Lookup(SortedDict(index.fields), "source_input_digest") == Some(Sorted(InputDigest(index.fields)))
    ensures IsInput(SortedDict(index.fields), Cut(index).value[k].source)
  {
    hide WellKeyed, Lookup, Cut, AllItems, RecordSource, Count, Flatten, IsInput, SortedDict, Sorted;
    EveryFactHasOnePart(index);
    IndexParts(index);
    assert Cut(index).value[k] in Cut(index).value;
    FieldIsWellKeyed(index.fields, "source_input_digest");
    LookupSorted(index.fields, "source_input_digest");
    InputSorted(index.fields, Cut(index).value[k].source);
  }

  lemma PartIsReady(index: Index, k: nat)
    requires WellKeyed(IndexValue(index)) && Cut(index).Some? && k < |Cut(index).value|
    ensures var p := Cut(index).value[k];
      && WellKeyed(PartValue(InputDigest(index.fields), p)) && WellKeyed(ObservedValue(PairsOf(p.items)))
      && Written(PartValue(InputDigest(index.fields), p), MAXIMUM_INDEX_BYTES)
  {
    hide WellKeyed, Lookup, Cut, AllItems, RecordSource, PairsOf, ObservedValue, PartValue, Written, Count, Flatten, IndexValue,
         SortedDict, Sorted, IsInput;
    var p := Cut(index).value[k];
    HasInputDigest(index, k);
    forall x | x in p.items
      ensures WellKeyed(x.record)
    {
      FactOfPart(index, k, x);
    }
    PartWellKeyed(InputDigest(index.fields), p);
    PairsWellKeyed(p.items);
    CutIsEmitted(index);
  }

  lemma CutIsEmitted(index: Index)
    requires Cut(index).Some?
    ensures Emitted(InputDigest(index.fields), Cut(index).value) && |AllItems(index.observed)| <= MAXIMUM_RECORDS
  {}

  lemma FactsCount(index: Index, t: Test)
    requires Cut(index).Some?
    ensures Count(Flatten(Cut(index).value), t) == Count(AllItems(index.observed), t)
  {
    hide Count, Cut, AllItems, Flatten, RecordSource, Lookup, IsInput;
    EveryFactHasOnePart(index);
  }

  lemma PlaceOnce(index: Index, n: nat, f: Family, o: nat)
    requires Cut(index).Some? && n < |Cut(index).value|
    ensures var parts := Cut(index).value;
      Count(ReadAll(parts[..n]) + ReadOrder(parts[n].items), At(f, o)) <= 1
  {
    hide Cut, Count, AllItems, Flatten, ReadOrder;
    var parts, t := Cut(index).value, At(f, o);
    FactsCount(index, t);
    assert parts[..n + 1][..n] == parts[..n];
    ReadAllKeeps(parts[..n + 1], t);
    CountOfSome(parts, n + 1, t);
    AllItemsCount(index.observed, t);
  }

  lemma NoPlaceTwice(index: Index, n: nat)
    requires Cut(index).Some? && n < |Cut(index).value|
    ensures var parts := Cut(index).value;
      forall f, o :: Count(ReadAll(parts[..n]) + ReadOrder(parts[n].items), At(f, o)) <= 1
  {
    hide Cut, Count, ReadAll, ReadOrder;
    forall f, o
      ensures Count(ReadAll(Cut(index).value[..n]) + ReadOrder(Cut(index).value[n].items), At(f, o)) <= 1
    {
      PlaceOnce(index, n, f, o);
    }
  }

  lemma {:induction false} PartsFill(sha: Hash, loads: Loads, dir: Files, m: Admitted, index: Index, n: nat)
    requires Reads(loads) && WellKeyed(IndexValue(index)) && Cut(index).Some? && n <= |Cut(index).value|
    requires OnDisk(dir, InputDigest(index.fields), Cut(index).value)
    requires m.fields == SortedDict(index.fields) && m.counts == CountsOf(index.observed)
    ensures var parts := Cut(index).value;
      var r := FillParts(sha, loads, dir, m, Descriptors(sha, InputDigest(index.fields), parts)[..n]);
      r.Some? && Filled(r.value, m.counts, ReadAll(parts[..n]))
    decreases n
  {
    hide WellKeyed, Cut, Lookup, RecordSource, ReadOrder, Filled, PairsOf, ObservedValue, PartValue, Admissible, Cost,
         Describe, FillPart, AdmitPart, Count, SortedDict, Sorted, PartName, CanonicalBytes, CountsOf, EmptySlots;
    var parts := Cut(index).value;
    var digest := InputDigest(index.fields);
    var ds := Descriptors(sha, digest, parts);
    if n == 0 {
      NothingFilled(m.counts);
    } else {
      var k := n - 1;
      PartsFill(sha, loads, dir, m, index, k);
      var before := FillParts(sha, loads, dir, m, ds[..k]).value;
      PartIsReady(index, k);
      HasInputDigest(index, k);
      forall x | x in parts[k].items
        ensures x.ordinal < m.counts.Of(x.family) && WellKeyed(x.record) && RecordSource(x.family, x.record) == Some(parts[k].source)
      {
        FactOfPart(index, k, x);
      }
      PartIsAdmitted(sha, loads, dir, m, digest, k, parts[k]);
      NoPlaceTwice(index, k);
      ReadOrderMembers(parts[k].items);
      PartFills(sha, loads, dir, m, digest, k, parts[k], before, ReadAll(parts[..k]));
      assert ds[..n][..k] == ds[..k] && parts[..n][..k] == parts[..k];
    }
  }

  lemma ReadOrderMembers(xs: seq<Item>)
    ensures forall x :: x in ReadOrder(xs) <==> x in xs
  {
    ReadOrderKeeps(xs, Of(Symbols));
  }

  lemma NothingFilled(counts: Each<nat>)
    ensures Filled(EmptySlots(counts), counts, [])
  {}

  lemma PlaceIsFull(index: Index, slots: Slots, f: Family, i: nat)
    requires Cut(index).Some? && Filled(slots, CountsOf(index.observed), ReadAll(Cut(index).value))
    requires i < |index.observed.Of(f)|
    ensures |slots.Of(f)| == |index.observed.Of(f)| && slots.Of(f)[i] == Some(Sorted(index.observed.Of(f)[i]))
  {
    hide Cut, Count, AllItems, RecordSource, Flatten, ReadAll, Sorted, Lookup, IsInput;
    var parts, o, t := Cut(index).value, index.observed, At(f, i);
    EveryFactHasOnePart(index);
    AllItemsCount(o, t);
    ReadAllKeeps(parts, t);
    CountFinds(ReadAll(parts), t);
    var x :| x in ReadAll(parts) && Passes(t, x);
    FlattenMembers(parts);
    var p :| p in parts && x in p.items;
    AllItemsAre(o, x);
  }

  /** All places are filled, with the facts of the index. */
  lemma FilledIsFull(index: Index, slots: Slots)
    requires Cut(index).Some? && Filled(slots, CountsOf(index.observed), ReadAll(Cut(index).value))
    ensures AllFull(slots.symbols) && AllFull(slots.edges) && AllFull(slots.tests)
    ensures Each(Full(slots.symbols), Full(slots.edges), Full(slots.tests)) == Restored(index).observed
  {
    FamilyIsFull(index, slots, Symbols);
    FamilyIsFull(index, slots, Edges);
    FamilyIsFull(index, slots, Tests);
    hide Cut, SortedItems, Filled;
  }

  lemma FamilyIsFull(index: Index, slots: Slots, f: Family)
    requires Cut(index).Some? && Filled(slots, CountsOf(index.observed), ReadAll(Cut(index).value))
    ensures AllFull(slots.Of(f)) && Full(slots.Of(f)) == SortedItems(index.observed.Of(f))
  {
    hide Cut, Count, ReadAll, Sorted, SortedItems, PairsOf;
    var records := index.observed.Of(f);
    assert |slots.Of(f)| == CountsOf(index.observed).Of(f) == |records|;
    forall i | 0 <= i < |records|
      ensures slots.Of(f)[i] == Some(SortedItems(records)[i])
    {
      PlaceIsFull(index, slots, f, i);
      SortedItemsAt(records, i);
    }
  }

  // --------------------------------------------------------------------------- the manifest

  lemma PartCountFits(index: Index, k: nat, f: Family)
    requires Cut(index).Some? && k < |Cut(index).value|
    ensures CountsOf(PairsOf(Cut(index).value[k].items)).Of(f) <= CountsOf(index.observed).Of(f)
  {
    hide Cut, Count, Flatten, RecordSource, Lookup, PairsOf, AllItems, IsInput;
    EveryFactHasOnePart(index);
    PartCounts(Cut(index).value[k], f);
    CountOfSome(Cut(index).value, k, Of(f));
    AllItemsCount(index.observed, Of(f));
  }

  lemma CountsFit(index: Index)
    requires Cut(index).Some?
    ensures var c := CountsOf(index.observed); c.symbols + c.edges + c.tests <= MAXIMUM_RECORDS
  {
    CutIsEmitted(index);
    hide Cut;
    assert |AllItems(index.observed)| == |index.observed.symbols| + |index.observed.edges| + |index.observed.tests|;
  }

  lemma PartCountsFit(index: Index, k: nat)
    requires Cut(index).Some? && k < |Cut(index).value|
    ensures var c := CountsOf(PairsOf(Cut(index).value[k].items)); c.symbols + c.edges + c.tests <= MAXIMUM_RECORDS
  {
    hide Cut, PairsOf;
    CountsFit(index);
    PartCountFits(index, k, Symbols);
    PartCountFits(index, k, Edges);
    PartCountFits(index, k, Tests);
  }

  lemma AllDescriptorsReadBack(sha: Hash, index: Index)
    requires WellKeyed(IndexValue(index)) && Cut(index).Some?
    ensures ReadsBackAll(SortedDict(index.fields), Descriptors(sha, InputDigest(index.fields), Cut(index).value))
  {
    hide Cut, WellKeyed, Lookup, IndexValue, PairsOf, PartValue, SortedDict, Sorted, IsInput, ReadDescriptor, Written, Describe,
         DescriptorValue, InputDigest;
    var parts, digest := Cut(index).value, InputDigest(index.fields);
    forall k | 0 <= k < |parts|
      ensures WellKeyed(DescriptorValue(Describe(sha, digest, k, parts[k])))
      ensures ReadDescriptor(SortedDict(index.fields), k, Sorted(DescriptorValue(Describe(sha, digest, k, parts[k])))) == Some(Describe(sha, digest, k, parts[k]))
    {
      PartIsReady(index, k);
      HasInputDigest(index, k);
      PartCountsFit(index, k);
      DescribedReadsBack(sha, SortedDict(index.fields), digest, k, parts[k]);
    }
  }

  lemma DescribedReadsBack(sha: Hash, fields: seq<Entry>, digest: Value, k: nat, p: Part)
    requires Written(PartValue(digest, p), MAXIMUM_INDEX_BYTES) && IsInput(fields, p.source)
    requires var c := CountsOf(PairsOf(p.items)); c.symbols + c.edges + c.tests <= MAXIMUM_RECORDS
    ensures var d := Describe(sha, digest, k, p);
      WellKeyed(DescriptorValue(d)) && ReadDescriptor(fields, k, Sorted(DescriptorValue(d))) == Some(d)
  {
    hide PairsOf, PartValue, Cost, Sorted, IsInput, ReadDescriptor, DescriptorValue, PartName, CanonicalBytes, WellKeyed, Admissible;
    DescriptorReadsBack(fields, k, Describe(sha, digest, k, p));
  }

  lemma DescriptorsWellKeyed(sha: Hash, index: Index)
    requires WellKeyed(IndexValue(index)) && Cut(index).Some?
    ensures WellKeyed(List(DescriptorValues(Descriptors(sha, InputDigest(index.fields), Cut(index).value))))
  {
    hide Cut, WellKeyed, Lookup, Sorted, ReadDescriptor, SortedDict, IndexValue, DescriptorValue, InputDigest, Describe;
    AllDescriptorsReadBack(sha, index);
    var ds := Descriptors(sha, InputDigest(index.fields), Cut(index).value);
    forall k | 0 <= k < |ds|
      ensures WellKeyed(DescriptorValues(ds)[k])
    {
      assert DescriptorValues(ds)[k] == DescriptorValue(ds[k]);
    }
    ListWellKeyed(DescriptorValues(ds));
  }

  lemma ManifestWellKeyed(sha: Hash, index: Index)
    requires WellKeyed(IndexValue(index)) && Cut(index).Some?
    ensures WellKeyed(ManifestValue(sha, index, Cut(index).value))
  {
    hide Cut, WellKeyed, Lookup, Sorted, IndexValue, CountsValue, DescriptorValues, CanonicalBytes, HasExactly, Descriptors, InputDigest;
    IndexParts(index);
    CountsFit(index);
    DescriptorsWellKeyed(sha, index);
    CountsReadBack(CountsOf(index.observed));
    var v := ManifestValue(sha, index, Cut(index).value);
    KeysAreDistinct();
    Fields(v.entries, MANIFEST_KEYS);
    ScalarSorted(v.entries[0].value);
    ScalarSorted(v.entries[3].value);
    DictWellKeyed(v.entries);
  }

  lemma TextSorted(v: Value, s: string)
    ensures Sorted(v) == Str(s) <==> v == Str(s)
  {}

  /** The manifest passes admission exactly when the index says it is of the current version. */
  lemma ManifestIsAdmitted(sha: Hash, index: Index)
    requires WellKeyed(IndexValue(index)) && Render(sha, index).Some?
    ensures var parts := Cut(index).value;
      var manifest := ManifestValue(sha, index, parts);
      AdmitManifest(CanonicalBytes(manifest), Sorted(manifest))
      == if Lookup(index.fields, "schema") != Some(Str(VERSION)) then None
         else Some(Admitted(SortedDict(index.fields), CountsOf(index.observed), Str(sha(CanonicalBytes(IndexValue(index)))),
                            Descriptors(sha, InputDigest(index.fields), parts)))
  {
    hide Cut, WellKeyed, Lookup, Sorted, IndexValue, CountsValue, DescriptorValues, CanonicalBytes, HasExactly, Descriptors, InputDigest,
         SortedDict, SortedItems, Admissible, Cost, TotalBytes, ReadDescriptors, SumBytes, SumCounts, ReadCounts;
    var parts, digest := Cut(index).value, InputDigest(index.fields);
    var v, ds := ManifestValue(sha, index, parts), Descriptors(sha, digest, parts);
    ManifestFields(sha, index, parts);
    IndexParts(index);
    CutIsEmitted(index);
    CountsFit(index);
    CountsReadBack(CountsOf(index.observed));
    CanonicalSorted(v, MAXIMUM_TRANSPORT_BYTES);
    CanonicalLength(v);
    LookupSorted(index.fields, "schema");
    LookupSorted(index.fields, "observed");
    if Lookup(index.fields, "schema").Some? { TextSorted(Lookup(index.fields, "schema").value, VERSION); }
    AllDescriptorsReadBack(sha, index);
    DescriptorsReadBack(SortedDict(index.fields), ds, |ds|);
    assert SortedItems(DescriptorValues(ds))[..|ds|] == SortedItems(DescriptorValues(ds)) && ds[..|ds|] == ds;
    SumsAreRight(sha, index);
  }

  lemma SumsAreRight(sha: Hash, index: Index)
    requires Cut(index).Some?
    ensures var ds := Descriptors(sha, InputDigest(index.fields), Cut(index).value);
      SumBytes(ds) == TotalBytes(InputDigest(index.fields), Cut(index).value) && SumCounts(ds) == CountsOf(index.observed)
  {
    hide Cut, Lookup, Descriptors, InputDigest, TotalBytes, SumBytes, SumCounts, RecordSource, Count, Flatten, AllItems, IsInput;
    var parts, digest := Cut(index).value, InputDigest(index.fields);
    var ds := Descriptors(sha, digest, parts);
    SumOfBytes(sha, digest, parts, |parts|);
    assert ds[..|ds|] == ds && parts[..|parts|] == parts;
    EveryFactHasOnePart(index);
    forall f: Family
      ensures SumCounts(ds).Of(f) == |index.observed.Of(f)|
    {
      SumOfCounts(sha, digest, parts, f);
      AllItemsCount(index.observed, Of(f));
    }
    assert SumCounts(ds).Of(Symbols) == SumCounts(ds).symbols && SumCounts(ds).Of(Edges) == SumCounts(ds).edges
        && SumCounts(ds).Of(Tests) == SumCounts(ds).tests;
  }

  lemma ManifestFields(sha: Hash, index: Index, parts: seq<Part>)
    requires WellKeyed(IndexValue(index)) && Cut(index) == Some(parts)
    ensures var v := ManifestValue(sha, index, parts);
      && WellKeyed(v) && Sorted(v).Dict? && HasExactly(Sorted(v), MANIFEST_KEYS)
      && Field(Sorted(v), "schema") == Some(Str(TRANSPORT_VERSION))
      && Field(Sorted(v), "index") == Some(Dict(SortedDict(index.fields)))
      && Field(Sorted(v), "counts") == Some(Sorted(CountsValue(CountsOf(index.observed))))
      && Field(Sorted(v), "logical_sha256") == Some(Str(sha(CanonicalBytes(IndexValue(index)))))
      && Field(Sorted(v), "parts") == Some(List(SortedItems(DescriptorValues(Descriptors(sha, InputDigest(index.fields), parts)))))
  {
    hide Cut, WellKeyed, Lookup, Sorted, IndexValue, CountsValue, DescriptorValues, CanonicalBytes, HasExactly, Descriptors, InputDigest,
         SortedDict, SortedItems;
    ManifestWellKeyed(sha, index);
    var v := ManifestValue(sha, index, parts);
    KeysAreDistinct();
    Fields(v.entries, MANIFEST_KEYS);
    ExactlySorted(v, MANIFEST_KEYS);
    forall i | 0 <= i < 5
      ensures Field(Sorted(v), MANIFEST_KEYS[i]) == Some(Sorted(v.entries[i].value))
    {
      FieldSorted(v, MANIFEST_KEYS[i]);
    }
    ScalarSorted(v.entries[0].value);
    ScalarSorted(v.entries[3].value);
    DictStaysDict(v.entries);
    DictStaysDict(index.fields);
    ListStaysList(v.entries[4].value.items);
    assert MANIFEST_KEYS[0] == "schema" && MANIFEST_KEYS[1] == "index" && MANIFEST_KEYS[2] == "counts"
        && MANIFEST_KEYS[3] == "logical_sha256" && MANIFEST_KEYS[4] == "parts";
  }

  lemma ViewsSorted(fields: seq<Entry>)
    requires WellKeyed(Dict(fields))
    ensures Views(SortedDict(fields)) == Views(fields)
  {
    DictKeys(fields);
    if Lookup(fields, "allowed").Some? { FieldIsWellKeyed(fields, "allowed"); }
    hide Lookup, SortedDict, WellKeyed, ViewNames;
    LookupSorted(fields, "allowed");
    var allowed := AsDict(Lookup(fields, "allowed"));
    if allowed.Some? {
      DictStaysDict(allowed.value);
      ViewNamesSorted(allowed.value);
    }
  }

  lemma ViewNamesSorted(allowed: seq<Entry>)
    requires WellKeyed(Dict(allowed))
    ensures ViewNames(SortedDict(allowed)) == ViewNames(allowed)
  {
    DictKeys(allowed);
    hide Lookup, SortedDict, WellKeyed, IsViewName;
    LookupSorted(allowed, "views");
    var views := AsDict(Lookup(allowed, "views"));
    if views.Some? {
      DictStaysDict(views.value);
      SameKeys(views.value);
    }
  }

  lemma SameKeys(es: seq<Entry>)
    ensures (set e | e in SortedDict(es) :: e.key) == (set e | e in es :: e.key)
    ensures (forall e :: e in SortedDict(es) ==> IsViewName(e.key)) <==> (forall e :: e in es ==> IsViewName(e.key))
  {
    hide SortedEntries, CodeOrder, Sorted, IsViewName;
    SortedDictMembers(es);
    forall e | e in es
      ensures exists d :: d in SortedDict(es) && d.key == e.key
    {
      var i :| 0 <= i < |es| && es[i] == e;
      assert EachSorted(es)[i] in EachSorted(es);
    }
    forall d | d in SortedDict(es)
      ensures exists e :: e in es && e.key == d.key
    {
      var i :| 0 <= i < |es| && EachSorted(es)[i] == d;
      assert es[i] in es;
    }
  }

  /** What the index must say, and the directory hold, for its files to be read. */
  ghost predicate Readable(index: Index, parts: seq<Part>, dir: Files) {
    && Lookup(index.fields, "schema") == Some(Str(VERSION))
    && Views(index.fields).Some?
    && forall name :: name in dir ==> name == MANIFEST_FILE || IsNamedPart(|parts|, name) || IsViewFile(Views(index.fields).value, name)
  }

  ghost predicate IsNamedPart(n: nat, name: string) {
    exists k :: 0 <= k < n && name == PartName(k)
  }

  /**
    The round trip: from a directory that holds the files of an index the reader restores that index,
    every fact at its place, however it was grouped and cut; and it refuses only an index of another
    version, view names it does not allow or a directory with a file it does not expect.
   */
  lemma ReaderRestoresIndex(sha: Hash, loads: Loads, index: Index, dir: Files)
    requires Reads(loads) && WellKeyed(IndexValue(index)) && Render(sha, index).Some?
    requires forall name :: name in Render(sha, index).value ==> name in dir && dir[name] == Render(sha, index).value[name]
    ensures ReadIndex(sha, loads, dir) == if Readable(index, Cut(index).value, dir) then Some(Restored(index)) else None
    ensures Same(IndexValue(Restored(index)), IndexValue(index))
  {
    hide Cut, WellKeyed, Lookup, Sorted, IndexValue, CanonicalBytes, Descriptors, ManifestValue, Same, Restored, FillParts, Finish,
         SortedDict, Admissible, Cost, TotalBytes, Filled, InputDigest, AdmitManifest, ReadAll, CountsOf, ReadFile, Readable, PartFiles;
    var parts, digest := Cut(index).value, InputDigest(index.fields);
    var manifest := ManifestValue(sha, index, parts);
    FilesLieInDirectory(sha, index, dir);
    RestoredIsSame(index);
    CanonicalLength(manifest);
    ManifestWellKeyed(sha, index);
    FileReadsBack(loads, dir, MANIFEST_FILE, manifest, MAXIMUM_INDEX_BYTES);
    ManifestIsAdmitted(sha, index);
    if Lookup(index.fields, "schema") == Some(Str(VERSION)) {
      var m := AdmitManifest(CanonicalBytes(manifest), Sorted(manifest)).value;
      PartsFill(sha, loads, dir, m, index, |parts|);
      assert m.parts[..|parts|] == m.parts && parts[..|parts|] == parts;
      FinishIs(sha, index, dir, m, FillParts(sha, loads, dir, m, m.parts).value);
    } else {
      OtherVersion(index, parts, dir);
    }
  }

  lemma OtherVersion(index: Index, parts: seq<Part>, dir: Files)
    requires Lookup(index.fields, "schema") != Some(Str(VERSION))
    ensures !Readable(index, parts, dir)
  {}

  lemma FinishIs(sha: Hash, index: Index, dir: Files, m: Admitted, slots: Slots)
    requires WellKeyed(IndexValue(index)) && Render(sha, index).Some? && Lookup(index.fields, "schema") == Some(Str(VERSION))
    requires m == Admitted(SortedDict(index.fields), CountsOf(index.observed), Str(sha(CanonicalBytes(IndexValue(index)))),
                           Descriptors(sha, InputDigest(index.fields), Cut(index).value))
    requires Filled(slots, m.counts, ReadAll(Cut(index).value))
    ensures Finish(sha, dir, m, slots) == if Readable(index, Cut(index).value, dir) then Some(Restored(index)) else None
  {
    hide Cut, WellKeyed, Lookup, IndexValue, CanonicalBytes, Descriptors, ManifestValue, Restored, Views, IsViewFile, IsPartFile, IsNamedPart,
         SortedDict, Admissible, Cost, TotalBytes, Filled, InputDigest, ReadAll, CountsOf, HasLogicalIdentity, PartFiles;
    FilledIsFull(index, slots);
    IndexParts(index);
    ViewsSorted(index.fields);
    RestoredHas(index);
    SameIdentity(sha, index, m);
    forall name
      ensures IsPartFile(m.parts, name) <==> IsNamedPart(|Cut(index).value|, name)
    {
      SameNames(sha, InputDigest(index.fields), Cut(index).value, name);
    }
  }

  lemma RestoredHas(index: Index)
    ensures Restored(index) == Index(SortedDict(index.fields), Restored(index).observed)
  {}

  lemma FilesLieInDirectory(sha: Hash, index: Index, dir: Files)
    requires Render(sha, index).Some?
    requires forall name :: name in Render(sha, index).value ==> name in dir && dir[name] == Render(sha, index).value[name]
    ensures Cut(index).Some? && OnDisk(dir, InputDigest(index.fields), Cut(index).value)
    ensures MANIFEST_FILE in dir && dir[MANIFEST_FILE] == CanonicalBytes(ManifestValue(sha, index, Cut(index).value))
  {
    hide Cut, IndexValue, CanonicalBytes, ManifestValue, Admissible, Cost, TotalBytes, PartName, InputDigest, PartFiles, PartValue;
    var files, parts := Render(sha, index).value, Cut(index).value;
    assert MANIFEST_FILE in files;
    PartFilesAre(InputDigest(index.fields), parts);
    forall k | 0 <= k < |parts|
      ensures PartName(k) in dir && dir[PartName(k)] == CanonicalBytes(PartValue(InputDigest(index.fields), parts[k]))
    {
      PartNamesDiffer(k, k);
      assert PartName(k) in files;
    }
  }

  lemma SameNames(sha: Hash, digest: Value, parts: seq<Part>, name: string)
    ensures IsPartFile(Descriptors(sha, digest, parts), name) <==> IsNamedPart(|parts|, name)
  {
    hide PartName, PartBytes, CanonicalBytes, PairsOf;
    var ds := Descriptors(sha, digest, parts);
    forall k | 0 <= k < |parts|
      ensures ds[k] in ds && ds[k].file == PartName(k)
    {
    }
  }

  lemma SameIdentity(sha: Hash, index: Index, m: Admitted)
    requires WellKeyed(IndexValue(index)) && Render(sha, index).Some? && m.logical == Str(sha(CanonicalBytes(IndexValue(index))))
    ensures HasLogicalIdentity(sha, m, Restored(index))
  {
    hide Cut, WellKeyed, IndexValue, CanonicalBytes, ManifestValue, Restored, Sorted, TotalBytes, InputDigest, PartFiles;
    RestoredIsSame(index);
    CanonicalSorted(IndexValue(index), MAXIMUM_TRANSPORT_BYTES);
    CanonicalSorted(IndexValue(Restored(index)), MAXIMUM_TRANSPORT_BYTES);
  }
}
