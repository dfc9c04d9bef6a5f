/** After any number of interrupted publications: a re-run finishes the job, and no reader ever sees a mixture. */
module PublicationRecovery {
  import opened Text
  import opened Values
  import opened Json
  import opened Canonical
  import opened CanonicalForm
  import opened Projection
  import opened Transport
  import opened TransportReader
  import opened TransportRoundTrip
  import opened TransportRestores
  import opened Publication
  import opened PublicationRuns

  // ------------------------------------------------------------------ what json.loads does

  ghost predicate IsTorn(torn: Bytes, whole: Bytes) {
    torn <= whole && torn != whole
  }

  /**
    `json.loads`: it returns what was written, it never returns a dictionary with a repeated key, and
    from an object's text cut short it returns nothing, unless only the line feed is missing.
   */
  ghost predicate Parses(loads: Loads) {
    && Reads(loads)
    && (forall b :: loads(b).Some? ==> WellKeyed(loads(b).value))
    && (forall v: Value, torn: Bytes :: v.Dict? && InWireDomain(v) && IsJson(v) && IsTorn(torn, Line(NO_FLOATS, v)) ==>
          loads(torn).None? || loads(torn) == Some(v))
  }

  lemma TornLine(v: Value, torn: Bytes, w: Value)
    requires IsTorn(torn, Line(NO_FLOATS, v))
    ensures torn != Line(NO_FLOATS, w)
  {
    hide Dumps, Utf8;
    LineThenFeed(v);
    LineThenFeed(w);
    if torn != [] {
      var last := |torn| - 1;
      assert torn[last] == Line(NO_FLOATS, v)[last] == Utf8(Dumps(NO_FLOATS, v))[last];
    }
  }

  lemma LineThenFeed(v: Value)
    ensures Line(NO_FLOATS, v) == Utf8(Dumps(NO_FLOATS, v)) + [10]
    ensures forall i :: 0 <= i < |Utf8(Dumps(NO_FLOATS, v))| ==> Utf8(Dumps(NO_FLOATS, v))[i] >= 32
  {
    hide Dumps, Utf8;
    NoFloatsIsFloatText();
    DumpsIsPrintable(NO_FLOATS, v);
    PrintableBytes(Dumps(NO_FLOATS, v));
    Utf8Concat(Dumps(NO_FLOATS, v), "\n");
    Utf8One('\n');
  }

  /** Nothing impossible is asked of `json.loads`. */
  lemma ParsesExists() returns (loads: Loads)
    ensures Parses(loads)
  {
    hide Dumps, Utf8, IsJson, WellKeyed, InWireDomain;
    var known := ReadsExists();
    loads := (b: Bytes) =>
      if exists v :: IsJson(v) && InWireDomain(v) && Line(NO_FLOATS, v) == b then known(b) else None;
    forall b | loads(b).Some?
      ensures WellKeyed(loads(b).value)
    {
      var v :| IsJson(v) && InWireDomain(v) && Line(NO_FLOATS, v) == b;
      JsonIsWellKeyed(v);
    }
    forall v, torn | IsTorn(torn, Line(NO_FLOATS, v))
      ensures loads(torn).None?
    {
      forall w: Value
        ensures torn != Line(NO_FLOATS, w)
      {
        TornLine(v, torn, w);
      }
    }
  }

  // --------------------------------------------------------------------------- the outputs

  /** The files of an index and one file for each of its views. */
  ghost predicate IsRendered(sha: Hash, index: Index, outputs: Files) {
    && Render(sha, index).Some?
    && WellKeyed(IndexValue(index))
    && Lookup(index.fields, "schema") == Some(Str(VERSION))
    && Views(index.fields).Some?
    && (forall name :: name in Render(sha, index).value ==> name in outputs && outputs[name] == Render(sha, index).value[name])
    && (forall name :: name in outputs ==> name in Render(sha, index).value || IsViewFile(Views(index.fields).value, name))
  }

  function ManifestBytes(sha: Hash, index: Index): Bytes
    requires Cut(index).Some?
  {
    CanonicalBytes(ManifestValue(sha, index, Cut(index).value))
  }

  lemma RenderedManifest(sha: Hash, index: Index, outputs: Files)
    requires IsRendered(sha, index, outputs)
    ensures Cut(index).Some? && MANIFEST_FILE in outputs && outputs[MANIFEST_FILE] == ManifestBytes(sha, index)
    ensures |outputs[MANIFEST_FILE]| <= MAXIMUM_INDEX_BYTES
    ensures forall k :: 0 <= k < |Cut(index).value| ==> PartName(k) in outputs
  {
    hide Cut, WellKeyed, IndexValue, CanonicalBytes, ManifestValue, Lookup, Views, PartName, Admissible, Cost, PartFiles;
    FilesLieInDirectory(sha, index, outputs);
    CanonicalLength(ManifestValue(sha, index, Cut(index).value));
  }

  /** After a complete publication the reader restores the index. */
  lemma PublishedIsRead(sha: Hash, loads: Loads, index: Index, outputs: Files)
    requires Parses(loads) && IsRendered(sha, index, outputs)
    ensures ReadIndex(sha, loads, outputs) == Some(Restored(index)) && Same(IndexValue(Restored(index)), IndexValue(index))
  {
    hide Cut, WellKeyed, IndexValue, ReadIndex, Lookup, Views, Restored, Same, Render, Parses, Readable;
    ParsesReads(loads);
    RenderedIsReadable(sha, index, outputs);
    ReaderRestoresIndex(sha, loads, index, outputs);
  }

  lemma RenderedIsReadable(sha: Hash, index: Index, outputs: Files)
    requires IsRendered(sha, index, outputs)
    ensures Cut(index).Some? && Readable(index, Cut(index).value, outputs)
  {
    hide Cut, WellKeyed, IndexValue, Lookup, Views, IsViewFile, IsNamedPart, Render;
    RenderedManifest(sha, index, outputs);
    forall name | name in outputs
      ensures name == MANIFEST_FILE || IsNamedPart(|Cut(index).value|, name) || IsViewFile(Views(index.fields).value, name)
    {
      if name in Render(sha, index).value { RenderedName(sha, index, name); }
    }
  }

  lemma ParsesReads(loads: Loads)
    requires Parses(loads)
    ensures Reads(loads)
  {
    hide Reads;
  }

  lemma RenderedName(sha: Hash, index: Index, name: string)
    requires Render(sha, index).Some? && name in Render(sha, index).value
    ensures Cut(index).Some? && (name == MANIFEST_FILE || IsNamedPart(|Cut(index).value|, name))
  {
    hide Cut, IndexValue, PartName, PartFiles, InputDigest, ManifestValue, CanonicalBytes, Cost, Admissible, TotalBytes;
    PartFilesAre(InputDigest(index.fields), Cut(index).value);
  }

  // ------------------------------------------------------ a manifest this publication wrote

  /** The new manifest vouches for parts that are all among the outputs; a torn one for nothing. */
  lemma PartlyNewManifest(sha: Hash, loads: Loads, index: Index, outputs: Files, d: Files)
    requires Parses(loads) && IsRendered(sha, index, outputs)
    requires MANIFEST_FILE in d && d[MANIFEST_FILE] <= outputs[MANIFEST_FILE]
    ensures ReadPrevious(loads, d).Some?
    ensures forall p :: p in ReadPrevious(loads, d).value.parts ==> p.file in outputs
  {
    hide Cut, WellKeyed, IndexValue, CanonicalBytes, Lookup, Views, PartName, Sorted, InputDigest, IsViewFile, ManifestValue,
         Descriptors, CountsOf, SortedDict, AdmitManifest, PreviousViews, Field, Parses, IsRendered;
    RenderedManifest(sha, index, outputs);
    RenderedIs(sha, index, outputs);
    var manifest := ManifestValue(sha, index, Cut(index).value);
    ManifestIsAdmitted(sha, index);
    ManifestSchema(sha, index);
    var raw := d[MANIFEST_FILE];
    WholeOrTorn(sha, loads, index, raw);
    if raw == outputs[MANIFEST_FILE] {
      var m := AdmitManifest(raw, Sorted(manifest)).value;
      NewViews(index);
      NewParts(sha, InputDigest(index.fields), Cut(index).value, outputs);
    } else if loads(raw).Some? {
      TornIsNotAdmitted(manifest, raw, Sorted(manifest));
    }
  }

  lemma RenderedIs(sha: Hash, index: Index, outputs: Files)
    requires IsRendered(sha, index, outputs)
    ensures Render(sha, index).Some? && WellKeyed(IndexValue(index)) && Cut(index).Some?
    ensures Lookup(index.fields, "schema") == Some(Str(VERSION)) && Views(index.fields).Some?
  {
    hide Cut, WellKeyed, Lookup, Views, IndexValue;
  }

  lemma ManifestSchema(sha: Hash, index: Index)
    requires WellKeyed(IndexValue(index)) && Cut(index).Some?
    ensures Field(Sorted(ManifestValue(sha, index, Cut(index).value)), "schema") == Some(Str(TRANSPORT_VERSION))
    ensures WellKeyed(ManifestValue(sha, index, Cut(index).value)) && ManifestValue(sha, index, Cut(index).value).Dict?
  {
    hide Cut, WellKeyed, IndexValue, Lookup, Sorted, DescriptorValues, CountsValue, Descriptors, CanonicalBytes, HasExactly;
    ManifestFields(sha, index, Cut(index).value);
  }

  /** The whole manifest is read as it was written; cut short it is read as nothing or, without its line feed, as itself. */
  lemma WholeOrTorn(sha: Hash, loads: Loads, index: Index, raw: Bytes)
    requires Parses(loads) && Render(sha, index).Some? && WellKeyed(IndexValue(index)) && Cut(index).Some?
    requires raw <= ManifestBytes(sha, index)
    ensures loads(raw).None? || loads(raw) == Some(Sorted(ManifestValue(sha, index, Cut(index).value)))
    ensures raw == ManifestBytes(sha, index) ==> loads(raw).Some?
  {
    hide Cut, WellKeyed, IndexValue, Lookup, Sorted, InWireDomain, IsJson, Dumps, ManifestValue, TotalBytes, Depth, Cost, Utf8;
    var v := ManifestValue(sha, index, Cut(index).value);
    ManifestSchema(sha, index);
    ReadsBack(loads, v);
    SortedTwice(v);
    AdmissionSorted(v, 0);
    WireIsJson(Sorted(v));
    assert CanonicalBytes(v) == Line(NO_FLOATS, Sorted(v));
    assert Sorted(v).Dict? by { DictStaysDict(v.entries); }
    if raw != CanonicalBytes(v) { assert IsTorn(raw, Line(NO_FLOATS, Sorted(v))); }
  }

  lemma TornIsNotAdmitted(v: Value, torn: Bytes, w: Value)
    requires torn <= CanonicalBytes(v) && torn != CanonicalBytes(v)
    ensures AdmitManifest(torn, w) == None
  {
    hide CanonicalBytes;
    TornIsNotCanonical(v, torn, w);
  }

  lemma NewViews(index: Index)
    requires WellKeyed(IndexValue(index)) && Views(index.fields).Some?
    ensures PreviousViews(SortedDict(index.fields)) == Views(index.fields)
  {
    IndexParts(index);
    ViewsSorted(index.fields);
    hide Lookup, WellKeyed, SortedDict, IsViewName;
  }

  lemma NewParts(sha: Hash, digest: Value, parts: seq<Part>, outputs: Files)
    requires forall k :: 0 <= k < |parts| ==> PartName(k) in outputs
    ensures forall p :: p in Descriptors(sha, digest, parts) ==> p.file in outputs
  {
    hide PartName, PartBytes, CanonicalBytes, PairsOf;
    var ds := Descriptors(sha, digest, parts);
    forall p | p in ds
      ensures p.file in outputs
    {
      var k :| 0 <= k < |ds| && ds[k] == p;
    }
  }

  // ----------------------------------------------------------------------------- resuming

  /** A directory the publication may start from, with nothing in it that it would leave behind. */
  ghost predicate IsClean(sha: Hash, loads: Loads, dir: Files, outputs: Files) {
    && Authorise(sha, loads, dir, outputs).Some?
    && forall name :: name in dir ==> name in outputs || name in Authorise(sha, loads, dir, outputs).value
  }

  /** Before the manifest is touched, a stopped run leaves its own authority in place. */
  lemma OldManifestStillVouches(sha: Hash, loads: Loads, dir: Files, outputs: Files, d: Files)
    requires MANIFEST_FILE in outputs && IsClean(sha, loads, dir, outputs)
    requires Reached(dir, outputs, Authorise(sha, loads, dir, outputs).value, d) && SameAt(dir, d, MANIFEST_FILE)
    ensures IsClean(sha, loads, d, outputs)
  {
    hide IsViewFile, AdmitManifest, PreviousViews, Field, ReadFile;
    var retired := Authorise(sha, loads, dir, outputs).value;
    var previous := ReadPrevious(loads, dir).value;
    assert ReadPrevious(loads, d) == ReadPrevious(loads, dir);
    forall name | name in d
      ensures name in outputs || name in retired
    {
      assert name !in outputs && name !in retired ==> SameAt(dir, d, name);
    }
    forall p | p in previous.parts && p.file !in outputs
      ensures IsProven(sha, loads, d, p)
    {
      assert p.file in retired;
      assert IsProven(sha, loads, dir, p);
      ProofCarries(sha, loads, dir, d, p);
    }
    RetiredAreParts(previous, outputs);
  }

  lemma ProofCarries(sha: Hash, loads: Loads, dir: Files, d: Files, p: Descriptor)
    requires IsProven(sha, loads, dir, p) && (p.file !in d || SameAt(dir, d, p.file))
    ensures IsProven(sha, loads, d, p)
  {}

  lemma RetiredAreParts(previous: Previous, outputs: Files)
    ensures forall name :: name in Retired(previous, outputs) ==> IsPartFile(previous.parts, name)
  {}

  /** Once the manifest is touched, only outputs are left in the directory. */
  lemma NewManifestVouches(sha: Hash, loads: Loads, index: Index, outputs: Files, d: Files)
    requires Parses(loads) && IsRendered(sha, index, outputs)
    requires MANIFEST_FILE in d && d[MANIFEST_FILE] <= outputs[MANIFEST_FILE]
    requires forall name :: name in d ==> name in outputs
    ensures IsClean(sha, loads, d, outputs)
  {
    hide ReadPrevious, Parses, IsRendered, IsProven;
    PartlyNewManifest(sha, loads, index, outputs, d);
  }

  /** A publication stopped anywhere leaves a directory the same publication may start from again. */
  lemma StoppedRunIsResumable(sha: Hash, loads: Loads, index: Index, dir: Files, outputs: Files, stop: Stop)
    requires Parses(loads) && IsRendered(sha, index, outputs) && MANIFEST_FILE in outputs && IsClean(sha, loads, dir, outputs)
    ensures IsClean(sha, loads, Publish(sha, loads, dir, outputs, stop), outputs)
  {
    hide Parses, IsRendered, Authorise, Publish;
    EveryRunReaches(sha, loads, dir, outputs, stop);
    var retired, d := Authorise(sha, loads, dir, outputs).value, Publish(sha, loads, dir, outputs, stop);
    if SameAt(dir, d, MANIFEST_FILE) {
      OldManifestStillVouches(sha, loads, dir, outputs, d);
    } else {
      assert IsPartly(d, MANIFEST_FILE, outputs[MANIFEST_FILE]);
      forall name | name in d
        ensures name in outputs
      {
        assert name !in outputs && name !in retired ==> SameAt(dir, d, name);
      }
      NewManifestVouches(sha, loads, index, outputs, d);
    }
  }

  /** The files of an old index whose view names are kept are a directory to start from. */
  lemma OldPublicationIsClean(sha: Hash, loads: Loads, before: Index, dir: Files, outputs: Files)
    requires Parses(loads) && IsRendered(sha, before, dir) && MANIFEST_FILE in outputs
    requires forall name :: name in dir && IsViewFile(Views(before.fields).value, name) ==> name in outputs
    ensures IsClean(sha, loads, dir, outputs)
  {
    hide Cut, WellKeyed, IndexValue, CanonicalBytes, Lookup, Views, PartName, Sorted, InputDigest, IsViewFile, ManifestValue, Parses,
         Descriptors, CountsOf, SortedDict, AdmitManifest, PreviousViews, Field, Render, IsNamedPart, IsPartFile, IsProven;
    RenderedManifest(sha, before, dir);
    RenderedIs(sha, before, dir);
    ManifestIsAdmitted(sha, before);
    ManifestSchema(sha, before);
    WholeOrTorn(sha, loads, before, dir[MANIFEST_FILE]);
    NewViews(before);
    var parts, digest := Cut(before).value, InputDigest(before.fields);
    var previous := ReadPrevious(loads, dir).value;
    assert previous.parts == Descriptors(sha, digest, parts);
    forall name | name in dir
      ensures name == MANIFEST_FILE || name in outputs || IsPartFile(previous.parts, name)
    {
      if name in Render(sha, before).value {
        RenderedName(sha, before, name);
        SameNames(sha, digest, parts, name);
      }
    }
    forall p | p in previous.parts
      ensures IsProven(sha, loads, dir, p)
    {
      PublishedPartIsProven(sha, loads, before, dir, p);
    }
    RetiredCovers(previous, outputs);
  }

  lemma RetiredCovers(previous: Previous, outputs: Files)
    ensures forall name :: IsPartFile(previous.parts, name) && name !in outputs ==> name in Retired(previous, outputs)
  {}

  lemma PublishedPartIsProven(sha: Hash, loads: Loads, index: Index, dir: Files, p: Descriptor)
    requires Parses(loads) && IsRendered(sha, index, dir) && Cut(index).Some?
    requires p in Descriptors(sha, InputDigest(index.fields), Cut(index).value)
    ensures IsProven(sha, loads, dir, p)
  {
    hide Cut, WellKeyed, IndexValue, CanonicalBytes, Lookup, Views, PartName, InputDigest, Parses, Render, PairsOf, PartValue, ReadFile, Cost, Admissible;
    RenderedIs(sha, index, dir);
    ParsesReads(loads);
    FilesLieInDirectory(sha, index, dir);
    var parts, digest := Cut(index).value, InputDigest(index.fields);
    var k :| 0 <= k < |parts| && Descriptors(sha, digest, parts)[k] == p;
    PartIsReady(index, k);
    CanonicalLength(PartValue(digest, parts[k]));
    FileReadsBack(loads, dir, PartName(k), PartValue(digest, parts[k]), p.bytes);
  }

  /** Publications of the same outputs, each stopped somewhere. */
  ghost function PublishEach(sha: Hash, loads: Loads, dir: Files, outputs: Files, stops: seq<Stop>): Files
    requires MANIFEST_FILE in outputs
  {
    if stops == [] then dir
    else Publish(sha, loads, PublishEach(sha, loads, dir, outputs, stops[..|stops| - 1]), outputs, stops[|stops| - 1])
  }

  lemma {:induction false} EachStoppedRunIsResumable(sha: Hash, loads: Loads, index: Index, dir: Files, outputs: Files, stops: seq<Stop>)
    requires Parses(loads) && IsRendered(sha, index, outputs) && MANIFEST_FILE in outputs && IsClean(sha, loads, dir, outputs)
    ensures IsClean(sha, loads, PublishEach(sha, loads, dir, outputs, stops), outputs)
  {
    hide Parses, IsRendered, IsClean, Publish;
    if stops != [] {
      var before := stops[..|stops| - 1];
      EachStoppedRunIsResumable(sha, loads, index, dir, outputs, before);
      StoppedRunIsResumable(sha, loads, index, PublishEach(sha, loads, dir, outputs, before), outputs, stops[|stops| - 1]);
    }
  }

  /** However often a publication was interrupted, a complete re-run ends with exactly the outputs, and they are readable. */
  lemma RerunCompletes(sha: Hash, loads: Loads, index: Index, dir: Files, outputs: Files, stops: seq<Stop>)
    requires Parses(loads) && IsRendered(sha, index, outputs) && MANIFEST_FILE in outputs && IsClean(sha, loads, dir, outputs)
    ensures Publish(sha, loads, PublishEach(sha, loads, dir, outputs, stops), outputs, Never) == outputs
    ensures ReadIndex(sha, loads, outputs) == Some(Restored(index))
  {
    hide Parses, IsRendered, Authorise, Publish, PublishEach, ReadIndex, Restored;
    EachStoppedRunIsResumable(sha, loads, index, dir, outputs, stops);
    CompleteRunIs(sha, loads, PublishEach(sha, loads, dir, outputs, stops), outputs);
    PublishedIsRead(sha, loads, index, outputs);
  }

  // ------------------------------------------------------------------------------ reading

  /** The manifest of the old index, or a prefix of the new one. */
  ghost predicate OldOrNewManifest(sha: Hash, before: Index, outputs: Files, d: Files)
    requires Cut(before).Some? && MANIFEST_FILE in outputs
  {
    MANIFEST_FILE in d ==> d[MANIFEST_FILE] == ManifestBytes(sha, before) || d[MANIFEST_FILE] <= outputs[MANIFEST_FILE]
  }

  lemma {:induction false} ManifestStaysOldOrNew(sha: Hash, loads: Loads, before: Index, dir: Files, outputs: Files, stops: seq<Stop>)
    requires Cut(before).Some? && MANIFEST_FILE in outputs && OldOrNewManifest(sha, before, outputs, dir)
    ensures OldOrNewManifest(sha, before, outputs, PublishEach(sha, loads, dir, outputs, stops))
  {
    hide Cut, ManifestBytes, Publish, Authorise;
    if stops != [] {
      var n := |stops| - 1;
      var d := PublishEach(sha, loads, dir, outputs, stops[..n]);
      ManifestStaysOldOrNew(sha, loads, before, dir, outputs, stops[..n]);
      if Authorise(sha, loads, d, outputs).Some? {
        EveryRunReaches(sha, loads, d, outputs, stops[n]);
      } else {
        RefusedRunChangesNothing(sha, loads, d, outputs, stops[n]);
      }
    }
  }

  lemma RefusedRunChangesNothing(sha: Hash, loads: Loads, dir: Files, outputs: Files, stop: Stop)
    requires MANIFEST_FILE in outputs && Authorise(sha, loads, dir, outputs).None?
    ensures Publish(sha, loads, dir, outputs, stop) == dir
  {}

  /** An index read under a given manifest has the logical identity that manifest states. */
  lemma ReadHasIdentity(sha: Hash, loads: Loads, index: Index, d: Files)
    requires Parses(loads) && Render(sha, index).Some? && WellKeyed(IndexValue(index)) && Cut(index).Some?
    requires MANIFEST_FILE in d && d[MANIFEST_FILE] <= ManifestBytes(sha, index)
    requires ReadIndex(sha, loads, d).Some?
    ensures var read := ReadIndex(sha, loads, d).value;
      && WellKeyed(IndexValue(read)) && InWireDomain(IndexValue(read))
      && sha(CanonicalBytes(IndexValue(read))) == sha(CanonicalBytes(IndexValue(index)))
  {
    hide Cut, WellKeyed, IndexValue, Lookup, Sorted, CanonicalBytes, ManifestValue, TotalBytes, Depth, Cost, FillParts, AdmitManifest,
         Descriptors, CountsOf, SortedDict, InputDigest, Parses, Finish, PartFiles;
    var v := ManifestValue(sha, index, Cut(index).value);
    WholeOrTorn(sha, loads, index, d[MANIFEST_FILE]);
    ManifestIsAdmitted(sha, index);
    if d[MANIFEST_FILE] != CanonicalBytes(v) { TornIsNotAdmitted(v, d[MANIFEST_FILE], Sorted(v)); }
    var m := AdmitManifest(d[MANIFEST_FILE], Sorted(v)).value;
    var slots := FillParts(sha, loads, d, m, m.parts).value;
    FinishedIs(sha, d, m, slots);
    IndexParts(index);
    assert m.parts[..|m.parts|] == m.parts;
    SlotsAreWellKeyed(sha, loads, d, m, |m.parts|);
    FinishedIsWellKeyed(sha, index, d, m, slots);
  }

  lemma FinishedIs(sha: Hash, d: Files, m: Admitted, slots: Slots)
    requires Finish(sha, d, m, slots).Some?
    ensures var read := Finish(sha, d, m, slots).value;
      && AllFull(slots.symbols) && AllFull(slots.edges) && AllFull(slots.tests)
      && read == Index(m.fields, Each(Full(slots.symbols), Full(slots.edges), Full(slots.tests)))
      && InWireDomain(IndexValue(read)) && m.logical == Str(sha(CanonicalBytes(IndexValue(read))))
  {
    hide IndexValue, CanonicalBytes, Views, IsViewFile, Cost, Depth;
  }

  ghost predicate WellKeyedSlots(slots: Slots) {
    forall f, i :: 0 <= i < |slots.Of(f)| && slots.Of(f)[i].Some? ==> WellKeyed(slots.Of(f)[i].value)
  }

  lemma {:induction false} SlotsAreWellKeyed(sha: Hash, loads: Loads, d: Files, m: Admitted, n: nat)
    requires Parses(loads) && n <= |m.parts| && FillParts(sha, loads, d, m, m.parts[..n]).Some?
    ensures WellKeyedSlots(FillParts(sha, loads, d, m, m.parts[..n]).value)
    decreases n
  {
    hide WellKeyed, AdmitPart, FillFamily, Parses;
    if n > 0 {
      assert m.parts[..n][..n - 1] == m.parts[..n - 1];
      SlotsAreWellKeyed(sha, loads, d, m, n - 1);
      var before := FillParts(sha, loads, d, m, m.parts[..n - 1]).value;
      var p := m.parts[n - 1];
      var observed := AdmitPart(sha, loads, d, m, p).value;
      ObservedIsWellKeyed(sha, loads, d, m, p);
      FamilyKeepsKeys(observed, p, Symbols, before);
      FamilyKeepsKeys(observed, p, Edges, FillFamily(observed, p, Symbols, before).value);
      FamilyKeepsKeys(observed, p, Tests, FillFamily(observed, p, Edges, FillFamily(observed, p, Symbols, before).value).value);
    }
  }

  lemma ObservedIsWellKeyed(sha: Hash, loads: Loads, d: Files, m: Admitted, p: Descriptor)
    requires Parses(loads) && AdmitPart(sha, loads, d, m, p).Some?
    ensures WellKeyed(AdmitPart(sha, loads, d, m, p).value)
  {
    hide WellKeyed, Lookup, IsCanonical, HasExactly, Reads;
    var v := ReadFile(loads, d, p.file, p.bytes).value.1;
    FieldIsWellKeyed(v.entries, "observed");
  }

  lemma FamilyKeepsKeys(v: Value, d: Descriptor, f: Family, slots: Slots)
    requires WellKeyed(v) && WellKeyedSlots(slots) && FillFamily(v, d, f, slots).Some?
    ensures WellKeyedSlots(FillFamily(v, d, f, slots).value)
  {
    hide Lookup, FillPairs, WellKeyedSlots;
    FieldIsWellKeyed(v.entries, FAMILY_KEYS[Position(f)]);
    var pairs := AsList(Field(v, FAMILY_KEYS[Position(f)])).value;
    assert WellKeyed(List(pairs));
    PairsKeepKeys(d.source, f, slots, pairs);
  }

  lemma {:induction false} PairsKeepKeys(source: string, f: Family, slots: Slots, pairs: seq<Value>)
    requires (forall i :: 0 <= i < |pairs| ==> WellKeyed(pairs[i])) && WellKeyedSlots(slots) && FillPairs(source, f, slots, pairs).Some?
    ensures WellKeyedSlots(FillPairs(source, f, slots, pairs).value)
  {
    hide RecordSource;
    if pairs != [] {
      var n := |pairs| - 1;
      PairsKeepKeys(source, f, slots, pairs[..n]);
      PairKeepsKeys(source, f, FillPairs(source, f, slots, pairs[..n]).value, pairs[n]);
    }
  }

  lemma PairKeepsKeys(source: string, f: Family, slots: Slots, pair: Value)
    requires WellKeyed(pair) && WellKeyedSlots(slots) && FillPair(source, f, slots, pair).Some?
    ensures WellKeyedSlots(FillPair(source, f, slots, pair).value)
  {
    hide RecordSource;
    assert WellKeyed(pair.items[1]);
  }

  lemma FinishedIsWellKeyed(sha: Hash, index: Index, d: Files, m: Admitted, slots: Slots)
    requires WellKeyed(Dict(index.fields)) && Lookup(index.fields, "observed").None? && DistinctKeys(index.fields)
    requires m.fields == SortedDict(index.fields) && Finish(sha, d, m, slots).Some? && WellKeyedSlots(slots)
    ensures WellKeyed(IndexValue(Finish(sha, d, m, slots).value))
  {
    FinishedIs(sha, d, m, slots);
    var read := Finish(sha, d, m, slots).value;
    FieldsTwice(index.fields);
    hide Lookup, Sorted, SortedEntries, CodeOrder, Finish, CanonicalBytes, HasLogicalIdentity, InWireDomain, ObservedValue, WellKeyed;
    LookupSorted(index.fields, "observed");
    SortedDictKeys(index.fields);
    KeysWithout(m.fields, Entry("observed", ObservedValue(read.observed)));
    FullSlotsAreWellKeyed(slots);
    ObservedListsWellKeyed(read.observed);
    ExtendedWellKeyed(m.fields, Entry("observed", ObservedValue(read.observed)));
  }

  lemma FullSlotsAreWellKeyed(slots: Slots)
    requires AllFull(slots.symbols) && AllFull(slots.edges) && AllFull(slots.tests) && WellKeyedSlots(slots)
    ensures forall i :: 0 <= i < |slots.symbols| ==> WellKeyed(Full(slots.symbols)[i])
    ensures forall i :: 0 <= i < |slots.edges| ==> WellKeyed(Full(slots.edges)[i])
    ensures forall i :: 0 <= i < |slots.tests| ==> WellKeyed(Full(slots.tests)[i])
  {
    hide WellKeyed;
    assert slots.Of(Symbols) == slots.symbols && slots.Of(Edges) == slots.edges && slots.Of(Tests) == slots.tests;
  }

  lemma ObservedListsWellKeyed(o: Each<seq<Value>>)
    requires forall i :: 0 <= i < |o.symbols| ==> WellKeyed(o.symbols[i])
    requires forall i :: 0 <= i < |o.edges| ==> WellKeyed(o.edges[i])
    requires forall i :: 0 <= i < |o.tests| ==> WellKeyed(o.tests[i])
    ensures WellKeyed(ObservedValue(o))
  {
    ListWellKeyed(o.symbols);
    ListWellKeyed(o.edges);
    ListWellKeyed(o.tests);
    hide WellKeyed, Lookup;
    var values := Each(List(o.symbols), List(o.edges), List(o.tests));
    FamilyFields(values);
    DictWellKeyed(FamilyEntries(values));
  }

  /**
    Between any number of interrupted publications of a new index over the files of an old one, in
    whatever state, a reader gets an error, the old index or the new one, never a mixture; anything
    else would be a collision of the hash function.
   */
  lemma ReaderSeesOldOrNew(sha: Hash, loads: Loads, before: Index, index: Index, dir: Files, outputs: Files, stops: seq<Stop>)
    requires Parses(loads) && IsRendered(sha, index, outputs) && MANIFEST_FILE in outputs
    requires Render(sha, before).Some? && WellKeyed(IndexValue(before)) && Cut(before).Some?
    requires OldOrNewManifest(sha, before, outputs, dir)
    ensures var d := PublishEach(sha, loads, dir, outputs, stops);
      match ReadIndex(sha, loads, d)
      case None => true
      case Some(read) =>
        || Same(IndexValue(read), IndexValue(before))
        || Same(IndexValue(read), IndexValue(index))
        || Collision(sha, CanonicalBytes(IndexValue(read)), CanonicalBytes(IndexValue(before)))
        || Collision(sha, CanonicalBytes(IndexValue(read)), CanonicalBytes(IndexValue(index)))
  {
    hide Parses, IsRendered, PublishEach, WellKeyed, IndexValue, Cut, Render, CanonicalBytes, Same, InWireDomain, ManifestBytes, ReadIndex;
    ManifestStaysOldOrNew(sha, loads, before, dir, outputs, stops);
    RenderedManifest(sha, index, outputs);
    RenderedIs(sha, index, outputs);
    var d := PublishEach(sha, loads, dir, outputs, stops);
    if ReadIndex(sha, loads, d).Some? {
      ReadsManifest(sha, loads, d);
      var of := if d[MANIFEST_FILE] == ManifestBytes(sha, before) then before else index;
      ReadHasIdentity(sha, loads, of, d);
      var read := ReadIndex(sha, loads, d).value;
      RenderedInDomain(sha, of);
      if CanonicalBytes(IndexValue(read)) == CanonicalBytes(IndexValue(of)) {
        CanonicalInjective(IndexValue(read), IndexValue(of));
      }
    }
  }

  lemma ReadsManifest(sha: Hash, loads: Loads, d: Files)
    requires ReadIndex(sha, loads, d).Some?
    ensures MANIFEST_FILE in d
  {}

  lemma RenderedInDomain(sha: Hash, index: Index)
    requires Render(sha, index).Some?
    ensures InWireDomain(IndexValue(index))
  {
    hide Cut, IndexValue, ManifestValue, TotalBytes, PartFiles, CanonicalBytes, Cost, Depth;
  }
}
