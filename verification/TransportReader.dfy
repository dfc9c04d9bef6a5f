/** Reading a directory of index files: bounded admission, every fact put back in its place, the logical identity checked. */
module TransportReader {
  import opened Text
  import opened Values
  import opened Canonical
  import opened CanonicalForm
  import opened Projection
  import opened Transport

  type Loads = Bytes -> Option<Value>

  // ------------------------------------------------------------------------ shapes

  /** `set(v) == set(keys)` for a dictionary. */
  predicate HasExactly(v: Value, keys: seq<string>) {
    && v.Dict?
    && (forall e :: e in v.entries ==> e.key in keys)
    && (forall key :: key in keys ==> Lookup(v.entries, key).Some?)
  }

  const FAMILY_KEYS := ["symbols", "edges", "tests"]

  function AsCount(v: Option<Value>): Option<nat> {
    match v case Some(Int(i)) => if 0 <= i <= MAXIMUM_RECORDS then Some(i) else None case _ => None
  }

  function AsList(v: Option<Value>): Option<seq<Value>> {
    match v case Some(List(items)) => Some(items) case _ => None
  }

  function AsDict(v: Option<Value>): Option<seq<Entry>> {
    match v case Some(Dict(es)) => Some(es) case _ => None
  }

  /** `_counts`. */
  function ReadCounts(v: Value): Option<Each<nat>> {
    if !HasExactly(v, FAMILY_KEYS) then None
    else
      var symbols :- AsCount(Field(v, "symbols"));
      var edges :- AsCount(Field(v, "edges"));
      var tests :- AsCount(Field(v, "tests"));
      if symbols + edges + tests <= MAXIMUM_RECORDS then Some(Each(symbols, edges, tests)) else None
  }

  predicate IsDigest(s: string) {
    |s| == 64 && forall i :: 0 <= i < |s| ==> IsHexDigit(s[i] as int)
  }

  /** The checks of one part descriptor. */
  function ReadDescriptor(fields: seq<Entry>, ordinal: nat, v: Value): Option<Descriptor> {
    if !HasExactly(v, ["file", "source_path", "bytes", "sha256", "counts"]) then None
    else
      var file :- AsText(Field(v, "file"));
      var source :- AsText(Field(v, "source_path"));
      var sha :- AsText(Field(v, "sha256"));
      var size :- AsSize(Field(v, "bytes"));
      var counts :- ReadCounts(Get(v.entries, "counts"));
      if file == PartName(ordinal) && IsInput(fields, source) && IsDigest(sha)
      then Some(Descriptor(file, source, size, sha, counts)) else None
  }

  function AsSize(v: Option<Value>): Option<nat> {
    match v case Some(Int(i)) => if 0 < i <= MAXIMUM_INDEX_BYTES then Some(i) else None case _ => None
  }

  function ReadDescriptors(fields: seq<Entry>, vs: seq<Value>): (r: Option<seq<Descriptor>>)
    ensures r.Some? ==> |r.value| == |vs|
  {
    if vs == [] then Some([])
    else
      var n := |vs| - 1;
      var before :- ReadDescriptors(fields, vs[..n]);
      var d :- ReadDescriptor(fields, n, vs[n]);
      Some(before + [d])
  }

  function AddCounts(a: Each<nat>, b: Each<nat>): Each<nat> {
    Each(a.symbols + b.symbols, a.edges + b.edges, a.tests + b.tests)
  }

  function SumCounts(ds: seq<Descriptor>): Each<nat> {
    if ds == [] then Each(0, 0, 0) else AddCounts(SumCounts(ds[..|ds| - 1]), ds[|ds| - 1].counts)
  }

  function SumBytes(ds: seq<Descriptor>): nat {
    if ds == [] then 0 else SumBytes(ds[..|ds| - 1]) + ds[|ds| - 1].bytes
  }

  datatype Admitted = Admitted(fields: seq<Entry>, counts: Each<nat>, logical: Value, parts: seq<Descriptor>)

  /** `canonical(v).encode("utf-8") == raw`. */
  predicate IsCanonical(v: Value, raw: Bytes) {
    Written(v, MAXIMUM_TRANSPORT_BYTES) && CanonicalBytes(v) == raw
  }

  /** `_admit_manifest`. */
  function AdmitManifest(raw: Bytes, v: Value): Option<Admitted> {
    if !(IsCanonical(v, raw) && HasExactly(v, ["schema", "index", "counts", "logical_sha256", "parts"])
         && Field(v, "schema") == Some(Str(TRANSPORT_VERSION))) then None
    else
      var fields :- AsDict(Field(v, "index"));
      var counts :- ReadCounts(Get(v.entries, "counts"));
      var list :- AsList(Field(v, "parts"));
      if Lookup(fields, "schema") != Some(Str(VERSION)) || Lookup(fields, "observed").Some? || |list| > MAXIMUM_PARTS then None
      else
        var parts :- ReadDescriptors(fields, list);
        if |raw| + SumBytes(parts) <= MAXIMUM_TRANSPORT_BYTES && SumCounts(parts) == counts
        then Some(Admitted(fields, counts, Get(v.entries, "logical_sha256"), parts)) else None
  }

  /** `_read_generated`. */
  function ReadFile(loads: Loads, dir: Files, name: string, maximum: int): Option<(Bytes, Value)> {
    if name !in dir || |dir[name]| > maximum then None
    else
      var v :- loads(dir[name]);
      Some((dir[name], v))
  }

  // ---------------------------------------------------------------------- the parts

  /** The arrays being restored; an empty slot waits for its fact. */
  type Slots = Each<seq<Option<Value>>>

  function EmptySlots(counts: Each<nat>): Slots {
    Each(seq(counts.symbols, _ => None), seq(counts.edges, _ => None), seq(counts.tests, _ => None))
  }

  /** The checks of one pair of a part; the fact goes to its slot. */
  function FillPair(source: string, f: Family, slots: Slots, pair: Value): Option<Slots> {
    match pair
    case List(items) =>
      if |items| == 2 && items[0].Int? && 0 <= items[0].i < |slots.Of(f)| && slots.Of(f)[items[0].i].None?
         && RecordSource(f, items[1]) == Some(source)
      then Some(slots.Put(f, slots.Of(f)[items[0].i := Some(items[1])]))
      else None
    case _ => None
  }

  function FillPairs(source: string, f: Family, slots: Slots, pairs: seq<Value>): Option<Slots> {
    if pairs == [] then Some(slots)
    else
      var before :- FillPairs(source, f, slots, pairs[..|pairs| - 1]);
      FillPair(source, f, before, pairs[|pairs| - 1])
  }

  function FillFamily(v: Value, d: Descriptor, f: Family, slots: Slots): Option<Slots> {
    var pairs :- AsList(Field(v, FAMILY_KEYS[Position(f)]));
    if |pairs| == d.counts.Of(f) then FillPairs(d.source, f, slots, pairs) else None
  }

  /** The identity a part must have: the file its descriptor names, canonical, of this index and this source. */
  function AdmitPart(sha: Hash, loads: Loads, dir: Files, m: Admitted, d: Descriptor): Option<Value> {
    var (raw, v) :- ReadFile(loads, dir, d.file, d.bytes);
    if |raw| == d.bytes && sha(raw) == d.sha && IsCanonical(v, raw)
       && HasExactly(v, ["schema", "source_input_digest", "source_path", "observed"])
       && Field(v, "schema") == Some(Str(PART_VERSION))
       && Field(v, "source_input_digest") == Lookup(m.fields, "source_input_digest")
       && Field(v, "source_path") == Some(Str(d.source))
       && HasExactly(Get(v.entries, "observed"), FAMILY_KEYS)
    then Field(v, "observed") else None
  }

  function FillPart(sha: Hash, loads: Loads, dir: Files, m: Admitted, d: Descriptor, slots: Slots): Option<Slots> {
    var observed :- AdmitPart(sha, loads, dir, m, d);
    var symbols :- FillFamily(observed, d, Symbols, slots);
    var edges :- FillFamily(observed, d, Edges, symbols);
    FillFamily(observed, d, Tests, edges)
  }

  function FillParts(sha: Hash, loads: Loads, dir: Files, m: Admitted, ds: seq<Descriptor>): Option<Slots> {
    if ds == [] then Some(EmptySlots(m.counts))
    else
      var before :- FillParts(sha, loads, dir, m, ds[..|ds| - 1]);
      FillPart(sha, loads, dir, m, ds[|ds| - 1], before)
  }

  predicate AllFull(slots: seq<Option<Value>>) {
    forall i :: 0 <= i < |slots| ==> slots[i].Some?
  }

  function Full(slots: seq<Option<Value>>): (r: seq<Value>)
    requires AllFull(slots)
    ensures |r| == |slots| && forall i :: 0 <= i < |slots| ==> r[i] == slots[i].value
  {
    seq(|slots|, i requires 0 <= i < |slots| => slots[i].value)
  }

  // ----------------------------------------------------------------- the directory

  /** `[a-z][a-z0-9-]{0,63}`. */
  predicate IsViewName(name: string) {
    && 1 <= |name| <= 64
    && 'a' <= name[0] <= 'z'
    && forall i :: 1 <= i < |name| ==> 'a' <= name[i] <= 'z' || IsDigit(name[i]) || name[i] == '-'
  }

  /** The names under which the index allows views. */
  function Views(fields: seq<Entry>): Option<set<string>> {
    var allowed :- AsDict(Lookup(fields, "allowed"));
    ViewNames(allowed)
  }

  function ViewNames(allowed: seq<Entry>): Option<set<string>> {
    var views :- AsDict(Lookup(allowed, "views"));
    if forall e :: e in views ==> IsViewName(e.key) then Some(set e | e in views :: e.key) else None
  }

  predicate IsPartFile(ds: seq<Descriptor>, name: string) {
    exists d :: d in ds && d.file == name
  }

  predicate IsViewFile(views: set<string>, name: string) {
    exists view :: view in views && name == view + ".mmd"
  }

  predicate HasLogicalIdentity(sha: Hash, m: Admitted, index: Index) {
    Written(IndexValue(index), MAXIMUM_TRANSPORT_BYTES) && m.logical == Str(sha(CanonicalBytes(IndexValue(index))))
  }

  /** The checks after all facts are back: no empty place, no unexpected file, the logical identity. */
  function Finish(sha: Hash, dir: Files, m: Admitted, slots: Slots): Option<Index> {
    if !(AllFull(slots.symbols) && AllFull(slots.edges) && AllFull(slots.tests)) then None
    else
      var views :- Views(m.fields);
      var index := Index(m.fields, Each(Full(slots.symbols), Full(slots.edges), Full(slots.tests)));
      if (forall name :: name in dir ==> name == MANIFEST_FILE || IsPartFile(m.parts, name) || IsViewFile(views, name))
         && HasLogicalIdentity(sha, m, index)
      then Some(index) else None
  }

  /** `read_generated_index`. */
  function ReadIndex(sha: Hash, loads: Loads, dir: Files): Option<Index> {
    var (raw, v) :- ReadFile(loads, dir, MANIFEST_FILE, MAXIMUM_INDEX_BYTES);
    var m :- AdmitManifest(raw, v);
    var slots :- FillParts(sha, loads, dir, m, m.parts);
    Finish(sha, dir, m, slots)
  }

  // ------------------------------------------------------------- what a success means

  /** Every filled place holds a fact that names one of the index's inputs. */
  ghost predicate FromInputs(fields: seq<Entry>, slots: Slots) {
    forall f, i :: 0 <= i < |slots.Of(f)| && slots.Of(f)[i].Some? ==> Sourced(fields, Item(f, i, slots.Of(f)[i].value))
  }

  lemma {:induction false} PairsFromInputs(fields: seq<Entry>, source: string, f: Family, slots: Slots, pairs: seq<Value>)
    requires IsInput(fields, source) && FromInputs(fields, slots) && FillPairs(source, f, slots, pairs).Some?
    ensures FromInputs(fields, FillPairs(source, f, slots, pairs).value)
  {
    hide RecordSource, IsInput;
    if pairs != [] {
      PairsFromInputs(fields, source, f, slots, pairs[..|pairs| - 1]);
    }
  }

  lemma FamilyFromInputs(fields: seq<Entry>, v: Value, d: Descriptor, f: Family, slots: Slots)
    requires IsInput(fields, d.source) && FromInputs(fields, slots) && FillFamily(v, d, f, slots).Some?
    ensures FromInputs(fields, FillFamily(v, d, f, slots).value)
  {
    hide FromInputs, FillPairs, IsInput, Lookup;
    PairsFromInputs(fields, d.source, f, slots, AsList(Field(v, FAMILY_KEYS[Position(f)])).value);
  }

  lemma {:induction false} PartsAreVerified(sha: Hash, loads: Loads, dir: Files, m: Admitted, ds: seq<Descriptor>)
    requires (forall d :: d in ds ==> IsInput(m.fields, d.source)) && FillParts(sha, loads, dir, m, ds).Some?
    ensures FromInputs(m.fields, FillParts(sha, loads, dir, m, ds).value)
    ensures forall d :: d in ds ==> d.file in dir && |dir[d.file]| == d.bytes && sha(dir[d.file]) == d.sha
  {
    hide FromInputs, FillFamily, IsInput, IsCanonical, HasExactly, Lookup, Field;
    if ds == [] {
      NothingFromInputs(m.fields, m.counts);
    } else {
      var n := |ds| - 1;
      assert ds == ds[..n] + [ds[n]];
      PartsAreVerified(sha, loads, dir, m, ds[..n]);
      var before := FillParts(sha, loads, dir, m, ds[..n]).value;
      var observed := AdmitPart(sha, loads, dir, m, ds[n]).value;
      var one := FillFamily(observed, ds[n], Symbols, before).value;
      FamilyFromInputs(m.fields, observed, ds[n], Symbols, before);
      FamilyFromInputs(m.fields, observed, ds[n], Edges, one);
      FamilyFromInputs(m.fields, observed, ds[n], Tests, FillFamily(observed, ds[n], Edges, one).value);
    }
  }

  lemma NothingFromInputs(fields: seq<Entry>, counts: Each<nat>)
    ensures FromInputs(fields, EmptySlots(counts))
  {}

  lemma {:induction false} DescriptorsNameInputs(fields: seq<Entry>, vs: seq<Value>)
    requires ReadDescriptors(fields, vs).Some?
    ensures forall d :: d in ReadDescriptors(fields, vs).value ==> IsInput(fields, d.source)
  {
    hide IsInput, HasExactly, ReadCounts, PartName;
    if vs != [] { DescriptorsNameInputs(fields, vs[..|vs| - 1]); }
  }

  /** A part file is canonical, of the current version, and made for this index and for the source its descriptor names. */
  ghost predicate BelongsTo(loads: Loads, dir: Files, fields: seq<Entry>, d: Descriptor) {
    && d.file in dir && loads(dir[d.file]).Some?
    && var v := loads(dir[d.file]).value;
       && HasExactly(v, ["schema", "source_input_digest", "source_path", "observed"]) && CanonicalBytes(v) == dir[d.file]
       && Field(v, "schema") == Some(Str("critical-source-facts-v1"))
       && Field(v, "source_input_digest") == Lookup(fields, "source_input_digest")
       && Field(v, "source_path") == Some(Str(d.source))
       && Field(v, "observed").Some?
       && forall f :: HasAsMany(Field(v, "observed").value, f, d.counts.Of(f))
  }

  /** An object lists so many facts of a family. */
  predicate HasAsMany(observed: Value, f: Family, count: nat) {
    var facts := Field(observed, match f case Symbols => "symbols" case Edges => "edges" case Tests => "tests");
    facts.Some? && facts.value.List? && |facts.value.items| == count
  }

  lemma PartBelongs(sha: Hash, loads: Loads, dir: Files, m: Admitted, d: Descriptor, slots: Slots)
    requires FillPart(sha, loads, dir, m, d, slots).Some?
    ensures BelongsTo(loads, dir, m.fields, d)
  {
    hide HasExactly, FillPairs, Field, Lookup, CanonicalBytes, Cost, Admissible;
    var observed := AdmitPart(sha, loads, dir, m, d).value;
    assert HasAsMany(observed, Symbols, d.counts.symbols) && HasAsMany(observed, Edges, d.counts.edges) && HasAsMany(observed, Tests, d.counts.tests);
  }

  lemma {:induction false} PartsBelong(sha: Hash, loads: Loads, dir: Files, m: Admitted, ds: seq<Descriptor>)
    requires FillParts(sha, loads, dir, m, ds).Some?
    ensures forall d :: d in ds ==> BelongsTo(loads, dir, m.fields, d)
  {
    hide FillPart, BelongsTo;
    if ds != [] {
      var n := |ds| - 1;
      assert ds == ds[..n] + [ds[n]];
      PartsBelong(sha, loads, dir, m, ds[..n]);
      PartBelongs(sha, loads, dir, m, ds[n], FillParts(sha, loads, dir, m, ds[..n]).value);
    }
  }

  /** Nothing lies in the directory but the manifest, the parts it lists and drawings of the index's views. */
  ghost predicate HoldsNothingElse(dir: Files, fields: seq<Entry>, parts: seq<Descriptor>) {
    forall name :: name in dir ==>
      || name == MANIFEST_FILE
      || (exists d :: d in parts && d.file == name)
      || (exists view :: name == view + ".mmd" && IsView(fields, view))
  }

  ghost predicate IsView(fields: seq<Entry>, view: string) {
    && Lookup(fields, "allowed").Some? && Field(Lookup(fields, "allowed").value, "views").Some?
    && var views := Field(Lookup(fields, "allowed").value, "views").value;
       views.Dict? && exists e :: e in views.entries && e.key == view
  }

  lemma ViewsAre(fields: seq<Entry>, view: string)
    requires Views(fields).Some?
    ensures view in Views(fields).value <==> IsView(fields, view)
  {
    hide Lookup, IsViewName;
  }

  lemma FinishedHoldsNothingElse(sha: Hash, dir: Files, m: Admitted, slots: Slots)
    requires Finish(sha, dir, m, slots).Some?
    ensures HoldsNothingElse(dir, m.fields, m.parts)
  {
    hide Views, IsView, HasLogicalIdentity, AllFull, Full;
    var views := Views(m.fields).value;
    forall name | name in dir && name != MANIFEST_FILE && !IsPartFile(m.parts, name)
      ensures exists view :: name == view + ".mmd" && IsView(m.fields, view)
    {
      var view :| view in views && name == view + ".mmd";
      ViewsAre(m.fields, view);
    }
  }

  /**
    Whatever a directory holds: an index is read from it only under a canonical manifest whose part
    files belong to it and have exactly the recorded bytes and hashes, with nothing else beside them
    but drawings; every fact names one of its inputs, and the whole has the recorded logical identity.
   */
  lemma ReadIsVerified(sha: Hash, loads: Loads, dir: Files)
    requires ReadIndex(sha, loads, dir).Some?
    ensures MANIFEST_FILE in dir && loads(dir[MANIFEST_FILE]).Some?
    ensures var raw := dir[MANIFEST_FILE];
      var manifest := AdmitManifest(raw, loads(raw).value);
      var index := ReadIndex(sha, loads, dir).value;
      && CanonicalBytes(loads(raw).value) == raw
      && manifest.Some? && index.fields == manifest.value.fields
      && (forall d :: d in manifest.value.parts ==> d.file in dir && |dir[d.file]| == d.bytes && sha(dir[d.file]) == d.sha)
      && (forall d :: d in manifest.value.parts ==> BelongsTo(loads, dir, index.fields, d))
      && HoldsNothingElse(dir, index.fields, manifest.value.parts)
      && (forall f, i :: 0 <= i < |index.observed.Of(f)| ==> Sourced(index.fields, Item(f, i, index.observed.Of(f)[i])))
      && manifest.value.logical == Str(sha(CanonicalBytes(IndexValue(index))))
  {
    hide IndexValue, CanonicalBytes, IsInput, ReadCounts, HasExactly, FillParts, Views, IsViewFile, IsPartFile, ReadDescriptors, Cost,
         Admissible, Lookup, RecordSource, BelongsTo, HoldsNothingElse;
    var raw := dir[MANIFEST_FILE];
    var v := loads(raw).value;
    var m := AdmitManifest(raw, v).value;
    DescriptorsNameInputs(m.fields, AsList(Field(v, "parts")).value);
    PartsAreVerified(sha, loads, dir, m, m.parts);
    PartsBelong(sha, loads, dir, m, m.parts);
    FinishedHoldsNothingElse(sha, dir, m, FillParts(sha, loads, dir, m, m.parts).value);
    var slots := FillParts(sha, loads, dir, m, m.parts).value;
    assert slots.Of(Symbols) == slots.symbols && slots.Of(Edges) == slots.edges && slots.Of(Tests) == slots.tests;
  }

  // ------------------------------------------------------------------------- the methods

  method CheckCanonical(v: Value, raw: Bytes) returns (ok: bool)
    ensures ok == IsCanonical(v, raw)
  {
    hide CanonicalText, Cost, Admissible;
    var text := Canonical.Canonical(v, MAXIMUM_TRANSPORT_BYTES);
    ok := text.Some? && Utf8(text.value) == raw;
  }

  /** The descriptors are checked one by one while the totals are kept. */
  method AdmitDescriptors(fields: seq<Entry>, list: seq<Value>, size: nat)
    returns (r: Option<seq<Descriptor>>, total: nat, totals: Each<nat>)
    ensures r == ReadDescriptors(fields, list)
    ensures r.Some? ==> total == size + SumBytes(r.value) && totals == SumCounts(r.value)
  {
    hide ReadDescriptor, ReadDescriptors, SumCounts, SumBytes, AddCounts;
    var parts: seq<Descriptor> := [];
    total, totals := size, Each(0, 0, 0);
    NothingSummed(fields, list);
    for ordinal := 0 to |list|
      invariant ReadDescriptors(fields, list[..ordinal]) == Some(parts)
      invariant total == size + SumBytes(parts) && totals == SumCounts(parts)
    {
      DescriptorStep(fields, list, ordinal);
      var d := ReadDescriptor(fields, ordinal, list[ordinal]);
      if d.None? {
        NoDescriptorsAfter(fields, list, ordinal + 1);
        return None, total, totals;
      }
      SumsStep(parts, d.value);
      totals := AddCounts(totals, d.value.counts);
      total := total + d.value.bytes;
      parts := parts + [d.value];
    }
    assert list[..|list|] == list;
    r := Some(parts);
  }

  /** `_admit_manifest`. */
  method Admit(raw: Bytes, v: Value) returns (r: Option<Admitted>)
    ensures r == AdmitManifest(raw, v)
  {
    hide IsCanonical, ReadDescriptors, ReadCounts, Lookup, HasExactly, SumBytes, SumCounts;
    var canonical := CheckCanonical(v, raw);
    if !canonical || !HasExactly(v, ["schema", "index", "counts", "logical_sha256", "parts"])
       || Field(v, "schema") != Some(Str(TRANSPORT_VERSION)) {
      return None;
    }
    var fields := AsDict(Field(v, "index"));
    if fields.None? || Lookup(fields.value, "schema") != Some(Str(VERSION)) || Lookup(fields.value, "observed").Some? {
      return None;
    }
    var counts := ReadCounts(Get(v.entries, "counts"));
    var list := AsList(Field(v, "parts"));
    if counts.None? || list.None? || |list.value| > MAXIMUM_PARTS {
      return None;
    }
    var parts, total, totals := AdmitDescriptors(fields.value, list.value, |raw|);
    if parts.None? || total > MAXIMUM_TRANSPORT_BYTES || totals != counts.value {
      return None;
    }
    return Some(Admitted(fields.value, counts.value, Get(v.entries, "logical_sha256"), parts.value));
  }

  lemma NothingSummed(fields: seq<Entry>, list: seq<Value>)
    ensures ReadDescriptors(fields, list[..0]) == Some([]) && SumBytes([]) == 0 && SumCounts([]) == Each(0, 0, 0)
  {}

  lemma SumsStep(ds: seq<Descriptor>, d: Descriptor)
    ensures SumBytes(ds + [d]) == SumBytes(ds) + d.bytes && SumCounts(ds + [d]) == AddCounts(SumCounts(ds), d.counts)
  {
    assert (ds + [d])[..|ds|] == ds;
  }

  lemma DescriptorStep(fields: seq<Entry>, vs: seq<Value>, n: nat)
    requires n < |vs|
    ensures ReadDescriptors(fields, vs[..n + 1])
         == match (ReadDescriptors(fields, vs[..n]), ReadDescriptor(fields, n, vs[n]))
            case (Some(before), Some(d)) => Some(before + [d])
            case _ => None
  {
    hide ReadDescriptor;
    assert vs[..n + 1][..n] == vs[..n];
  }

  lemma {:induction false} NoDescriptorsAfter(fields: seq<Entry>, vs: seq<Value>, n: nat)
    requires n <= |vs| && ReadDescriptors(fields, vs[..n]).None?
    ensures ReadDescriptors(fields, vs).None?
    decreases |vs| - n
  {
    hide ReadDescriptor;
    if n < |vs| {
      DescriptorStep(fields, vs, n);
      NoDescriptorsAfter(fields, vs, n + 1);
    } else {
      assert vs[..n] == vs;
    }
  }

  method RestorePair(source: string, f: Family, slots: Slots, pair: Value) returns (r: Option<Slots>)
    ensures r == FillPair(source, f, slots, pair)
  {
    hide RecordSource;
    if !pair.List? || |pair.items| != 2 || !pair.items[0].Int? {
      return None;
    }
    var ordinal, record := pair.items[0].i, pair.items[1];
    if !(0 <= ordinal < |slots.Of(f)|) || slots.Of(f)[ordinal].Some? || RecordSource(f, record) != Some(source) {
      return None;
    }
    return Some(slots.Put(f, slots.Of(f)[ordinal := Some(record)]));
  }

  /** The pairs of one family of a part, each to its place. */
  method RestorePairs(source: string, f: Family, slots: Slots, pairs: seq<Value>) returns (r: Option<Slots>)
    ensures r == FillPairs(source, f, slots, pairs)
  {
    hide FillPair;
    var observed := slots;
    for n := 0 to |pairs|
      invariant FillPairs(source, f, slots, pairs[..n]) == Some(observed)
    {
      assert pairs[..n + 1][..n] == pairs[..n];
      var next := RestorePair(source, f, observed, pairs[n]);
      if next.None? {
        NoPairsAfter(source, f, slots, pairs, n + 1);
        return None;
      }
      observed := next.value;
    }
    assert pairs[..|pairs|] == pairs;
    return Some(observed);
  }

  lemma {:induction false} NoPairsAfter(source: string, f: Family, slots: Slots, pairs: seq<Value>, n: nat)
    requires n <= |pairs| && FillPairs(source, f, slots, pairs[..n]).None?
    ensures FillPairs(source, f, slots, pairs).None?
    decreases |pairs| - n
  {
    hide FillPair;
    if n < |pairs| {
      assert pairs[..n + 1][..n] == pairs[..n];
      NoPairsAfter(source, f, slots, pairs, n + 1);
    } else {
      assert pairs[..n] == pairs;
    }
  }

  method RestoreFamily(v: Value, d: Descriptor, f: Family, slots: Slots) returns (r: Option<Slots>)
    ensures r == FillFamily(v, d, f, slots)
  {
    hide FillPairs, Lookup;
    var pairs := AsList(Field(v, FAMILY_KEYS[Position(f)]));
    if pairs.None? || |pairs.value| != d.counts.Of(f) {
      return None;
    }
    r := RestorePairs(d.source, f, slots, pairs.value);
  }

  /** All parts in the order of their descriptors. */
  method RestoreParts(sha: Hash, loads: Loads, dir: Files, m: Admitted) returns (r: Option<Slots>)
    ensures r == FillParts(sha, loads, dir, m, m.parts)
  {
    hide AdmitPart, FillFamily;
    var observed: Slots := EmptySlots(m.counts);
    for n := 0 to |m.parts|
      invariant FillParts(sha, loads, dir, m, m.parts[..n]) == Some(observed)
    {
      assert m.parts[..n + 1][..n] == m.parts[..n];
      ghost var before := observed;
      var part := AdmitPart(sha, loads, dir, m, m.parts[n]);
      if part.None? {
        NoPartsAfter(sha, loads, dir, m, n + 1);
        return None;
      }
      var symbols := RestoreFamily(part.value, m.parts[n], Symbols, observed);
      if symbols.None? {
        NoPartsAfter(sha, loads, dir, m, n + 1);
        return None;
      }
      var edges := RestoreFamily(part.value, m.parts[n], Edges, symbols.value);
      if edges.None? {
        NoPartsAfter(sha, loads, dir, m, n + 1);
        return None;
      }
      var tests := RestoreFamily(part.value, m.parts[n], Tests, edges.value);
      if tests.None? {
        NoPartsAfter(sha, loads, dir, m, n + 1);
        return None;
      }
      observed := tests.value;
    }
    assert m.parts[..|m.parts|] == m.parts;
    return Some(observed);
  }

  lemma {:induction false} NoPartsAfter(sha: Hash, loads: Loads, dir: Files, m: Admitted, n: nat)
    requires n <= |m.parts| && FillParts(sha, loads, dir, m, m.parts[..n]).None?
    ensures FillParts(sha, loads, dir, m, m.parts).None?
    decreases |m.parts| - n
  {
    hide FillPart;
    if n < |m.parts| {
      assert m.parts[..n + 1][..n] == m.parts[..n];
      NoPartsAfter(sha, loads, dir, m, n + 1);
    } else {
      assert m.parts[..n] == m.parts;
    }
  }

  /** `read_generated_index`: every total is admitted before a part is opened. */
  method ReadGeneratedIndex(sha: Hash, loads: Loads, dir: Files) returns (r: Option<Index>)
    ensures r == ReadIndex(sha, loads, dir)
  {
    hide AdmitManifest, FillParts, Finish;
    var file := ReadFile(loads, dir, MANIFEST_FILE, MAXIMUM_INDEX_BYTES);
    if file.None? {
      return None;
    }
    var m := Admit(file.value.0, file.value.1);
    if m.None? {
      return None;
    }
    var slots := RestoreParts(sha, loads, dir, m.value);
    if slots.None? {
      return None;
    }
    r := Finish(sha, dir, m.value, slots.value);
  }

  /** What an admitted manifest promises: few parts, named in turn, each of a known source and of bounded size, and totals that agree. */
  lemma AdmittedIsBounded(raw: Bytes, v: Value)
    requires AdmitManifest(raw, v).Some?
    ensures var m := AdmitManifest(raw, v).value;
      && |m.parts| <= 40 && |raw| + SumBytes(m.parts) <= 3 * 1024 * 1024 && SumCounts(m.parts) == m.counts
      && m.counts.symbols + m.counts.edges + m.counts.tests <= 10_240
      && (forall k :: 0 <= k < |m.parts| ==>
            && m.parts[k].file == "critical-facts-" + Pad(Decimal(k), 5) + ".json" && IsInput(m.fields, m.parts[k].source)
            && 0 < m.parts[k].bytes <= 2 * 1024 * 1024 && IsDigest(m.parts[k].sha) && |m.parts[k].sha| == 64)
      && v.Dict? && (forall e :: e in v.entries ==> e.key in ["schema", "index", "counts", "logical_sha256", "parts"])
      && Field(v, "schema") == Some(Str("critical-source-index-parts-v1"))
      && Lookup(m.fields, "schema") == Some(Str(VERSION)) && Lookup(m.fields, "observed").None? && CanonicalBytes(v) == raw
  {
    hide Lookup, HasExactly, CanonicalBytes, Admissible, Cost, IsInput, SumBytes, SumCounts, PartName, ReadCounts;
    var m := AdmitManifest(raw, v).value;
    DescriptorsAreBounded(m.fields, AsList(Field(v, "parts")).value);
    CountsAreBounded(Get(v.entries, "counts"));
    HasNothingElse(v);
    forall k | 0 <= k < |m.parts|
      ensures m.parts[k].file == "critical-facts-" + Pad(Decimal(k), 5) + ".json"
    {
      NameIs(k);
    }
  }

  lemma HasNothingElse(v: Value)
    requires HasExactly(v, ["schema", "index", "counts", "logical_sha256", "parts"])
    ensures forall e :: e in v.entries ==> e.key in ["schema", "index", "counts", "logical_sha256", "parts"]
  {}

  lemma NameIs(k: nat)
    ensures PartName(k) == "critical-facts-" + Pad(Decimal(k), 5) + ".json"
  {}

  lemma CountsAreBounded(v: Value)
    ensures ReadCounts(v).Some? ==> var c := ReadCounts(v).value; c.symbols + c.edges + c.tests <= 10_240
  {
    hide HasExactly, Lookup;
  }

  lemma {:induction false} DescriptorsAreBounded(fields: seq<Entry>, vs: seq<Value>)
    ensures ReadDescriptors(fields, vs).Some? ==>
      var ds := ReadDescriptors(fields, vs).value;
      forall k :: 0 <= k < |ds| ==>
        ds[k].file == PartName(k) && IsInput(fields, ds[k].source) && 0 < ds[k].bytes <= MAXIMUM_INDEX_BYTES && IsDigest(ds[k].sha)
    decreases |vs|
  {
    hide HasExactly, Lookup, PartName, IsInput, IsDigest, ReadCounts;
    if vs != [] { DescriptorsAreBounded(fields, vs[..|vs| - 1]); }
  }
}
