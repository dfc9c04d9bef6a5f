/** The architecture index cut into bounded files, one source to a part, and what a reader restores from them. */
module Transport {
  import opened Text
  import opened Values
  import opened Canonical
  import opened CanonicalForm
  import opened Projection

  const VERSION := "critical-source-index-v1"
  const TRANSPORT_VERSION := "critical-source-index-parts-v1"
  const PART_VERSION := "critical-source-facts-v1"
  const MANIFEST_FILE := "critical-index.json"
  const MAXIMUM_INDEX_BYTES := 2 * 1024 * 1024
  const MAXIMUM_TRANSPORT_BYTES := 3 * 1024 * 1024
  const MAXIMUM_PARTS := 40
  const MAXIMUM_RECORDS := 10_240

  datatype Family = Symbols | Edges | Tests

  /** One thing for each family of facts. */
  datatype Each<T> = Each(symbols: T, edges: T, tests: T) {
    function Of(f: Family): T {
      match f case Symbols => symbols case Edges => edges case Tests => tests
    }

    function Put(f: Family, t: T): (r: Each<T>)
      ensures forall g :: r.Of(g) == if g == f then t else Of(g)
    {
      match f case Symbols => this.(symbols := t) case Edges => this.(edges := t) case Tests => this.(tests := t)
    }
  }

  function FamilyEntries(values: Each<Value>): seq<Entry> {
    [Entry("symbols", values.symbols), Entry("edges", values.edges), Entry("tests", values.tests)]
  }

  /** The index: its three arrays of facts, and everything else it holds. */
  datatype Index = Index(fields: seq<Entry>, observed: Each<seq<Value>>)

  function ObservedValue(o: Each<seq<Value>>): Value {
    Dict(FamilyEntries(Each(List(o.symbols), List(o.edges), List(o.tests))))
  }

  function IndexValue(index: Index): Value {
    Dict(index.fields + [Entry("observed", ObservedValue(index.observed))])
  }

  // --------------------------------------------------------------- facts and sources

  /** A fact with its place in its family's array. */
  datatype Item = Item(family: Family, ordinal: nat, record: Value)

  /** `s.split("::", 1)[0]`. */
  function BeforeScope(s: string): string {
    if s == "" || s[..if |s| < 2 then |s| else 2] == "::" then "" else [s[0]] + BeforeScope(s[1..])
  }

  function AsText(v: Option<Value>): Option<string> {
    match v case Some(Str(s)) => Some(s) case _ => None
  }

  /** `_record_source`. */
  function RecordSource(f: Family, record: Value): Option<string> {
    if f == Edges then
      var s :- AsText(Field(record, "source"));
      Some(BeforeScope(s))
    else
      AsText(Field(record, "path"))
  }

  predicate IsInput(fields: seq<Entry>, source: string) {
    match Lookup(fields, "inputs") case Some(v) => Field(v, source).Some? case None => false
  }

  function FamilyItems(f: Family, records: seq<Value>): (r: seq<Item>)
    ensures |r| == |records| && forall i :: 0 <= i < |r| ==> r[i] == Item(f, i, records[i])
  {
    seq(|records|, i requires 0 <= i < |records| => Item(f, i, records[i]))
  }

  function AllItems(o: Each<seq<Value>>): seq<Item> {
    FamilyItems(Symbols, o.symbols) + FamilyItems(Edges, o.edges) + FamilyItems(Tests, o.tests)
  }

  function PairValue(x: Item): Value {
    List([Int(x.ordinal), x.record])
  }

  predicate Sourced(fields: seq<Entry>, x: Item) {
    RecordSource(x.family, x.record).Some? && IsInput(fields, RecordSource(x.family, x.record).value)
  }

  function SourceOf(x: Item): string {
    match RecordSource(x.family, x.record) case Some(s) => s case None => ""
  }

  function SourcesOf(xs: seq<Item>): (r: seq<string>)
    ensures |r| == |xs| && forall i :: 0 <= i < |xs| ==> r[i] == SourceOf(xs[i])
  {
    seq(|xs|, i requires 0 <= i < |xs| => SourceOf(xs[i]))
  }

  /** The facts of one source, in the order they were met. */
  function Group(xs: seq<Item>, source: string): seq<Item> {
    if xs == [] then []
    else
      var n := |xs| - 1;
      Group(xs[..n], source) + if SourceOf(xs[n]) == source then [xs[n]] else []
  }

  function PairBytes(xs: seq<Item>): nat {
    if xs == [] then 0 else PairBytes(xs[..|xs| - 1]) + Cost(PairValue(xs[|xs| - 1]))
  }

  // --------------------------------------------------------------------------- parts

  datatype Part = Part(source: string, items: seq<Item>)

  function Only(xs: seq<Item>, f: Family): seq<Item> {
    if xs == [] then []
    else
      var n := |xs| - 1;
      Only(xs[..n], f) + if xs[n].family == f then [xs[n]] else []
  }

  function Pairs(xs: seq<Item>): (r: seq<Value>)
    ensures |r| == |xs| && forall i :: 0 <= i < |xs| ==> r[i] == PairValue(xs[i])
  {
    seq(|xs|, i requires 0 <= i < |xs| => PairValue(xs[i]))
  }

  function PairsOf(xs: seq<Item>): Each<seq<Value>> {
    Each(Pairs(Only(xs, Symbols)), Pairs(Only(xs, Edges)), Pairs(Only(xs, Tests)))
  }

  function PartRecord(digest: Value, source: string, observed: Each<seq<Value>>): Value {
    Dict([Entry("schema", Str(PART_VERSION)), Entry("source_input_digest", digest),
          Entry("source_path", Str(source)), Entry("observed", ObservedValue(observed))])
  }

  function PartValue(digest: Value, part: Part): Value {
    PartRecord(digest, part.source, PairsOf(part.items))
  }

  function PartBytes(digest: Value, part: Part): nat {
    Cost(PartValue(digest, part)) + 1
  }

  /** `canonical(v, maximum)` returns. */
  predicate Written(v: Value, maximum: int) {
    Admissible(v, 0) && Cost(v) + 1 <= maximum
  }

  /** The parts of one source when `open` is already in the open part; `None` is a fact no part can hold. */
  function Pack(digest: Value, source: string, open: seq<Item>, rows: seq<Item>): Option<seq<Part>>
    decreases |rows|
  {
    if rows == [] then Some([Part(source, open)])
    else if PartBytes(digest, Part(source, open + [rows[0]])) <= MAXIMUM_INDEX_BYTES then
      Pack(digest, source, open + [rows[0]], rows[1..])
    else if open == [] || PartBytes(digest, Part(source, [rows[0]])) > MAXIMUM_INDEX_BYTES then None
    else
      var rest :- Pack(digest, source, [rows[0]], rows[1..]);
      Some([Part(source, open)] + rest)
  }

  function PackSources(fields: seq<Entry>, sources: seq<string>, xs: seq<Item>): Option<seq<Part>> {
    if sources == [] then Some([])
    else
      var digest :- Lookup(fields, "source_input_digest");
      if !Written(PartValue(digest, Part(sources[0], [])), MAXIMUM_TRANSPORT_BYTES) then None
      else
        var first :- Pack(digest, sources[0], [], Group(xs, sources[0]));
        var rest :- PackSources(fields, sources[1..], xs);
        Some(first + rest)
  }

  function InputDigest(fields: seq<Entry>): Value {
    Get(fields, "source_input_digest")
  }

  function TotalBytes(digest: Value, parts: seq<Part>): nat {
    if parts == [] then 0 else TotalBytes(digest, parts[..|parts| - 1]) + PartBytes(digest, parts[|parts| - 1])
  }

  predicate Emitted(digest: Value, parts: seq<Part>) {
    && |parts| <= MAXIMUM_PARTS
    && (forall k :: 0 <= k < |parts| ==> Written(PartValue(digest, parts[k]), MAXIMUM_INDEX_BYTES))
    && TotalBytes(digest, parts) <= MAXIMUM_TRANSPORT_BYTES
  }

  predicate Placeable(fields: seq<Entry>, x: Item) {
    Sourced(fields, x) && Written(PairValue(x), MAXIMUM_INDEX_BYTES)
  }

  /** The parts of an index, unless a fact has no known source or a limit is broken. */
  function Cut(index: Index): Option<seq<Part>> {
    var xs := AllItems(index.observed);
    if |xs| > MAXIMUM_RECORDS then None
    else if !(forall i :: 0 <= i < |xs| ==> Placeable(index.fields, xs[i])) then None
    else if PairBytes(xs) > MAXIMUM_TRANSPORT_BYTES then None
    else
      var parts :- PackSources(index.fields, SortedSet(SourcesOf(xs)), xs);
      if Emitted(InputDigest(index.fields), parts) then Some(parts) else None
  }

  // ------------------------------------------------------------------------ manifest

  /** `critical-facts-{ordinal:05d}.json`. */
  function PartName(ordinal: nat): string {
    "critical-facts-" + Pad(Decimal(ordinal), 5) + ".json"
  }

  function CountsOf(o: Each<seq<Value>>): Each<nat> {
    Each(|o.symbols|, |o.edges|, |o.tests|)
  }

  function CountsValue(c: Each<nat>): Value {
    Dict(FamilyEntries(Each(Int(c.symbols), Int(c.edges), Int(c.tests))))
  }

  datatype Descriptor = Descriptor(file: string, source: string, bytes: nat, sha: string, counts: Each<nat>)

  function Describe(sha: Hash, digest: Value, ordinal: nat, part: Part): Descriptor {
    Descriptor(PartName(ordinal), part.source, PartBytes(digest, part), sha(CanonicalBytes(PartValue(digest, part))),
               CountsOf(PairsOf(part.items)))
  }

  function DescriptorValue(d: Descriptor): Value {
    Dict([Entry("file", Str(d.file)), Entry("source_path", Str(d.source)), Entry("bytes", Int(d.bytes)),
          Entry("sha256", Str(d.sha)), Entry("counts", CountsValue(d.counts))])
  }

  function Descriptors(sha: Hash, digest: Value, parts: seq<Part>): (r: seq<Descriptor>)
    ensures |r| == |parts| && forall k :: 0 <= k < |parts| ==> r[k] == Describe(sha, digest, k, parts[k])
  {
    seq(|parts|, k requires 0 <= k < |parts| => Describe(sha, digest, k, parts[k]))
  }

  function DescriptorValues(ds: seq<Descriptor>): (r: seq<Value>)
    ensures |r| == |ds| && forall k :: 0 <= k < |ds| ==> r[k] == DescriptorValue(ds[k])
  {
    seq(|ds|, k requires 0 <= k < |ds| => DescriptorValue(ds[k]))
  }

  function ManifestValue(sha: Hash, index: Index, parts: seq<Part>): Value {
    Dict([Entry("schema", Str(TRANSPORT_VERSION)), Entry("index", Dict(index.fields)),
          Entry("counts", CountsValue(CountsOf(index.observed))),
          Entry("logical_sha256", Str(sha(CanonicalBytes(IndexValue(index))))),
          Entry("parts", List(DescriptorValues(Descriptors(sha, InputDigest(index.fields), parts))))])
  }

  type Files = map<string, Bytes>

  function PartFiles(digest: Value, parts: seq<Part>): Files {
    if parts == [] then map[]
    else
      var n := |parts| - 1;
      PartFiles(digest, parts[..n])[PartName(n) := CanonicalBytes(PartValue(digest, parts[n]))]
  }

  /** `render_transport`: the files of an index, or `None` where it refuses the index. */
  function Render(sha: Hash, index: Index): Option<Files> {
    var parts :- Cut(index);
    var manifest := ManifestValue(sha, index, parts);
    var total := TotalBytes(InputDigest(index.fields), parts) + Cost(manifest) + 1;
    if Written(IndexValue(index), MAXIMUM_TRANSPORT_BYTES) && Written(manifest, MAXIMUM_INDEX_BYTES)
       && total <= MAXIMUM_TRANSPORT_BYTES
    then Some(PartFiles(InputDigest(index.fields), parts)[MANIFEST_FILE := CanonicalBytes(manifest)])
    else None
  }

  // ------------------------------------------------------- the size of the open part

  lemma OnlyAppend(xs: seq<Item>, x: Item, f: Family)
    ensures Only(xs + [x], f) == Only(xs, f) + (if x.family == f then [x] else [])
    ensures Pairs(Only(xs + [x], f)) == if x.family == f then Pairs(Only(xs, f)) + [PairValue(x)] else Pairs(Only(xs, f))
  {
    hide PairValue;
    assert (xs + [x])[..|xs|] == xs;
    assert Only(xs, f) + [] == Only(xs, f);
  }

  lemma PairsAppend(xs: seq<Item>, x: Item)
    ensures PairsOf(xs + [x]) == PairsOf(xs).Put(x.family, PairsOf(xs).Of(x.family) + [PairValue(x)])
  {
    hide Only, PairValue;
    OnlyAppend(xs, x, Symbols);
    OnlyAppend(xs, x, Edges);
    OnlyAppend(xs, x, Tests);
    match x.family
    case Symbols =>
    case Edges =>
    case Tests =>
  }

  function Position(f: Family): nat {
    match f case Symbols => 0 case Edges => 1 case Tests => 2
  }

  lemma ObservedAppendCost(o: Each<seq<Value>>, f: Family, v: Value)
    ensures Cost(ObservedValue(o.Put(f, o.Of(f) + [v])))
         == Cost(ObservedValue(o)) + Cost(v) + (if o.Of(f) == [] then 0 else 1)
  {
    hide Cost;
    var es := FamilyEntries(Each(List(o.symbols), List(o.edges), List(o.tests)));
    ReplaceCost(es, Position(f), List(o.Of(f) + [v]));
    AppendCost(o.Of(f), v);
    assert ObservedValue(o.Put(f, o.Of(f) + [v])) == Dict(es[Position(f) := Entry(es[Position(f)].key, List(o.Of(f) + [v]))]);
  }

  /** The running size: a further fact costs its pair and, after the first of its family, a comma. */
  lemma PartBytesAppend(digest: Value, source: string, open: seq<Item>, x: Item)
    ensures PartBytes(digest, Part(source, open + [x]))
         == PartBytes(digest, Part(source, open)) + Cost(PairValue(x)) + (if Only(open, x.family) == [] then 0 else 1)
  {
    hide Cost, Only, PairValue;
    var before, after := PairsOf(open), PairsOf(open + [x]);
    PairsAppend(open, x);
    ObservedAppendCost(before, x.family, PairValue(x));
    assert before.Of(x.family) == Pairs(Only(open, x.family));
    var es := PartValue(digest, Part(source, open)).entries;
    ReplaceCost(es, 3, ObservedValue(after));
    assert PartValue(digest, Part(source, open + [x])) == Dict(es[3 := Entry(es[3].key, ObservedValue(after))]);
  }
}
