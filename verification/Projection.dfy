/** News rows, their index and detail projections, and the generation built from them in memory. */
module Projection {
  import opened Text
  import opened Sorting
  import opened Values
  import opened Json
  import opened Batching
  import opened ReceiptChain

  /**
    What the program takes from Python: SHA-256, the text of a float, `str()` of a value that is not
    a string, and `json.loads`. The results hold for every choice that is `Faithful`.
   */
  datatype Runtime = Runtime(sha: Hash, f: FloatText, str: Value -> string, loads: Bytes -> Option<Value>)

  /** The JSONL line of a value. */
  function Line(f: FloatText, v: Value): Bytes {
    Utf8(Dumps(f, v) + "\n")
  }

  ghost predicate Faithful(rt: Runtime) {
    IsFloatText(rt.f) && forall v :: IsJson(v) ==> rt.loads(Line(rt.f, v)) == Some(v)
  }

  /** Nothing impossible is asked of `json.loads`: lines of different values are different. */
  lemma LoadsExists(f: FloatText) returns (loads: Bytes -> Option<Value>)
    requires IsFloatText(f)
    ensures forall v :: IsJson(v) ==> loads(Line(f, v)) == Some(v)
  {
    loads := (b: Bytes) =>
      if exists v :: IsJson(v) && Line(f, v) == b then
      var v :| IsJson(v) && Line(f, v) == b; Some(v) else None;
    forall v, w | IsJson(v) && IsJson(w) && Line(f, v) == Line(f, w)
      ensures v == w
    {
      DecodeUtf8Inverts(Dumps(f, v) + "\n");
      DecodeUtf8Inverts(Dumps(f, w) + "\n");
      DumpsEnd(f, v, w, "\n", "\n");
    }
  }

  const CONTRACT := "news-projection-generation-v4"
  const MAX_ITEMS := 10_000

  /** The item and byte limits of one batch of a kind. */
  function MaxItems(kind: Kind): nat {
    match kind case Detail => 8 case Index => 4
  }

  function ByteLimit(kind: Kind): nat {
    match kind case Detail => 400_000 case Index => 100_000
  }

  const INDEX_FIELDS: seq<string> := [
    "category", "source", "source_item_id", "revision_number", "cluster_id",
    "source_published_time", "collector_first_seen_time", "headline",
    "content_characters", "content_status", "content_fetch_status",
    "content_error_type", "annotation_status", "annotation_reason_code",
    "annotation_reason", "model_visibility", "parsed_at", "emerging_topic_zh",
    "impact_status", "impact_class", "impact_event_state",
    "impact_update_type", "impact_assessed_at", "impact_expires_at",
    "impact_event_at", "impact_clock_source", "impact_reason_zh",
    "mirror_updated_at", "syndicated_source_count", "source_text_incomplete"]

  predicate IsIndexField(field: string) {
    field in INDEX_FIELDS
  }

  predicate IsOptional(field: string) {
    field == "syndicated_source_count" || field == "source_text_incomplete"
  }

  predicate IsIdentity(field: string) {
    field == "source" || field == "source_item_id" || field == "revision_number"
  }

  // ------------------------------------------------------------------- dictionaries

  function Lookup(es: seq<Entry>, key: string): Option<Value> {
    if es == [] then None else if es[0].key == key then Some(es[0].value) else Lookup(es[1..], key)
  }

  function Field(v: Value, key: string): Option<Value> {
    if v.Dict? then Lookup(v.entries, key) else None
  }

  /** `row.get(key)`. */
  function Get(es: seq<Entry>, key: string): Value {
    match Lookup(es, key) case None => Null case Some(v) => v
  }

  function SetKey(es: seq<Entry>, key: string, v: Value): seq<Entry> {
    if es == [] then [Entry(key, v)]
    else if es[0].key == key then [Entry(key, v)] + es[1..]
    else [es[0]] + SetKey(es[1..], key, v)
  }

  predicate Truthy(v: Value) {
    match v
    case Null => false
    case Bool(b) => b
    case Int(i) => i != 0
    case Float(x) => NormalBits(x) != 0
    case Str(s) => s != ""
    case List(items) => items != []
    case Tuple(items) => items != []
    case Dict(entries) => entries != []
    case Other => true
  }

  function ToStr(rt: Runtime, v: Value): string {
    if v.Str? then v.s else rt.str(v)
  }

  function Sha(rt: Runtime, v: Value): Digest {
    rt.sha(Wire(rt.f, v))
  }

  // --------------------------------------------------------------------- projections

  /** `stable_news_key`: an absent field counts as the empty string. */
  function StableKey(rt: Runtime, es: seq<Entry>): Digest {
    rt.sha(Utf8(Identity(rt, es, "source") + "\0" + Identity(rt, es, "source_item_id") + "\0"
                + Identity(rt, es, "revision_number")))
  }

  function Identity(rt: Runtime, es: seq<Entry>, field: string): string {
    match Lookup(es, field) case None => "" case Some(v) => ToStr(rt, v)
  }

  /** `content_addressed_detail_key`. */
  function DetailKey(rt: Runtime, es: seq<Entry>, payload: Value): Digest {
    Sha(rt, Sorted(Dict([Entry("source_identity", Str(StableKey(rt, es))), Entry("detail_hash", Str(Sha(rt, payload)))])))
  }

  function Payload(es: seq<Entry>): seq<Entry> {
    if es == [] then []
    else (if IsIndexField(es[0].key) then [] else [es[0]]) + Payload(es[1..])
  }

  /** Fills a dictionary with the row's values of the index fields. */
  function IndexEntries(es: seq<Entry>, fields: seq<string>, index: seq<Entry>): seq<Entry>
    decreases |fields|
  {
    if fields == [] then index
    else if IsOptional(fields[0]) && Lookup(es, fields[0]).None? then IndexEntries(es, fields[1..], index)
    else IndexEntries(es, fields[1..], SetKey(index, fields[0], Get(es, fields[0])))
  }

  datatype Projected = Projected(key: Digest, index: Value, detail: Value)

  function IndexRow(rt: Runtime, es: seq<Entry>, key: Digest): seq<Entry> {
    var index := IndexEntries(es, INDEX_FIELDS, []);
    var cluster := Get(index, "cluster_id");
    var clustered := SetKey(index, "cluster_id", Str(if Truthy(cluster) then ToStr(rt, cluster) else key));
    SetKey(SetKey(clustered, "detail_key", Str(key)), "mirror_contract", Str(CONTRACT))
  }

  function DetailRow(rt: Runtime, payload: Value, key: Digest): seq<Entry> {
    [Entry("detail_key", Str(key)), Entry("detail_hash", Str(Sha(rt, payload))), Entry("payload", payload)]
  }

  /** The projections of one row. */
  function Project(rt: Runtime, es: seq<Entry>): Projected {
    var payload := Dict(Payload(es));
    var key := DetailKey(rt, es, payload);
    Projected(key, Dict(IndexRow(rt, es, key)), Dict(DetailRow(rt, payload, key)))
  }

  // --------------------------------------- a projection keeps the identity of its row

  lemma {:induction false} LookupSetKey(es: seq<Entry>, key: string, v: Value, other: string)
    ensures Lookup(SetKey(es, key, v), other) == if other == key then Some(v) else Lookup(es, other)
  {
    if es != [] && es[0].key != key {
      LookupSetKey(es[1..], key, v, other);
      assert SetKey(es, key, v)[1..] == SetKey(es[1..], key, v);
    } else if es == [] {
      assert [Entry(key, v)][1..] == [];
    } else {
      assert ([Entry(key, v)] + es[1..])[1..] == es[1..];
    }
  }

  lemma {:induction false} IndexHasField(es: seq<Entry>, fields: seq<string>, index: seq<Entry>, field: string)
    requires !IsOptional(field)
    requires field in fields || Lookup(index, field) == Some(Get(es, field))
    ensures Lookup(IndexEntries(es, fields, index), field) == Some(Get(es, field))
    decreases |fields|
  {
    if fields != [] {
      assert fields == [fields[0]] + fields[1..];
      LookupSetKey(index, fields[0], Get(es, fields[0]), field);
      if IsOptional(fields[0]) && Lookup(es, fields[0]).None? {
        IndexHasField(es, fields[1..], index, field);
      } else {
        IndexHasField(es, fields[1..], SetKey(index, fields[0], Get(es, fields[0])), field);
      }
    }
  }

  predicate HasIdentity(es: seq<Entry>) {
    Lookup(es, "source").Some? && Lookup(es, "source_item_id").Some? && Lookup(es, "revision_number").Some?
  }

  /** The index row carries the row's identity and its detail key, so the key can be checked against it. */
  lemma ProjectionKeepsKey(rt: Runtime, es: seq<Entry>)
    requires HasIdentity(es)
    ensures var p := Project(rt, es);
      && DetailKey(rt, p.index.entries, Dict(Payload(es))) == p.key
      && Lookup(p.index.entries, "detail_key") == Some(Str(p.key))
      && Lookup(p.detail.entries, "detail_key") == Some(Str(p.key))
      && Lookup(p.detail.entries, "detail_hash") == Some(Str(Sha(rt, Dict(Payload(es)))))
      && Lookup(p.detail.entries, "payload") == Some(Dict(Payload(es)))
  {
    hide Sha, SetKey, IndexEntries, Payload, Sorted, ToStr, Truthy;
    var key := DetailKey(rt, es, Dict(Payload(es)));
    assert INDEX_FIELDS[1] == "source" && INDEX_FIELDS[2] == "source_item_id" && INDEX_FIELDS[3] == "revision_number";
    IndexRowKeeps(rt, es, key, "source");
    IndexRowKeeps(rt, es, key, "source_item_id");
    IndexRowKeeps(rt, es, key, "revision_number");
    IndexRowHasKey(rt, es, key);
    DetailRowFields(rt, Dict(Payload(es)), key);
  }

  lemma IndexRowKeeps(rt: Runtime, es: seq<Entry>, key: Digest, field: string)
    requires IsIdentity(field) && field in INDEX_FIELDS && Lookup(es, field).Some?
    ensures Lookup(IndexRow(rt, es, key), field) == Lookup(es, field)
  {
    hide IndexEntries, SetKey, Lookup;
    var index := IndexEntries(es, INDEX_FIELDS, []);
    var cluster := Get(index, "cluster_id");
    var named := Str(if Truthy(cluster) then ToStr(rt, cluster) else key);
    IndexHasField(es, INDEX_FIELDS, [], field);
    LookupSetKey(index, "cluster_id", named, field);
    LookupSetKey(SetKey(index, "cluster_id", named), "detail_key", Str(key), field);
    LookupSetKey(SetKey(SetKey(index, "cluster_id", named), "detail_key", Str(key)), "mirror_contract", Str(CONTRACT), field);
  }

  lemma IndexRowHasKey(rt: Runtime, es: seq<Entry>, key: Digest)
    ensures Lookup(IndexRow(rt, es, key), "detail_key") == Some(Str(key))
  {
    hide IndexEntries, SetKey, Lookup;
    var index := IndexEntries(es, INDEX_FIELDS, []);
    var cluster := Get(index, "cluster_id");
    var clustered := SetKey(index, "cluster_id", Str(if Truthy(cluster) then ToStr(rt, cluster) else key));
    LookupSetKey(clustered, "detail_key", Str(key), "detail_key");
    LookupSetKey(SetKey(clustered, "detail_key", Str(key)), "mirror_contract", Str(CONTRACT), "detail_key");
  }

  lemma LookupInPair(a: Entry, b: Entry, key: string)
    ensures Lookup([a, b], key) == if a.key == key then Some(a.value) else if b.key == key then Some(b.value) else None
  {
    var es := [a, b];
    assert es[1..] == [b] && [b][1..] == [];
    assert Lookup([b], key) == if b.key == key then Some(b.value) else None;
    assert Lookup(es, key) == if a.key == key then Some(a.value) else Lookup(es[1..], key);
  }

  lemma LookupInTriple(a: Entry, b: Entry, c: Entry, key: string)
    ensures Lookup([a, b, c], key) == if a.key == key then Some(a.value) else Lookup([b, c], key)
  {
    var es := [a, b, c];
    assert es[1..] == [b, c];
    assert Lookup(es, key) == if a.key == key then Some(a.value) else Lookup(es[1..], key);
  }

  lemma DetailRowFields(rt: Runtime, payload: Value, key: Digest)
    ensures Lookup(DetailRow(rt, payload, key), "detail_key") == Some(Str(key))
    ensures Lookup(DetailRow(rt, payload, key), "detail_hash") == Some(Str(Sha(rt, payload)))
    ensures Lookup(DetailRow(rt, payload, key), "payload") == Some(payload)
  {
    hide Sha, Lookup;
    assert |"detail_key"| != |"payload"| && |"detail_hash"| != |"payload"| && |"detail_key"| != |"detail_hash"|;
    var a, b, c := Entry("detail_key", Str(key)), Entry("detail_hash", Str(Sha(rt, payload))), Entry("payload", payload);
    LookupInTriple(a, b, c, "detail_key");
    LookupInTriple(a, b, c, "detail_hash");
    LookupInTriple(a, b, c, "payload");
    LookupInPair(b, c, "detail_hash");
    LookupInPair(b, c, "payload");
  }

  // --------------------------------------------------- projections are JSON values

  lemma {:induction false} SetKeyIsJson(es: seq<Entry>, key: string, v: Value)
    requires IsJson(Dict(es)) && IsJson(v)
    ensures IsJson(Dict(SetKey(es, key, v)))
    ensures forall e :: e in SetKey(es, key, v) ==> e in es || e == Entry(key, v)
  {
    if es != [] && es[0].key != key {
      TailIsJson(es);
      SetKeyIsJson(es[1..], key, v);
      ConsIsJson(es[0], SetKey(es[1..], key, v), es, key, v);
    }
  }

  lemma TailIsJson(es: seq<Entry>)
    requires IsJson(Dict(es)) && es != []
    ensures IsJson(Dict(es[1..])) && IsJson(es[0].value)
    ensures forall e :: e in es[1..] ==> e in es && e.key != es[0].key
  {
    forall e | e in es[1..]
      ensures e in es && e.key != es[0].key
    {
      var i :| 0 <= i < |es[1..]| && es[1..][i] == e;
      assert es[i + 1] == e;
    }
  }

  lemma ConsIsJson(first: Entry, rest: seq<Entry>, es: seq<Entry>, key: string, v: Value)
    requires es != [] && first == es[0] && IsJson(first.value) && IsJson(Dict(rest)) && first.key != key
    requires forall e :: e in es[1..] ==> e in es && e.key != first.key
    requires forall e :: e in rest ==> e in es[1..] || e == Entry(key, v)
    ensures IsJson(Dict([first] + rest))
    ensures forall e :: e in [first] + rest ==> e in es || e == Entry(key, v)
  {
    hide IsJson;
    assert forall i :: 0 <= i < |rest| ==> rest[i] in rest;
    JsonCons(first, rest);
  }

  lemma JsonCons(first: Entry, rest: seq<Entry>)
    requires IsJson(first.value) && IsJson(Dict(rest)) && forall i :: 0 <= i < |rest| ==> rest[i].key != first.key
    ensures IsJson(Dict([first] + rest))
  {}

  lemma {:induction false} LookupIsJson(es: seq<Entry>, key: string)
    requires IsJson(Dict(es))
    ensures IsJson(Get(es, key))
  {
    if es != [] { LookupIsJson(es[1..], key); }
  }

  lemma {:induction false} IndexEntriesAreJson(es: seq<Entry>, fields: seq<string>, index: seq<Entry>)
    requires IsJson(Dict(es)) && IsJson(Dict(index))
    ensures IsJson(Dict(IndexEntries(es, fields, index)))
    decreases |fields|
  {
    if fields != [] {
      LookupIsJson(es, fields[0]);
      SetKeyIsJson(index, fields[0], Get(es, fields[0]));
      if IsOptional(fields[0]) && Lookup(es, fields[0]).None? {
        IndexEntriesAreJson(es, fields[1..], index);
      } else {
        IndexEntriesAreJson(es, fields[1..], SetKey(index, fields[0], Get(es, fields[0])));
      }
    }
  }

  lemma {:induction false} PayloadIsJson(es: seq<Entry>)
    requires IsJson(Dict(es))
    ensures IsJson(Dict(Payload(es))) && forall e :: e in Payload(es) ==> e in es
  {
    hide IsIndexField;
    if es != [] {
      PayloadIsJson(es[1..]);
      assert forall i :: 0 <= i < |Payload(es[1..])| ==> Payload(es[1..])[i] in es[1..];
    }
  }

  lemma ProjectionIsJson(rt: Runtime, es: seq<Entry>)
    requires IsJson(Dict(es))
    ensures IsJson(Project(rt, es).index) && IsJson(Project(rt, es).detail)
  {
    hide Sha, SetKey, IndexEntries, Payload, ToStr, Truthy, DetailKey;
    var key := DetailKey(rt, es, Dict(Payload(es)));
    PayloadIsJson(es);
    var index := IndexEntries(es, INDEX_FIELDS, []);
    IndexEntriesAreJson(es, INDEX_FIELDS, []);
    var cluster := Get(index, "cluster_id");
    var named := Str(if Truthy(cluster) then ToStr(rt, cluster) else key);
    SetKeyIsJson(index, "cluster_id", named);
    SetKeyIsJson(SetKey(index, "cluster_id", named), "detail_key", Str(key));
    SetKeyIsJson(SetKey(SetKey(index, "cluster_id", named), "detail_key", Str(key)), "mirror_contract", Str(CONTRACT));
    assert "detail_key" != "detail_hash" && "detail_key" != "payload" && "detail_hash" != "payload";
  }

  function ProjectAll(rt: Runtime, rows: seq<seq<Entry>>): (r: seq<Projected>)
    ensures |r| == |rows| && forall i :: 0 <= i < |rows| ==> r[i] == Project(rt, rows[i])
  {
    seq(|rows|, i requires 0 <= i < |rows| => Project(rt, rows[i]))
  }

  /** `split_news_rows` before it separates the two projections: rows in the order of their keys. */
  function InKeyOrder(rt: Runtime, rows: seq<seq<Entry>>): (r: seq<Projected>)
    ensures |r| == |rows|
  {
    SortBy(ProjectAll(rt, rows), (p: Projected) => CodePoints(p.key))
  }

  function Rows(kind: Kind, ps: seq<Projected>): (r: seq<Row>)
    ensures |r| == |ps| && forall i :: 0 <= i < |ps| ==> r[i] == (if kind == Detail then ps[i].detail else ps[i].index)
  {
    seq(|ps|, i requires 0 <= i < |ps| => if kind == Detail then ps[i].detail else ps[i].index)
  }

  /** `sorted(set(keys))`. */
  function SortedSet(keys: seq<string>): (r: seq<string>) {
    if keys == [] then [] else AddKey(SortedSet(keys[..|keys| - 1]), keys[|keys| - 1])
  }

  function AddKey(sorted: seq<string>, key: string): seq<string> {
    if sorted == [] then [key]
    else if Less(CodePoints(key), CodePoints(sorted[0])) then [key] + sorted
    else if key == sorted[0] then sorted
    else [sorted[0]] + AddKey(sorted[1..], key)
  }

  /** The set of keys, each once, in code point order, whatever order they came in. */
  lemma {:induction false} SortedSetIs(keys: seq<string>)
    ensures forall k :: k in SortedSet(keys) <==> k in keys
    ensures Increasing((a: string, b: string) => Less(CodePoints(a), CodePoints(b)), SortedSet(keys))
    ensures |SortedSet(keys)| <= |keys|
  {
    if keys != [] {
      var n := |keys| - 1;
      SortedSetIs(keys[..n]);
      AddKeyIs(SortedSet(keys[..n]), keys[n]);
      assert keys == keys[..n] + [keys[n]];
    }
  }

  lemma {:induction false} AddKeyIs(sorted: seq<string>, key: string)
    requires Increasing((a: string, b: string) => Less(CodePoints(a), CodePoints(b)), sorted)
    ensures forall k :: k in AddKey(sorted, key) <==> k in sorted || k == key
    ensures Increasing((a: string, b: string) => Less(CodePoints(a), CodePoints(b)), AddKey(sorted, key))
    ensures |AddKey(sorted, key)| <= |sorted| + 1
  {
    hide Less;
    if sorted != [] {
      if Less(CodePoints(key), CodePoints(sorted[0])) {
        forall k | 0 <= k < |sorted|
          ensures Less(CodePoints(key), CodePoints(sorted[k]))
        {
          if k > 0 { LessTransitive(CodePoints(key), CodePoints(sorted[0]), CodePoints(sorted[k])); }
        }
      } else if key != sorted[0] {
        LessTotal(CodePoints(key), CodePoints(sorted[0]));
        CodePointsInjective(key, sorted[0]);
        AddKeyIs(sorted[1..], key);
        var rest := AddKey(sorted[1..], key);
        forall k | 0 <= k < |rest|
          ensures Less(CodePoints(sorted[0]), CodePoints(rest[k]))
        {
          assert rest[k] in rest;
          if rest[k] != key { var j :| 0 <= j < |sorted[1..]| && sorted[1..][j] == rest[k]; assert sorted[j + 1] == rest[k]; }
        }
      }
    }
  }

  lemma CodePointsInjective(a: string, b: string)
    ensures CodePoints(a) == CodePoints(b) <==> a == b
  {
    if CodePoints(a) == CodePoints(b) {
      assert |a| == |b|;
      forall i | 0 <= i < |a|
        ensures a[i] == b[i]
      {
        assert CodePoints(a)[i] == a[i] as int && CodePoints(b)[i] == b[i] as int;
      }
    }
  }

  function Strings(keys: seq<string>): (r: seq<Value>)
    ensures |r| == |keys|
  {
    seq(|keys|, i requires 0 <= i < |keys| => Str(keys[i]))
  }

  // -------------------------------------------------------------------- generations

  datatype Manifest = Manifest(
    generationId: Digest, snapshotId: Digest, windowStart: string, watermark: string,
    itemCount: nat, withdrawalCount: nat, sourceDigest: Digest, receiptDigest: Digest)

  function MakeManifest(rt: Runtime, windowStart: string, watermark: string, sourceDigest: Digest,
                        itemCount: nat, withdrawalCount: nat, receiptDigest: Digest): Manifest {
    var snapshot := Sha(rt, Sorted(Dict([
      Entry("contract_version", Str(CONTRACT)), Entry("window_start", Str(windowStart)),
      Entry("watermark", Str(watermark)), Entry("source_digest", Str(sourceDigest))])));
    var generation := Sha(rt, Sorted(Dict([
      Entry("snapshot_id", Str(snapshot)), Entry("contract_version", Str(CONTRACT))])));
    Manifest(generation, snapshot, windowStart, watermark, itemCount, withdrawalCount, sourceDigest, receiptDigest)
  }

  function Source(indexes: seq<Row>, details: seq<Row>, withdrawals: seq<string>): Value {
    Dict([Entry("index", List(indexes)), Entry("details", List(details)),
          Entry("withdrawal_keys", List(Strings(withdrawals)))])
  }

  datatype Generation = Generation(
    manifest: Manifest, indexRows: seq<Row>, detailRows: seq<Row>,
    indexBatches: seq<seq<Row>>, detailBatches: seq<seq<Row>>)

  function BatchesOf(g: Generation, kind: Kind): seq<seq<Row>> {
    match kind case Detail => g.detailBatches case Index => g.indexBatches
  }

  datatype Request = Request(rows: seq<seq<Entry>>, withdrawals: seq<seq<Entry>>, windowStart: string, watermark: string)

  /** The keys of the withdrawn rows, in the order they are met. */
  function WithdrawnKeys(rt: Runtime, withdrawals: seq<seq<Entry>>): (r: seq<string>)
    ensures |r| == |withdrawals|
  {
    seq(|withdrawals|, i requires 0 <= i < |withdrawals| => StableKey(rt, withdrawals[i]))
  }

  function CutKind(rt: Runtime, kind: Kind, ps: seq<Projected>): Option<seq<seq<Row>>> {
    Cut(rt.f, ByteLimit(kind), MaxItems(kind), [], Rows(kind, ps))
  }

  /** The generation of a request of any size. */
  function Assemble(rt: Runtime, q: Request): Option<Generation> {
    var ps := InKeyOrder(rt, q.rows);
    var keys := SortedSet(WithdrawnKeys(rt, q.withdrawals));
    var details :- CutKind(rt, Detail, ps);
    var indexes :- CutKind(rt, Index, ps);
    var dl :- Links(rt.sha, Detail, 0, details);
    var il :- Links(rt.sha, Index, 0, indexes);
    var source := Sha(rt, Sorted(Source(Rows(Index, ps), Rows(Detail, ps), keys)));
    Some(Generation(
      MakeManifest(rt, q.windowStart, q.watermark, source, |ps|, |keys|, Chain(rt.sha, dl + il)),
      Rows(Index, ps), Rows(Detail, ps), indexes, details))
  }

  predicate WithinCapacity(rt: Runtime, q: Request) {
    |q.rows| <= MAX_ITEMS && |SortedSet(WithdrawnKeys(rt, q.withdrawals))| <= MAX_ITEMS
  }

  /** `build_news_projection_generation`. */
  method Build(rt: Runtime, q: Request) returns (r: Option<Generation>)
    ensures r == if WithinCapacity(rt, q) then Assemble(rt, q) else None
  {
    if |q.rows| > MAX_ITEMS {
      return None;
    }
    var ps := InKeyOrder(rt, q.rows);
    var keys := SortedSet(WithdrawnKeys(rt, q.withdrawals));
    if |keys| > MAX_ITEMS {
      return None;
    }
    var source := Sha(rt, Sorted(Source(Rows(Index, ps), Rows(Detail, ps), keys)));
    var details := BoundedBatches(rt.f, Rows(Detail, ps), ByteLimit(Detail), MaxItems(Detail));
    if details.None? {
      return None;
    }
    var indexes := BoundedBatches(rt.f, Rows(Index, ps), ByteLimit(Index), MaxItems(Index));
    if indexes.None? {
      return None;
    }
    var receipt := ReceiptDigest(rt.sha, details.value, indexes.value);
    if receipt.None? {
      return None;
    }
    return Some(Generation(
      MakeManifest(rt, q.windowStart, q.watermark, source, |ps|, |keys|, receipt.value),
      Rows(Index, ps), Rows(Detail, ps), indexes.value, details.value));
  }

  /** What a request for the batch at an offset must return; `None` is the rejection. */
  function BatchAt(batches: seq<seq<Row>>, offset: int): Option<seq<Row>> {
    if offset == 0 then Some(if batches == [] then [] else batches[0])
    else if batches == [] || offset < 0 then None
    else BatchAt(batches[1..], offset - |batches[0]|)
  }

  /** `NewsProjectionGeneration.batch_items`. */
  method BatchItems(g: Generation, kind: Kind, offset: int) returns (r: Option<seq<Row>>)
    ensures r == BatchAt(BatchesOf(g, kind), offset)
  {
    var batches := BatchesOf(g, kind);
    if offset < 0 {
      return None;
    }
    var cursor := 0;
    ghost var rest := batches;
    for k := 0 to |batches|
      invariant rest == batches[k..] && BatchAt(rest, offset - cursor) == BatchAt(batches, offset)
    {
      if cursor == offset {
        return Some(batches[k]);
      }
      cursor := cursor + |batches[k]|;
      rest := rest[1..];
    }
    if cursor == offset {
      return Some([]);
    }
    return None;
  }
}
