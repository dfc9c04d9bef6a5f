/** What the digests of a projection pin down. */
module ProjectionBinding {
  import opened Text
  import opened Sorting
  import opened Values
  import opened Json
  import opened CanonicalForm
  import opened Canonical
  import opened Batching
  import opened ReceiptChain
  import opened Projection
  import opened ProjectedRows

  // -------------------------------------------------------- sorted JSON is JSON, and binds

  lemma {:induction false} SortedStaysJson(v: Value)
    requires IsJson(v)
    ensures IsJson(Sorted(v))
    decreases v
  {
    match v
    case List(items) =>
      forall i | 0 <= i < |items|
        ensures IsJson(SortedItems(items)[i])
      {
        SortedItemsAt(items, i);
        SortedStaysJson(items[i]);
      }
    case Dict(es) => DictStaysJson(es);
    case _ =>
  }

  lemma {:induction false} DictStaysJson(es: seq<Entry>)
    requires IsJson(Dict(es))
    ensures IsJson(Dict(SortedDict(es)))
    decreases es
  {
    assert DistinctKeys(es) && forall i :: 0 <= i < |es| ==> IsJson(es[i].value);
    hide Sorted, SortedEntries, CodeOrder;
    SortedDictKeys(es);
    SortedDictMembers(es);
    forall k | 0 <= k < |es|
      ensures IsJson(SortedDict(es)[k].value)
    {
      hide IsJson;
      assert SortedDict(es)[k] in SortedDict(es);
      var i :| 0 <= i < |es| && EachSorted(es)[i] == SortedDict(es)[k];
      SortedStaysJson(es[i].value);
    }
  }

  /** Equal digests of two JSON values with sorted keys mean that the values match; otherwise the hash function collides. */
  lemma ShaBinds(rt: Runtime, v: Value, w: Value) returns (x: Bytes, y: Bytes)
    requires IsFloatText(rt.f) && IsJson(v) && IsJson(w) && Sha(rt, Sorted(v)) == Sha(rt, Sorted(w))
    ensures Matches(v, w) || Collision(rt.sha, x, y)
  {
    hide Sorted, Dumps, Utf8, Matches, IsJson;
    x, y := Wire(rt.f, Sorted(v)), Wire(rt.f, Sorted(w));
    SortedStaysJson(v);
    SortedStaysJson(w);
    JsonIsWellKeyed(v);
    JsonIsWellKeyed(w);
    if x == y {
      DecodeUtf8Inverts(Dumps(rt.f, Sorted(v)));
      DecodeUtf8Inverts(Dumps(rt.f, Sorted(w)));
      assert Dumps(rt.f, Sorted(v)) + "" == Dumps(rt.f, Sorted(v)) && Dumps(rt.f, Sorted(w)) + "" == Dumps(rt.f, Sorted(w));
      DumpsEnd(rt.f, Sorted(v), Sorted(w), "", "");
      SameIsMatching(v, w);
    }
  }

  /** Equal digests of two JSON values as they stand mean that they are equal. */
  lemma PlainShaBinds(rt: Runtime, v: Value, w: Value) returns (x: Bytes, y: Bytes)
    requires IsFloatText(rt.f) && IsJson(v) && IsJson(w) && Sha(rt, v) == Sha(rt, w)
    ensures v == w || Collision(rt.sha, x, y)
  {
    hide Dumps, Utf8, IsJson;
    x, y := Wire(rt.f, v), Wire(rt.f, w);
    if x == y {
      DecodeUtf8Inverts(Dumps(rt.f, v));
      DecodeUtf8Inverts(Dumps(rt.f, w));
      assert Dumps(rt.f, v) + "" == Dumps(rt.f, v) && Dumps(rt.f, w) + "" == Dumps(rt.f, w);
      DumpsEnd(rt.f, v, w, "", "");
    }
  }

  // ------------------------------------------------------------------------- the keys

  predicate NoZero(s: string) {
    forall i :: 0 <= i < |s| ==> s[i] != '\0'
  }

  lemma CutAtZero(a: string, b: string, x: string, y: string)
    requires NoZero(a) && NoZero(b) && a + "\0" + x == b + "\0" + y
    ensures a == b && x == y
  {
    var s, t := a + "\0" + x, b + "\0" + y;
    assert s[|a|] == '\0' && t[|b|] == '\0';
    assert s[..|a|] == a && t[..|b|] == b && s[|a| + 1..] == x && t[|b| + 1..] == y;
  }

  lemma GroupAtZero(a: string, b: string, c: string)
    ensures a + "\0" + b + "\0" + c == a + "\0" + (b + "\0" + c)
  {}

  lemma CutTwice(a1: string, a2: string, a3: string, b1: string, b2: string, b3: string)
    requires NoZero(a1) && NoZero(b1) && NoZero(a2) && NoZero(b2)
    requires a1 + "\0" + a2 + "\0" + a3 == b1 + "\0" + b2 + "\0" + b3
    ensures a1 == b1 && a2 == b2 && a3 == b3
  {
    hide NoZero;
    GroupAtZero(a1, a2, a3);
    GroupAtZero(b1, b2, b3);
    CutAtZero(a1, b1, a2 + "\0" + a3, b2 + "\0" + b3);
    CutAtZero(a2, b2, a3, b3);
  }

  /** What a row has under a field, as text; nothing for a field it has not. */
  function FieldText(rt: Runtime, es: seq<Entry>, field: string): string {
    var v := Lookup(es, field);
    if v.None? then [] else if v.value.Str? then v.value.s else rt.str(v.value)
  }

  lemma IdentityIs(rt: Runtime, es: seq<Entry>, field: string)
    ensures Identity(rt, es, field) == FieldText(rt, es, field)
  {
    hide Lookup;
  }

  ghost predicate SameText(rt: Runtime, a: seq<Entry>, b: seq<Entry>, field: string) {
    FieldText(rt, a, field) == FieldText(rt, b, field)
  }

  /** Neither the source nor the item of a row has a NUL in it. */
  predicate IsPlain(rt: Runtime, es: seq<Entry>) {
    NoZero(FieldText(rt, es, "source")) && NoZero(FieldText(rt, es, "source_item_id"))
  }

  /** Plain rows have equal stable keys exactly when they have the same source, item and revision, or the hash function collides. */
  lemma StableKeyBinds(rt: Runtime, a: seq<Entry>, b: seq<Entry>) returns (x: Bytes, y: Bytes)
    requires IsPlain(rt, a) && IsPlain(rt, b)
    ensures !Collision(rt.sha, x, y) ==>
      (StableKey(rt, a) == StableKey(rt, b)
       <==> SameText(rt, a, b, "source") && SameText(rt, a, b, "source_item_id") && SameText(rt, a, b, "revision_number"))
  {
    hide Utf8, Identity, NoZero, FieldText;
    var a1, a2, a3 := FieldText(rt, a, "source"), FieldText(rt, a, "source_item_id"), FieldText(rt, a, "revision_number");
    var b1, b2, b3 := FieldText(rt, b, "source"), FieldText(rt, b, "source_item_id"), FieldText(rt, b, "revision_number");
    var s, t := a1 + "\0" + a2 + "\0" + a3, b1 + "\0" + b2 + "\0" + b3;
    x, y := Utf8(s), Utf8(t);
    KeyIs(rt, a);
    KeyIs(rt, b);
    if x == y {
      DecodeUtf8Inverts(s);
      DecodeUtf8Inverts(t);
      CutTwice(a1, a2, a3, b1, b2, b3);
    }
  }

  lemma KeyIs(rt: Runtime, es: seq<Entry>)
    ensures StableKey(rt, es)
         == rt.sha(Utf8(FieldText(rt, es, "source") + "\0" + FieldText(rt, es, "source_item_id") + "\0" + FieldText(rt, es, "revision_number")))
  {
    hide Utf8, Identity, FieldText;
    IdentityIs(rt, es, "source");
    IdentityIs(rt, es, "source_item_id");
    IdentityIs(rt, es, "revision_number");
  }

  /** Equal detail keys mean the same source revision and exactly the same content, unless the hash function collides. */
  lemma DetailKeyBinds(rt: Runtime, a: seq<Entry>, b: seq<Entry>, payload: Value, other: Value) returns (x: Bytes, y: Bytes)
    requires IsFloatText(rt.f) && IsJson(payload) && IsJson(other) && DetailKey(rt, a, payload) == DetailKey(rt, b, other)
    ensures (StableKey(rt, a) == StableKey(rt, b) && payload == other) || Collision(rt.sha, x, y)
  {
    hide Sorted, StableKey, Matches, IsJson, Sha;
    var v := Dict([Entry("source_identity", Str(StableKey(rt, a))), Entry("detail_hash", Str(Sha(rt, payload)))]);
    var w := Dict([Entry("source_identity", Str(StableKey(rt, b))), Entry("detail_hash", Str(Sha(rt, other)))]);
    assert IsJson(v) && IsJson(w) by {
      PairIsJson("source_identity", StableKey(rt, a), "detail_hash", Sha(rt, payload));
      PairIsJson("source_identity", StableKey(rt, b), "detail_hash", Sha(rt, other));
    }
    x, y := ShaBinds(rt, v, w);
    if !Collision(rt.sha, x, y) {
      PairMatches("source_identity", StableKey(rt, a), StableKey(rt, b), "detail_hash", Sha(rt, payload), Sha(rt, other));
      x, y := PlainShaBinds(rt, payload, other);
    }
  }

  lemma PairIsJson(k: string, a: string, l: string, b: string)
    requires |k| != |l|
    ensures IsJson(Dict([Entry(k, Str(a)), Entry(l, Str(b))]))
  {}

  /** Matching objects have matching values at every key. */
  lemma MatchingField(es: seq<Entry>, fs: seq<Entry>, i: nat, j: nat)
    requires Matches(Dict(es), Dict(fs)) && DistinctKeys(fs) && i < |es| && j < |fs| && es[i].key == fs[j].key
    ensures Matches(es[i].value, fs[j].value)
  {
    assert HasMatch(fs, es[i]);
    var k :| 0 <= k < |fs| && fs[k].key == es[i].key && Matches(es[i].value, fs[k].value);
    assert k == j;
  }

  lemma PairMatches(k: string, a: string, c: string, l: string, b: string, d: string)
    requires |k| != |l|
    requires Matches(Dict([Entry(k, Str(a)), Entry(l, Str(b))]), Dict([Entry(k, Str(c)), Entry(l, Str(d))]))
    ensures a == c && b == d
  {
    var es, fs := [Entry(k, Str(a)), Entry(l, Str(b))], [Entry(k, Str(c)), Entry(l, Str(d))];
    MatchingField(es, fs, 0, 0);
    MatchingField(es, fs, 1, 1);
  }

  // ------------------------------------------------------------------- the generation's identity

  function SnapshotEntries(windowStart: string, watermark: string, sourceDigest: string): seq<Entry> {
    [Entry("contract_version", Str(CONTRACT)), Entry("window_start", Str(windowStart)), Entry("watermark", Str(watermark)),
     Entry("source_digest", Str(sourceDigest))]
  }

  lemma SnapshotKeys(windowStart: string, watermark: string, sourceDigest: string)
    ensures var es := SnapshotEntries(windowStart, watermark, sourceDigest);
      DistinctKeys(es) && IsJson(Dict(es))
  {
    assert |"contract_version"| == 16 && |"window_start"| == 12 && |"watermark"| == 9 && |"source_digest"| == 13;
  }

  /** Generations with one identity have one window, watermark and source digest, unless the hash function collides. */
  lemma GenerationIdBinds(rt: Runtime, a: Manifest, b: Manifest) returns (x: Bytes, y: Bytes)
    requires IsFloatText(rt.f) && a.generationId == b.generationId
    requires a == MakeManifest(rt, a.windowStart, a.watermark, a.sourceDigest, a.itemCount, a.withdrawalCount, a.receiptDigest)
    requires b == MakeManifest(rt, b.windowStart, b.watermark, b.sourceDigest, b.itemCount, b.withdrawalCount, b.receiptDigest)
    ensures !Collision(rt.sha, x, y) ==>
      a.snapshotId == b.snapshotId && a.windowStart == b.windowStart && a.watermark == b.watermark && a.sourceDigest == b.sourceDigest
  {
    hide Sorted, Matches, IsJson, Sha;
    PairIsJson("snapshot_id", a.snapshotId, "contract_version", CONTRACT);
    PairIsJson("snapshot_id", b.snapshotId, "contract_version", CONTRACT);
    x, y := ShaBinds(rt, Dict([Entry("snapshot_id", Str(a.snapshotId)), Entry("contract_version", Str(CONTRACT))]),
                     Dict([Entry("snapshot_id", Str(b.snapshotId)), Entry("contract_version", Str(CONTRACT))]));
    if !Collision(rt.sha, x, y) {
      PairMatches("snapshot_id", a.snapshotId, b.snapshotId, "contract_version", CONTRACT, CONTRACT);
      var es, fs := SnapshotEntries(a.windowStart, a.watermark, a.sourceDigest), SnapshotEntries(b.windowStart, b.watermark, b.sourceDigest);
      SnapshotKeys(a.windowStart, a.watermark, a.sourceDigest);
      SnapshotKeys(b.windowStart, b.watermark, b.sourceDigest);
      x, y := ShaBinds(rt, Dict(es), Dict(fs));
      if !Collision(rt.sha, x, y) { SnapshotMatches(es, fs, a, b); }
    }
  }

  lemma SnapshotMatches(es: seq<Entry>, fs: seq<Entry>, a: Manifest, b: Manifest)
    requires es == SnapshotEntries(a.windowStart, a.watermark, a.sourceDigest)
    requires fs == SnapshotEntries(b.windowStart, b.watermark, b.sourceDigest) && DistinctKeys(fs) && Matches(Dict(es), Dict(fs))
    ensures a.windowStart == b.windowStart && a.watermark == b.watermark && a.sourceDigest == b.sourceDigest
  {
    MatchingField(es, fs, 1, 1);
    MatchingField(es, fs, 2, 2);
    MatchingField(es, fs, 3, 3);
  }

  /** Rows that match one by one. */
  ghost predicate SameRows(a: seq<Row>, b: seq<Row>) {
    |a| == |b| && forall i :: 0 <= i < |a| ==> Matches(a[i], b[i])
  }

  lemma StringsMatch(a: seq<string>, b: seq<string>)
    requires Matches(List(Strings(a)), List(Strings(b)))
    ensures a == b
  {
    forall i | 0 <= i < |a|
      ensures a[i] == b[i]
    {
      assert Matches(Strings(a)[i], Strings(b)[i]);
    }
  }

  lemma SourceIsJson(indexes: seq<Row>, details: seq<Row>, withdrawals: seq<string>)
    requires forall i :: 0 <= i < |indexes| ==> IsJson(indexes[i])
    requires forall i :: 0 <= i < |details| ==> IsJson(details[i])
    ensures IsJson(Source(indexes, details, withdrawals)) && DistinctKeys(Source(indexes, details, withdrawals).entries)
  {
    assert |"index"| == 5 && |"details"| == 7 && |"withdrawal_keys"| == 15;
    assert IsJson(List(Strings(withdrawals)));
  }

  /** Generations of JSON rows with one source digest have the same rows and withdrawals in order, unless the hash function collides. */
  lemma SourceDigestBinds(rt: Runtime, q: Request, r: Request, g: Generation, h: Generation) returns (x: Bytes, y: Bytes)
    requires IsFloatText(rt.f) && Assemble(rt, q) == Some(g) && Assemble(rt, r) == Some(h) && g.manifest.sourceDigest == h.manifest.sourceDigest
    requires forall i :: 0 <= i < |q.rows| ==> IsJson(Dict(q.rows[i]))
    requires forall i :: 0 <= i < |r.rows| ==> IsJson(Dict(r.rows[i]))
    ensures !Collision(rt.sha, x, y) ==>
      && SameRows(g.indexRows, h.indexRows) && SameRows(g.detailRows, h.detailRows)
      && SortedSet(WithdrawnKeys(rt, q.withdrawals)) == SortedSet(WithdrawnKeys(rt, r.withdrawals))
  {
    hide Sorted, Matches, IsJson, Sha, Project, CutKind, Links, SortedSet, Chain, InKeyOrder;
    var a, b := SortedSet(WithdrawnKeys(rt, q.withdrawals)), SortedSet(WithdrawnKeys(rt, r.withdrawals));
    BuiltRowsAreJson(rt, q, g);
    BuiltRowsAreJson(rt, r, h);
    SourceIsJson(g.indexRows, g.detailRows, a);
    SourceIsJson(h.indexRows, h.detailRows, b);
    x, y := ShaBinds(rt, Source(g.indexRows, g.detailRows, a), Source(h.indexRows, h.detailRows, b));
    if !Collision(rt.sha, x, y) {
      SourceMatches(g.indexRows, g.detailRows, a, h.indexRows, h.detailRows, b);
    }
  }

  /** One identity is one content: generations of JSON rows with the same identity have the same window, rows and withdrawals, unless the hash function collides. */
  lemma GenerationBinds(rt: Runtime, q: Request, r: Request, g: Generation, h: Generation) returns (x: Bytes, y: Bytes)
    requires IsFloatText(rt.f) && Assemble(rt, q) == Some(g) && Assemble(rt, r) == Some(h) && g.manifest.generationId == h.manifest.generationId
    requires forall i :: 0 <= i < |q.rows| ==> IsJson(Dict(q.rows[i]))
    requires forall i :: 0 <= i < |r.rows| ==> IsJson(Dict(r.rows[i]))
    ensures !Collision(rt.sha, x, y) ==>
      && q.windowStart == r.windowStart && q.watermark == r.watermark
      && SameRows(g.indexRows, h.indexRows) && SameRows(g.detailRows, h.detailRows)
      && SortedSet(WithdrawnKeys(rt, q.withdrawals)) == SortedSet(WithdrawnKeys(rt, r.withdrawals))
  {
    hide Assemble, Sha, SortedSet, SameRows, IsJson, Project, MakeManifest, Less, CodePoints;
    ManifestIsMade(rt, q, g);
    ManifestIsMade(rt, r, h);
    x, y := GenerationIdBinds(rt, g.manifest, h.manifest);
    if !Collision(rt.sha, x, y) { x, y := SourceDigestBinds(rt, q, r, g, h); }
  }

  lemma ManifestIsMade(rt: Runtime, q: Request, g: Generation)
    requires Assemble(rt, q) == Some(g)
    ensures g.manifest.windowStart == q.windowStart && g.manifest.watermark == q.watermark
    ensures var m := g.manifest;
      m == MakeManifest(rt, m.windowStart, m.watermark, m.sourceDigest, m.itemCount, m.withdrawalCount, m.receiptDigest)
  {
    hide Sha, Source, Sorted, SortedSet, CutKind, Links, Chain, InKeyOrder;
  }

  lemma SourceMatches(i: seq<Row>, d: seq<Row>, w: seq<string>, i2: seq<Row>, d2: seq<Row>, w2: seq<string>)
    requires Matches(Source(i, d, w), Source(i2, d2, w2)) && DistinctKeys(Source(i2, d2, w2).entries)
    ensures SameRows(i, i2) && SameRows(d, d2) && w == w2
  {
    var es, fs := Source(i, d, w).entries, Source(i2, d2, w2).entries;
    MatchingField(es, fs, 0, 0);
    MatchingField(es, fs, 1, 1);
    MatchingField(es, fs, 2, 2);
    StringsMatch(w, w2);
  }

  lemma BuiltRowsAreJson(rt: Runtime, q: Request, g: Generation)
    requires Assemble(rt, q) == Some(g) && forall i :: 0 <= i < |q.rows| ==> IsJson(Dict(q.rows[i]))
    ensures forall i :: 0 <= i < |g.indexRows| ==> IsJson(g.indexRows[i])
    ensures forall i :: 0 <= i < |g.detailRows| ==> IsJson(g.detailRows[i])
  {
    hide IsJson, Project, Assemble;
    var p := GenerationRowsAre(rt, q, g);
    forall k | 0 <= k < |p|
      ensures IsJson(g.indexRows[k]) && IsJson(g.detailRows[k])
    {
      ProjectionIsJson(rt, q.rows[p[k]]);
    }
  }
}
