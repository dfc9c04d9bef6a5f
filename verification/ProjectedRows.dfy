/** What the two projections of a row hold: together they are the row. */
module ProjectedRows {
  import opened Text
  import opened Sorting
  import opened Values
  import opened Json
  import opened Batching
  import opened ReceiptChain
  import opened Projection
  import Receipt

  // -------------------------------------------------------------------- the detail payload

  /** The chosen entries at increasing positions. */
  ghost predicate IsSelection(es: seq<Entry>, chosen: seq<Entry>, p: seq<nat>) {
    && |p| == |chosen| && (forall k :: 0 <= k < |p| ==> p[k] < |es| && chosen[k] == es[p[k]])
    && (forall i, j :: 0 <= i < j < |p| ==> p[i] < p[j])
  }

  function Shifted(p: seq<nat>): (r: seq<nat>)
    ensures |r| == |p| && forall k :: 0 <= k < |p| ==> r[k] == p[k] + 1
  {
    seq(|p|, k requires 0 <= k < |p| => p[k] + 1)
  }

  lemma SelectionStep(es: seq<Entry>, chosen: seq<Entry>, p: seq<nat>)
    requires es != [] && IsSelection(es[1..], chosen, p)
    ensures IsSelection(es, chosen, Shifted(p)) && IsSelection(es, [es[0]] + chosen, [0] + Shifted(p))
  {}

  /** The payload is the row without its index fields, in the row's order. */
  lemma {:induction false} PayloadIs(es: seq<Entry>) returns (p: seq<nat>)
    ensures IsSelection(es, Payload(es), p)
    ensures forall i :: i in p <==> 0 <= i < |es| && es[i].key !in INDEX_FIELDS
  {
    hide INDEX_FIELDS, IsSelection;
    if es == [] {
      p := [];
      NothingSelected();
    } else {
      var rest := PayloadIs(es[1..]);
      SelectionStep(es, Payload(es[1..]), rest);
      p := (if es[0].key in INDEX_FIELDS then [] else [0]) + Shifted(rest);
      assert [] + Shifted(rest) == Shifted(rest) && [] + Payload(es[1..]) == Payload(es[1..]);
      forall i: int
        ensures i in p <==> 0 <= i < |es| && es[i].key !in INDEX_FIELDS
      {
        if i > 0 { InShifted(rest, i); }
        if i in Shifted(rest) { assert i > 0; }
        assert 0 < i < |es| ==> es[1..][i - 1] == es[i];
      }
    }
  }

  lemma NothingSelected()
    ensures IsSelection([], [], [])
  {}

  lemma InShifted(p: seq<nat>, i: int)
    ensures i in Shifted(p) <==> i - 1 in p
  {
    if i - 1 in p {
      var k :| 0 <= k < |p| && p[k] == i - 1;
      assert Shifted(p)[k] == i;
    }
  }

  lemma {:induction false} PayloadHas(es: seq<Entry>, key: string)
    ensures Lookup(Payload(es), key) == if key in INDEX_FIELDS then None else Lookup(es, key)
  {
    hide INDEX_FIELDS;
    if es != [] {
      PayloadHas(es[1..], key);
      assert ([es[0]] + Payload(es[1..]))[1..] == Payload(es[1..]);
      assert [] + Payload(es[1..]) == Payload(es[1..]);
    }
  }

  // ------------------------------------------------------------------------- the index row

  /** Looking up a field filled in from the row; fields not asked for are not filled in. */
  lemma {:induction false} IndexFieldIs(es: seq<Entry>, fields: seq<string>, index: seq<Entry>, key: string)
    ensures Lookup(IndexEntries(es, fields, index), key)
         == if key !in fields || (IsOptional(key) && Lookup(es, key).None?) then Lookup(index, key) else Some(Get(es, key))
    decreases |fields|
  {
    hide SetKey, Get, IsOptional;
    if fields != [] {
      assert fields == [fields[0]] + fields[1..];
      LookupSetKey(index, fields[0], Get(es, fields[0]), key);
      if IsOptional(fields[0]) && Lookup(es, fields[0]).None? {
        IndexFieldIs(es, fields[1..], index, key);
      } else {
        IndexFieldIs(es, fields[1..], SetKey(index, fields[0], Get(es, fields[0])), key);
      }
    }
  }

  /** What counts as false: null, false, zero, and everything empty. */
  predicate IsNothing(v: Value) {
    || v in {Null, Bool(false), Int(0), Str(""), List([]), Tuple([]), Dict([])}
    || (v.Float? && (v.bits == 0 || v.bits == 0x8000_0000_0000_0000))
  }

  lemma TruthyIs(v: Value)
    ensures Truthy(v) <==> !IsNothing(v)
  {}

  /** The cluster of a row as text; a row without one is its own cluster. */
  function Cluster(rt: Runtime, es: seq<Entry>, key: Digest): string {
    match Lookup(es, "cluster_id")
    case None => key
    case Some(v) => if IsNothing(v) then key else ToStr(rt, v)
  }

  /**
    The index row holds the row's value of every index field, nothing where the row has none, and the two
    optional fields only when the row has them; the cluster as text; its key and the contract; no more.
   */
  lemma IndexRowIs(rt: Runtime, es: seq<Entry>, key: Digest, field: string)
    ensures Lookup(IndexRow(rt, es, key), field) ==
      if field == "mirror_contract" then Some(Str(CONTRACT))
      else if field == "detail_key" then Some(Str(key))
      else if field == "cluster_id" then Some(Str(Cluster(rt, es, key)))
      else if field !in INDEX_FIELDS then None
      else match Lookup(es, field)
        case Some(v) => Some(v)
        case None => if field == "syndicated_source_count" || field == "source_text_incomplete" then None else Some(Null)
  {
    hide IndexEntries, SetKey, Lookup, Truthy, IsNothing, ToStr, INDEX_FIELDS;
    var index := IndexEntries(es, INDEX_FIELDS, []);
    assert "cluster_id" in INDEX_FIELDS && !IsOptional("cluster_id") by { ClusterIsIndexField(); }
    assert Lookup([], field) == None && Lookup([], "cluster_id") == None by { NothingFound(field); NothingFound("cluster_id"); }
    IndexFieldIs(es, INDEX_FIELDS, [], field);
    IndexFieldIs(es, INDEX_FIELDS, [], "cluster_id");
    var named := Str(Cluster(rt, es, key));
    TruthyIs(Get(es, "cluster_id"));
    assert IsNothing(Null) by { NullIsNothing(); }
    LookupSetKey(index, "cluster_id", named, field);
    LookupSetKey(SetKey(index, "cluster_id", named), "detail_key", Str(key), field);
    LookupSetKey(SetKey(SetKey(index, "cluster_id", named), "detail_key", Str(key)), "mirror_contract", Str(CONTRACT), field);
  }

  lemma ClusterIsIndexField()
    ensures "cluster_id" in INDEX_FIELDS && !IsOptional("cluster_id")
  {
    assert INDEX_FIELDS[4] == "cluster_id";
    assert |"cluster_id"| != |"syndicated_source_count"| && |"cluster_id"| != |"source_text_incomplete"|;
  }

  lemma NothingFound(key: string)
    ensures Lookup([], key) == None
  {}

  lemma NullIsNothing()
    ensures IsNothing(Null)
  {}

  /** A row can be read back from its two projections: every value it has, and null for what it has not. */
  lemma RowIsRecovered(rt: Runtime, es: seq<Entry>, field: string)
    ensures var p := Project(rt, es);
      && p.index.Dict? && p.detail.Dict? && Field(p.detail, "payload").Some?
      && var payload := Field(p.detail, "payload").value;
         && (field !in INDEX_FIELDS ==> Field(payload, field) == Lookup(es, field))
         && (field in INDEX_FIELDS ==> Field(payload, field) == None)
         && (field in INDEX_FIELDS && field != "cluster_id" ==>
               (match Field(p.index, field) case None => Null case Some(v) => v) == Get(es, field))
  {
    hide IndexRow, Payload, INDEX_FIELDS, DetailKey, Lookup, IsIndexField;
    var payload := Dict(Payload(es));
    var key := DetailKey(rt, es, payload);
    DetailRowFields(rt, payload, key);
    PayloadHas(es, field);
    IndexRowIs(rt, es, key, field);
    assert "detail_key" !in INDEX_FIELDS && "mirror_contract" !in INDEX_FIELDS by { AddedFields(); }
  }

  lemma AddedFields()
    ensures "detail_key" !in INDEX_FIELDS && "mirror_contract" !in INDEX_FIELDS
  {
    assert forall i :: 0 <= i < |INDEX_FIELDS| ==> |INDEX_FIELDS[i]| > 0 && INDEX_FIELDS[i][0] != 'd';
    assert forall i :: 0 <= i < |INDEX_FIELDS| && INDEX_FIELDS[i][0] == 'm' ==> |INDEX_FIELDS[i]| > 15;
  }

  // ------------------------------------------------------------------------ the generation

  /** The rows of a generation are the projections of the request's rows, each once, in the order of their keys and their own. */
  lemma GenerationRowsAre(rt: Runtime, q: Request, g: Generation) returns (p: seq<nat>)
    requires Assemble(rt, q) == Some(g)
    ensures |p| == |q.rows| && forall i :: 0 <= i < |q.rows| ==> i in p
    ensures forall k :: 0 <= k < |p| ==> p[k] < |q.rows|
    ensures |g.indexRows| == |p| && |g.detailRows| == |p| == g.manifest.itemCount
    ensures g.manifest.windowStart == q.windowStart && g.manifest.watermark == q.watermark
    ensures forall k :: 0 <= k < |p| ==>
      g.indexRows[k] == Project(rt, q.rows[p[k]]).index && g.detailRows[k] == Project(rt, q.rows[p[k]]).detail
    ensures forall i, j :: 0 <= i < j < |p| ==>
      var a, b := CodePoints(Project(rt, q.rows[p[i]]).key), CodePoints(Project(rt, q.rows[p[j]]).key);
      Less(a, b) || (a == b && p[i] < p[j])
  {
    hide Project, CutKind, Links, Sha, Source, Sorted, SortedSet, Chain, Less, CodePoints;
    var ps := ProjectAll(rt, q.rows);
    var keys := Keys(ps, (p: Projected) => CodePoints(p.key));
    p := StableOrder(keys);
    assert IsStableOrder(keys, p);
    assert InKeyOrder(rt, q.rows) == Permute(ps, p);
    forall i, j | 0 <= i < j < |p|
      ensures Precedes(keys, p[i], p[j])
    {
    }
  }

  /** A row that a batch of its kind can carry and receipts can hash. */
  predicate IsCarried(rt: Runtime, kind: Kind, row: Row) {
    RowSize(rt.f, row) + 2 <= (if kind == Detail then 400_000 else 100_000) && Receipt.InDomain(row)
  }

  lemma {:induction false} LinksExactly(sha: Hash, kind: Kind, offset: nat, batches: seq<seq<Row>>)
    ensures Links(sha, kind, offset, batches).Some? <==> forall r :: r in Concat(batches) ==> Receipt.InDomain(r)
    decreases |batches|
  {
    hide Receipt.InDomain;
    if batches != [] {
      HashedExactly(sha, batches[0]);
      LinksExactly(sha, kind, offset + |batches[0]|, batches[1..]);
      assert Concat(batches) == batches[0] + Concat(batches[1..]);
    }
  }

  lemma HashedExactly(sha: Hash, batch: seq<Row>)
    ensures PayloadHash(sha, batch).Some? <==> forall r :: r in batch ==> Receipt.InDomain(r)
  {
    Receipt.EncodesExactlyTheDomain(List(batch));
    ListDomain(batch);
  }

  lemma ListDomain(rows: seq<Row>)
    ensures Receipt.InDomain(List(rows)) <==> forall r :: r in rows ==> Receipt.InDomain(r)
  {
    if forall r :: r in rows ==> Receipt.InDomain(r) {
      assert forall i :: 0 <= i < |rows| ==> rows[i] in rows;
    }
  }

  lemma KindCarried(rt: Runtime, kind: Kind, rows: seq<Row>)
    ensures var bs := Cut(rt.f, ByteLimit(kind), MaxItems(kind), [], rows);
      (bs.Some? && Links(rt.sha, kind, 0, bs.value).Some?) <==> forall i :: 0 <= i < |rows| ==> IsCarried(rt, kind, rows[i])
  {
    hide Receipt.InDomain, Cut, Links, RowSize;
    CutFailsExactly(rt.f, ByteLimit(kind), MaxItems(kind), [], rows);
    if Cut(rt.f, ByteLimit(kind), MaxItems(kind), [], rows).Some? { KindHashed(rt, kind, rows); }
  }

  lemma KindHashed(rt: Runtime, kind: Kind, rows: seq<Row>)
    requires Cut(rt.f, ByteLimit(kind), MaxItems(kind), [], rows).Some?
    ensures var bs := Cut(rt.f, ByteLimit(kind), MaxItems(kind), [], rows);
      Links(rt.sha, kind, 0, bs.value).Some? <==> forall i :: 0 <= i < |rows| ==> Receipt.InDomain(rows[i])
  {
    hide Receipt.InDomain, Cut, Links, IsPartition;
    var bs := Cut(rt.f, ByteLimit(kind), MaxItems(kind), [], rows);
    CutIsPartition(rt.f, ByteLimit(kind), MaxItems(kind), [], rows);
    PartitionIs(rt.f, ByteLimit(kind), MaxItems(kind), rows, bs.value);
    LinksExactly(rt.sha, kind, 0, bs.value);
    assert forall i :: 0 <= i < |rows| ==> rows[i] in rows;
  }

  lemma PartitionIs(f: FloatText, limit: int, maxItems: int, rows: seq<Row>, batches: seq<seq<Row>>)
    requires IsPartition(f, limit, maxItems, [] + rows, batches)
    ensures Concat(batches) == rows
  {
    assert [] + rows == rows;
  }

  /** A request can be built in memory, its size aside, exactly when each of its rows' projections can be carried and hashed. */
  lemma BuildsExactly(rt: Runtime, q: Request)
    ensures Assemble(rt, q).Some? <==> forall i :: 0 <= i < |q.rows| ==>
      IsCarried(rt, Index, Project(rt, q.rows[i]).index) && IsCarried(rt, Detail, Project(rt, q.rows[i]).detail)
  {
    hide Project, IsCarried, Cut, Links, Sha, Source, Sorted, SortedSet, MakeManifest, Chain, SortBy;
    var ps := InKeyOrder(rt, q.rows);
    KindCarried(rt, Detail, Rows(Detail, ps));
    KindCarried(rt, Index, Rows(Index, ps));
    var all := ProjectAll(rt, q.rows);
    assert forall p :: p in ps <==> p in all;
    forall i | 0 <= i < |q.rows|
      ensures exists k :: 0 <= k < |ps| && ps[k] == Project(rt, q.rows[i])
    {
      assert all[i] in ps;
    }
    forall k | 0 <= k < |ps|
      ensures exists i :: 0 <= i < |q.rows| && ps[k] == Project(rt, q.rows[i])
    {
      assert ps[k] in all;
    }
  }
}
