/** Which indexes can be cut into parts, and how full the parts are. */
module TransportLimits {
  import opened Text
  import opened Values
  import opened Canonical
  import opened Projection
  import opened Transport
  import opened TransportParts

  // ------------------------------------------------------------------ the source of an edge

  predicate IsScopeAt(s: string, i: int) {
    0 <= i && i + 2 <= |s| && s[i] == ':' && s[i + 1] == ':'
  }

  /** What comes before the first `::`; all of a text without one. */
  lemma {:induction false} BeforeScopeIs(s: string)
    ensures BeforeScope(s) <= s && (BeforeScope(s) == s || IsScopeAt(s, |BeforeScope(s)|))
    ensures forall i :: 0 <= i < |BeforeScope(s)| ==> !IsScopeAt(s, i)
  {
    if s != "" {
      BeforeScopeIs(s[1..]);
      assert s == [s[0]] + s[1..];
      ScopeFirst(s);
      if !IsScopeAt(s, 0) {
        forall i | 0 <= i < |BeforeScope(s)|
          ensures !IsScopeAt(s, i)
        {
          if i > 0 { assert !IsScopeAt(s[1..], i - 1); }
        }
      }
    }
  }

  lemma ScopeFirst(s: string)
    requires s != ""
    ensures s[..if |s| < 2 then |s| else 2] == "::" <==> IsScopeAt(s, 0)
  {
    if |s| >= 2 { assert s[..2] == [s[0], s[1]]; }
  }

  /** What a fact names as its source: a symbol or a test its path, an edge what comes before the first `::`. */
  ghost predicate Names(x: Item, source: string) {
    match x.family
    case Edges => exists s: string :: Field(x.record, "source") == Some(Str(s)) && IsBeforeScope(s, source)
    case _ => Field(x.record, "path") == Some(Str(source))
  }

  predicate IsBeforeScope(s: string, t: string) {
    t <= s && (t == s || IsScopeAt(s, |t|)) && forall i :: 0 <= i < |t| ==> !IsScopeAt(s, i)
  }

  lemma OneBeforeScope(s: string, t: string, u: string)
    requires IsBeforeScope(s, t) && IsBeforeScope(s, u)
    ensures t == u
  {
    assert |t| >= |u| && |u| >= |t|;
  }

  lemma SourceIsNamed(x: Item, source: string)
    ensures RecordSource(x.family, x.record) == Some(source) <==> Names(x, source)
  {
    hide BeforeScope, Field, IsBeforeScope;
    if x.family == Edges {
      match AsText(Field(x.record, "source"))
      case None =>
      case Some(s) =>
        assert IsBeforeScope(s, BeforeScope(s)) by { BeforeScopeIsOne(s); }
        if IsBeforeScope(s, source) { OneBeforeScope(s, source, BeforeScope(s)); }
    }
  }

  lemma BeforeScopeIsOne(s: string)
    ensures IsBeforeScope(s, BeforeScope(s))
  {
    BeforeScopeIs(s);
  }

  ghost predicate HasKey(es: seq<Entry>, key: string) {
    exists e :: e in es && e.key == key
  }

  lemma {:induction false} LookupFindsKeys(es: seq<Entry>, key: string)
    ensures Lookup(es, key).Some? <==> HasKey(es, key)
  {
    if es != [] {
      LookupFindsKeys(es[1..], key);
      assert es == [es[0]] + es[1..];
    }
  }

  /** A fact is attributed exactly when the source it names is one of the index's inputs. */
  lemma FactIsAttributed(fields: seq<Entry>, x: Item)
    ensures Sourced(fields, x) <==>
      exists inputs, source :: Lookup(fields, "inputs") == Some(Dict(inputs)) && HasKey(inputs, source) && Names(x, source)
    ensures Sourced(fields, x) ==> Names(x, SourceOf(x))
  {
    hide Lookup, Names, HasKey, RecordSource;
    var r := RecordSource(x.family, x.record);
    if r.Some? { SourceIsNamed(x, r.value); }
    forall source: string
      ensures r == Some(source) <==> Names(x, source)
    {
      SourceIsNamed(x, source);
    }
    match Lookup(fields, "inputs")
    case Some(Dict(inputs)) =>
      forall source: string
        ensures Lookup(inputs, source).Some? <==> HasKey(inputs, source)
      {
        LookupFindsKeys(inputs, source);
      }
    case _ =>
  }

  // ------------------------------------------------------------------------- one source

  lemma {:induction false} PartGrows(digest: Value, source: string, open: seq<Item>)
    ensures PartBytes(digest, Part(source, open)) >= PartBytes(digest, Part(source, []))
  {
    hide PartBytes, Only, Cost, PairValue;
    if open != [] {
      var n := |open| - 1;
      PartGrows(digest, source, open[..n]);
      PartBytesAppend(digest, source, open[..n], open[n]);
      assert open == open[..n] + [open[n]];
    }
  }

  /** A fact in company takes no less than alone. */
  lemma AloneIsLeast(digest: Value, source: string, open: seq<Item>, x: Item)
    ensures PartBytes(digest, Part(source, open + [x])) >= PartBytes(digest, Part(source, [x]))
  {
    hide PartBytes, Cost, PairValue;
    PartGrows(digest, source, open);
    PartBytesAppend(digest, source, open, x);
    PartBytesAppend(digest, source, [], x);
    assert [] + [x] == [x];
  }

  predicate FitsAlone(digest: Value, source: string, x: Item) {
    PartBytes(digest, Part(source, [x])) <= MAXIMUM_INDEX_BYTES
  }

  /** The facts of a source can be packed exactly when each alone fits a part. */
  lemma {:induction false} PackFailsExactly(digest: Value, source: string, open: seq<Item>, rows: seq<Item>)
    ensures Pack(digest, source, open, rows).Some? <==> forall i :: 0 <= i < |rows| ==> FitsAlone(digest, source, rows[i])
    decreases |rows|
  {
    hide PartBytes;
    if rows != [] {
      assert rows == [rows[0]] + rows[1..];
      AloneIsLeast(digest, source, open, rows[0]);
      assert open == [] ==> open + [rows[0]] == [rows[0]];
      if PartBytes(digest, Part(source, open + [rows[0]])) <= MAXIMUM_INDEX_BYTES {
        PackFailsExactly(digest, source, open + [rows[0]], rows[1..]);
      } else if open != [] && FitsAlone(digest, source, rows[0]) {
        PackFailsExactly(digest, source, [rows[0]], rows[1..]);
      }
    }
  }

  /** A part could not have taken the first fact of the next one. */
  predicate IsFullBefore(digest: Value, part: Part, next: Part) {
    next.items != [] && PartBytes(digest, Part(part.source, part.items + [next.items[0]])) > MAXIMUM_INDEX_BYTES
  }

  ghost predicate AreTight(digest: Value, parts: seq<Part>) {
    forall k :: 0 < k < |parts| ==> IsFullBefore(digest, parts[k - 1], parts[k])
  }

  /** Each part of a source is within its limit and could not have taken the next fact. */
  lemma {:induction false} PackIsTight(digest: Value, source: string, open: seq<Item>, rows: seq<Item>)
    requires Pack(digest, source, open, rows).Some? && PartBytes(digest, Part(source, open)) <= MAXIMUM_INDEX_BYTES
    ensures var ps := Pack(digest, source, open, rows).value;
      && ps != [] && open <= ps[0].items && AreTight(digest, ps)
      && forall k :: 0 <= k < |ps| ==> ps[k].source == source && PartBytes(digest, ps[k]) <= MAXIMUM_INDEX_BYTES
    decreases |rows|
  {
    hide PartBytes;
    if rows != [] {
      if PartBytes(digest, Part(source, open + [rows[0]])) <= MAXIMUM_INDEX_BYTES {
        PackIsTight(digest, source, open + [rows[0]], rows[1..]);
      } else {
        PackIsTight(digest, source, [rows[0]], rows[1..]);
        OneMorePart(digest, source, open, rows[0], Pack(digest, source, [rows[0]], rows[1..]).value);
      }
    }
  }

  lemma OneMorePart(digest: Value, source: string, open: seq<Item>, x: Item, ps: seq<Part>)
    requires ps != [] && [x] <= ps[0].items && AreTight(digest, ps)
    requires PartBytes(digest, Part(source, open + [x])) > MAXIMUM_INDEX_BYTES
    ensures AreTight(digest, [Part(source, open)] + ps)
  {
    hide PartBytes;
    var all := [Part(source, open)] + ps;
    forall k | 0 < k < |all|
      ensures IsFullBefore(digest, all[k - 1], all[k])
    {
      assert all[k] == ps[k - 1];
      if k > 1 { assert all[k - 1] == ps[k - 2] && IsFullBefore(digest, ps[k - 2], ps[k - 1]); }
    }
  }

  // ------------------------------------------------------------------------- all sources

  /** A source's facts can be packed: its empty part can be written and each of its facts fits a part alone. */
  ghost predicate CanPack(fields: seq<Entry>, xs: seq<Item>, source: string) {
    && Written(PartValue(InputDigest(fields), Part(source, [])), MAXIMUM_TRANSPORT_BYTES)
    && forall x :: x in xs && SourceOf(x) == source ==> FitsAlone(InputDigest(fields), source, x)
  }

  lemma {:induction false} PackSourcesExactly(fields: seq<Entry>, sources: seq<string>, xs: seq<Item>)
    ensures PackSources(fields, sources, xs).Some? <==>
      sources == [] || (Lookup(fields, "source_input_digest").Some? && forall s :: s in sources ==> CanPack(fields, xs, s))
  {
    hide Pack, Group, PartValue, Written, Lookup, FitsAlone, SourceOf;
    if sources != [] {
      var group := Group(xs, sources[0]);
      GroupMembers(xs, sources[0]);
      PackFailsExactly(InputDigest(fields), sources[0], [], group);
      assert (forall i :: 0 <= i < |group| ==> FitsAlone(InputDigest(fields), sources[0], group[i]))
        <==> forall x :: x in group ==> FitsAlone(InputDigest(fields), sources[0], x);
      PackSourcesExactly(fields, sources[1..], xs);
      assert CanPack(fields, xs, sources[0]) <==>
        Written(PartValue(InputDigest(fields), Part(sources[0], [])), MAXIMUM_TRANSPORT_BYTES)
        && Pack(InputDigest(fields), sources[0], [], group).Some?;
      assert sources == [sources[0]] + sources[1..];
    }
  }

  /** All that is asked of the facts one by one. */
  ghost predicate FactsFit(index: Index) {
    var xs := AllItems(index.observed);
    && |xs| <= MAXIMUM_RECORDS && PairBytes(xs) <= MAXIMUM_TRANSPORT_BYTES
    && (forall x :: x in xs ==> Placeable(index.fields, x) && CanPack(index.fields, xs, SourceOf(x)))
    && (xs != [] ==> Lookup(index.fields, "source_input_digest").Some?)
  }

  /**
    An index is cut exactly when its facts fit one by one and the parts they make are not too many or too
    large together; it is rendered exactly when besides the whole index and its manifest can be written.
   */
  lemma RendersExactly(sha: Hash, index: Index)
    ensures var xs := AllItems(index.observed);
      var parts := PackSources(index.fields, SortedSet(SourcesOf(xs)), xs);
      && (FactsFit(index) ==> parts.Some?)
      && (Cut(index).Some? <==> FactsFit(index) && Emitted(InputDigest(index.fields), parts.value))
      && (Render(sha, index).Some? <==>
            && Cut(index).Some? && Written(IndexValue(index), MAXIMUM_TRANSPORT_BYTES)
            && var manifest := ManifestValue(sha, index, Cut(index).value);
               && Written(manifest, MAXIMUM_INDEX_BYTES)
               && TotalBytes(InputDigest(index.fields), Cut(index).value) + Cost(manifest) + 1 <= MAXIMUM_TRANSPORT_BYTES)
  {
    hide AllItems, PackSources, Placeable, SortedSet, PairBytes, Emitted, Written, CanPack, Lookup, IndexValue, ManifestValue, TotalBytes, Cost;
    var xs := AllItems(index.observed);
    var sources := SortedSet(SourcesOf(xs));
    SortedSetIs(SourcesOf(xs));
    SourcesAreMet(xs);
    PackSourcesExactly(index.fields, sources, xs);
    assert sources == [] <==> xs == [] by { NoSourcesIff(xs, sources); }
    assert (forall i :: 0 <= i < |xs| ==> Placeable(index.fields, xs[i])) <==> forall x :: x in xs ==> Placeable(index.fields, x);
  }

  lemma NoSourcesIff(xs: seq<Item>, sources: seq<string>)
    requires forall s :: s in sources <==> s in SourcesOf(xs)
    ensures sources == [] <==> xs == []
  {
    hide SourceOf;
    if xs != [] { assert SourcesOf(xs)[0] in SourcesOf(xs); }
    if sources != [] { assert sources[0] in sources; }
  }
}
