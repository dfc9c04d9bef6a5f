/** Cutting an index into parts loses nothing, repeats nothing and keeps every fact with its own source. */
module TransportParts {
  import opened Text
  import opened Sorting
  import opened Values
  import opened Json
  import opened Projection
  import opened Transport

  /** What is counted: the facts at one place of the index, or the facts of one family. */
  datatype Test = At(f: Family, ordinal: nat) | Of(f: Family)

  predicate Passes(t: Test, x: Item) {
    x.family == t.f && (t.At? ==> x.ordinal == t.ordinal)
  }

  function Count(xs: seq<Item>, t: Test): nat {
    if xs == [] then 0 else Count(xs[..|xs| - 1], t) + if Passes(t, xs[|xs| - 1]) then 1 else 0
  }

  lemma CountAppend(xs: seq<Item>, x: Item, t: Test)
    ensures Count(xs + [x], t) == Count(xs, t) + if Passes(t, x) then 1 else 0
  {
    assert (xs + [x])[..|xs|] == xs;
  }

  lemma {:induction false} CountConcat(xs: seq<Item>, ys: seq<Item>, t: Test)
    ensures Count(xs + ys, t) == Count(xs, t) + Count(ys, t)
  {
    if ys == [] {
      assert xs + ys == xs;
    } else {
      var n := |ys| - 1;
      assert xs + ys == xs + ys[..n] + [ys[n]];
      CountConcat(xs, ys[..n], t);
      CountAppend(xs + ys[..n], ys[n], t);
    }
  }

  lemma {:induction false} CountFinds(xs: seq<Item>, t: Test)
    requires Count(xs, t) > 0
    ensures exists x :: x in xs && Passes(t, x)
  {
    var n := |xs| - 1;
    if Passes(t, xs[n]) {
      assert xs[n] in xs;
    } else {
      CountFinds(xs[..n], t);
      var x :| x in xs[..n] && Passes(t, x);
      assert x in xs;
    }
  }

  lemma {:induction false} CountMember(xs: seq<Item>, x: Item, t: Test)
    requires x in xs && Passes(t, x)
    ensures Count(xs, t) > 0
  {
    var n := |xs| - 1;
    if xs[n] != x {
      assert xs == xs[..n] + [xs[n]];
      CountMember(xs[..n], x, t);
    }
  }

  // ------------------------------------------------------------- the facts of an index

  lemma {:induction false} FamilyCount(f: Family, records: seq<Value>, t: Test)
    ensures Count(FamilyItems(f, records), t)
         == if t.f != f then 0 else if t.Of? then |records| else if t.ordinal < |records| then 1 else 0
  {
    if records == [] {
      assert FamilyItems(f, records) == [];
    } else {
      var n := |records| - 1;
      FamilyCount(f, records[..n], t);
      assert FamilyItems(f, records) == FamilyItems(f, records[..n]) + [Item(f, n, records[n])];
      CountAppend(FamilyItems(f, records[..n]), Item(f, n, records[n]), t);
    }
  }

  /** An index holds one fact at each place of its arrays. */
  lemma AllItemsCount(o: Each<seq<Value>>, t: Test)
    ensures Count(AllItems(o), t) == if t.Of? then |o.Of(t.f)| else if t.ordinal < |o.Of(t.f)| then 1 else 0
  {
    hide Count;
    FamilyCount(Symbols, o.symbols, t);
    FamilyCount(Edges, o.edges, t);
    FamilyCount(Tests, o.tests, t);
    CountConcat(FamilyItems(Symbols, o.symbols), FamilyItems(Edges, o.edges), t);
    CountConcat(FamilyItems(Symbols, o.symbols) + FamilyItems(Edges, o.edges), FamilyItems(Tests, o.tests), t);
  }

  lemma AllItemsAre(o: Each<seq<Value>>, x: Item)
    ensures x in AllItems(o) <==> x.ordinal < |o.Of(x.family)| && x.record == o.Of(x.family)[x.ordinal]
  {
    if x.ordinal < |o.Of(x.family)| && x.record == o.Of(x.family)[x.ordinal] {
      assert FamilyItems(x.family, o.Of(x.family))[x.ordinal] == x;
    }
  }

  // -------------------------------------------------------------------------- grouping

  lemma {:induction false} GroupMembers(xs: seq<Item>, source: string)
    ensures forall x :: x in Group(xs, source) <==> x in xs && SourceOf(x) == source
  {
    hide SourceOf;
    if xs != [] {
      var n := |xs| - 1;
      assert xs == xs[..n] + [xs[n]];
      GroupMembers(xs[..n], source);
    }
  }

  function GroupCounts(xs: seq<Item>, sources: seq<string>, t: Test): nat {
    if sources == [] then 0 else Count(Group(xs, sources[0]), t) + GroupCounts(xs, sources[1..], t)
  }

  lemma {:induction false} GroupCountsAppend(xs: seq<Item>, x: Item, sources: seq<string>, t: Test)
    requires forall i, j :: 0 <= i < j < |sources| ==> sources[i] != sources[j]
    ensures GroupCounts(xs + [x], sources, t)
         == GroupCounts(xs, sources, t) + if Passes(t, x) && SourceOf(x) in sources then 1 else 0
  {
    hide SourceOf, Count, Group;
    if sources != [] {
      GroupOneMore(xs, x, sources[0]);
      CountAppend(Group(xs, sources[0]), x, t);
      GroupCountsAppend(xs, x, sources[1..], t);
      assert sources == [sources[0]] + sources[1..];
    }
  }

  lemma GroupOneMore(xs: seq<Item>, x: Item, source: string)
    ensures Group(xs + [x], source) == if SourceOf(x) == source then Group(xs, source) + [x] else Group(xs, source)
  {
    hide SourceOf;
    assert (xs + [x])[..|xs|] == xs;
    assert Group(xs, source) + [] == Group(xs, source);
  }

  lemma {:induction false} GroupCountsEmpty(sources: seq<string>, t: Test)
    ensures GroupCounts([], sources, t) == 0
  {
    if sources != [] { GroupCountsEmpty(sources[1..], t); }
  }

  /** Every fact is in the group of exactly one source. */
  lemma {:induction false} GroupsCountAll(xs: seq<Item>, sources: seq<string>, t: Test)
    requires forall i, j :: 0 <= i < j < |sources| ==> sources[i] != sources[j]
    requires forall x :: x in xs ==> SourceOf(x) in sources
    ensures GroupCounts(xs, sources, t) == Count(xs, t)
  {
    hide SourceOf, Group, GroupCounts;
    if xs == [] {
      GroupCountsEmpty(sources, t);
    } else {
      var n := |xs| - 1;
      assert xs == xs[..n] + [xs[n]];
      GroupsCountAll(xs[..n], sources, t);
      GroupCountsAppend(xs[..n], xs[n], sources, t);
      CountAppend(xs[..n], xs[n], t);
    }
  }

  // --------------------------------------------------------------------------- packing

  function Flatten(parts: seq<Part>): seq<Item> {
    if parts == [] then [] else parts[0].items + Flatten(parts[1..])
  }

  lemma {:induction false} FlattenConcat(a: seq<Part>, b: seq<Part>)
    ensures Flatten(a + b) == Flatten(a) + Flatten(b)
  {
    if a == [] {
      assert a + b == b;
    } else {
      assert (a + b)[1..] == a[1..] + b;
      FlattenConcat(a[1..], b);
    }
  }

  /** Packing keeps the facts of a source in their order, all of them. */
  lemma {:induction false} PackKeeps(digest: Value, source: string, open: seq<Item>, rows: seq<Item>)
    requires Pack(digest, source, open, rows).Some?
    ensures var ps := Pack(digest, source, open, rows).value;
      Flatten(ps) == open + rows && forall p :: p in ps ==> p.source == source
    decreases |rows|
  {
    hide PartBytes;
    if rows == [] {
      assert [Part(source, open)][1..] == [];
    } else {
      assert rows == [rows[0]] + rows[1..];
      if PartBytes(digest, Part(source, open + [rows[0]])) <= MAXIMUM_INDEX_BYTES {
        PackKeeps(digest, source, open + [rows[0]], rows[1..]);
      } else {
        PackKeeps(digest, source, [rows[0]], rows[1..]);
        assert ([Part(source, open)] + Pack(digest, source, [rows[0]], rows[1..]).value)[1..]
            == Pack(digest, source, [rows[0]], rows[1..]).value;
      }
    }
  }

  lemma {:induction false} PackSourcesKeeps(fields: seq<Entry>, sources: seq<string>, xs: seq<Item>, t: Test)
    requires PackSources(fields, sources, xs).Some?
    ensures Count(Flatten(PackSources(fields, sources, xs).value), t) == GroupCounts(xs, sources, t)
  {
    hide Count, Group, Pack, PartValue, Written, Lookup;
    if sources != [] {
      var digest := InputDigest(fields);
      var first := Pack(digest, sources[0], [], Group(xs, sources[0])).value;
      var rest := PackSources(fields, sources[1..], xs).value;
      PackKeeps(digest, sources[0], [], Group(xs, sources[0]));
      PackSourcesKeeps(fields, sources[1..], xs, t);
      FlattenConcat(first, rest);
      assert [] + Group(xs, sources[0]) == Group(xs, sources[0]);
      CountConcat(Flatten(first), Flatten(rest), t);
    } else {
      assert Count([], t) == 0 by { NothingCounts(t); }
    }
  }

  lemma NothingCounts(t: Test)
    ensures Count([], t) == 0
  {}

  ghost predicate FromSource(xs: seq<Item>, sources: seq<string>, p: Part) {
    p.source in sources && forall x :: x in p.items ==> x in xs && SourceOf(x) == p.source
  }

  lemma {:induction false} FlattenMembers(parts: seq<Part>)
    ensures forall p, x :: p in parts && x in p.items ==> x in Flatten(parts)
    ensures forall x :: x in Flatten(parts) ==> exists p :: p in parts && x in p.items
  {
    if parts != [] {
      FlattenMembers(parts[1..]);
      assert parts == [parts[0]] + parts[1..];
      forall x | x in Flatten(parts)
        ensures exists p :: p in parts && x in p.items
      {
        if x !in parts[0].items {
          assert x in Flatten(parts[1..]);
          var p :| p in parts[1..] && x in p.items;
          assert p in parts;
        } else {
          assert parts[0] in parts;
        }
      }
    }
  }

  lemma {:induction false} PackSourcesFrom(fields: seq<Entry>, sources: seq<string>, xs: seq<Item>)
    requires PackSources(fields, sources, xs).Some?
    ensures forall p :: p in PackSources(fields, sources, xs).value ==> FromSource(xs, sources, p)
    ensures PackSources(fields, sources, xs).value != [] ==> Lookup(fields, "source_input_digest").Some?
  {
    hide SourceOf, Group, Pack, PartValue, Written, Lookup, Flatten;
    if sources != [] {
      var digest := InputDigest(fields);
      var group := Group(xs, sources[0]);
      var first := Pack(digest, sources[0], [], group).value;
      PackKeeps(digest, sources[0], [], group);
      FlattenMembers(first);
      GroupMembers(xs, sources[0]);
      PackSourcesFrom(fields, sources[1..], xs);
      assert sources == [sources[0]] + sources[1..];
      assert [] + group == group;
      forall p | p in first
        ensures FromSource(xs, sources, p)
      {
      }
      forall p | p in PackSources(fields, sources[1..], xs).value
        ensures FromSource(xs, sources, p)
      {
        assert FromSource(xs, sources[1..], p);
      }
    }
  }

  lemma SortedSetDiffers(keys: seq<string>)
    ensures var r := SortedSet(keys); forall i, j :: 0 <= i < j < |r| ==> r[i] != r[j]
  {
    hide Less, SortedSet;
    SortedSetIs(keys);
    var r := SortedSet(keys);
    forall i, j | 0 <= i < j < |r|
      ensures r[i] != r[j]
    {
      assert Less(CodePoints(r[i]), CodePoints(r[j]));
      LessAsymmetric(CodePoints(r[i]), CodePoints(r[j]));
    }
  }

  /**
    Every fact of the index is in exactly one part, together with its place; a part holds facts of
    one known source only.
   */
  lemma EveryFactHasOnePart(index: Index)
    requires Cut(index).Some?
    ensures var parts := Cut(index).value;
      && (forall t :: Count(Flatten(parts), t) == Count(AllItems(index.observed), t))
      && (forall p, x :: p in parts && x in p.items ==>
            x in AllItems(index.observed) && RecordSource(x.family, x.record) == Some(p.source))
      && (forall p :: p in parts ==> IsInput(index.fields, p.source))
      && (parts != [] ==> Lookup(index.fields, "source_input_digest").Some?)
  {
    hide Count, AllItems, SourcesOf, SortedSet, PackSources, RecordSource, Flatten, Emitted, IsInput, PairBytes, Written;
    var xs := AllItems(index.observed);
    var sources := SortedSet(SourcesOf(xs));
    SortedSetIs(SourcesOf(xs));
    SortedSetDiffers(SourcesOf(xs));
    SourcesAreMet(xs);
    var parts := Cut(index).value;
    forall t
      ensures Count(Flatten(parts), t) == Count(xs, t)
    {
      PackSourcesKeeps(index.fields, sources, xs, t);
      GroupsCountAll(xs, sources, t);
    }
    PackSourcesFrom(index.fields, sources, xs);
    forall p | p in parts
      ensures IsInput(index.fields, p.source)
      ensures forall x :: x in p.items ==> x in xs && RecordSource(x.family, x.record) == Some(p.source)
    {
      assert FromSource(xs, sources, p);
      forall x | x in xs
        ensures RecordSource(x.family, x.record) == Some(SourceOf(x)) && IsInput(index.fields, SourceOf(x))
      {
        var i :| 0 <= i < |xs| && xs[i] == x;
        assert Placeable(index.fields, xs[i]);
      }
    }
  }

  lemma SourcesAreMet(xs: seq<Item>)
    ensures forall s :: s in SourcesOf(xs) <==> exists x :: x in xs && SourceOf(x) == s
  {
    hide SourceOf;
    forall x | x in xs
      ensures SourceOf(x) in SourcesOf(xs)
    {
      var i :| 0 <= i < |xs| && xs[i] == x;
      assert SourcesOf(xs)[i] == SourceOf(x);
    }
  }
}
