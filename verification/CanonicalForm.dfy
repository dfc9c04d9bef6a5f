/** What canonical bytes determine: the value up to the insertion order of its keys. */
module CanonicalForm {
  import opened Text
  import opened Sorting
  import opened Values
  import opened Json
  import opened Canonical
  import Projection

  /** Python's `==` on values without numbers of different types; `SameIsMatching` says what it compares. */
  predicate Same(v: Value, w: Value) {
    Sorted(v) == Sorted(w)
  }

  // ---------------------------------------------------------- insertion order is forgotten

  function EntryKey(e: Entry): seq<int> {
    CodePoints(e.key)
  }

  function EachSorted(es: seq<Entry>): (r: seq<Entry>)
    ensures |r| == |es| && forall i :: 0 <= i < |es| ==> r[i] == Entry(es[i].key, Sorted(es[i].value))
  {
    seq(|es|, i requires 0 <= i < |es| => Entry(es[i].key, Sorted(es[i].value)))
  }

  lemma SortedIsSortBy(es: seq<Entry>)
    ensures Sorted(Dict(es)) == Dict(SortBy(EachSorted(es), EntryKey))
  {
    hide StableOrder;
    var p := CodeOrder(es);
    assert Keys(es, (e: Entry) => CodePoints(e.key)) == Keys(EachSorted(es), EntryKey);
    forall k | 0 <= k < |p|
      ensures SortedEntries(es, p)[k] == Permute(EachSorted(es), p)[k]
    {
      SortedEntriesAt(es, p, k);
    }
    assert SortedEntries(es, p) == Permute(EachSorted(es), p);
  }

  lemma SortedForgets(a: seq<Entry>, b: seq<Entry>)
    requires DistinctKeys(a) && DistinctKeys(b)
    requires SameMembers(EachSorted(a), EachSorted(b))
    ensures Sorted(Dict(a)) == Sorted(Dict(b))
  {
    hide SortBy, Sorted;
    SortedIsSortBy(a);
    SortedIsSortBy(b);
    KeysDiffer(a);
    KeysDiffer(b);
    SortByForgetsOrder(EachSorted(a), EachSorted(b), EntryKey);
  }

  lemma KeysDiffer(es: seq<Entry>)
    requires DistinctKeys(es)
    ensures forall i, j :: 0 <= i < j < |es| ==> EntryKey(EachSorted(es)[i]) != EntryKey(EachSorted(es)[j])
  {
    hide Sorted;
    forall i, j | 0 <= i < j < |es|
      ensures EntryKey(EachSorted(es)[i]) != EntryKey(EachSorted(es)[j])
    {
      Projection.CodePointsInjective(es[i].key, es[j].key);
    }
  }

  // --------------------------------------------------- what the sorted form stands for

  /**
    Two values match: lists item by item, objects key by key in whatever order the keys were inserted,
    at every depth; anything else is equal.
   */
  ghost predicate Matches(v: Value, w: Value)
    decreases v, 0
  {
    match (v, w)
    case (List(xs), List(ys)) => |xs| == |ys| && forall i :: 0 <= i < |xs| ==> Matches(xs[i], ys[i])
    case (Tuple(xs), Tuple(ys)) => |xs| == |ys| && forall i :: 0 <= i < |xs| ==> Matches(xs[i], ys[i])
    case (Dict(es), Dict(fs)) =>
      && (forall j :: 0 <= j < |fs| ==> HasKey(es, fs[j].key))
      && forall i :: 0 <= i < |es| ==> HasMatch(fs, es[i])
    case _ => v == w
  }

  /** An object has a key with a value that matches. */
  ghost predicate HasMatch(fs: seq<Entry>, e: Entry)
    decreases e.value, 1
  {
    exists j :: 0 <= j < |fs| && fs[j].key == e.key && Matches(e.value, fs[j].value)
  }

  ghost predicate HasSorted(fs: seq<Entry>, key: string, s: Value) {
    exists j :: 0 <= j < |fs| && fs[j].key == key && Sorted(fs[j].value) == s
  }

  ghost predicate SameEntries(es: seq<Entry>, fs: seq<Entry>) {
    && (forall j :: 0 <= j < |fs| ==> HasKey(es, fs[j].key))
    && forall i :: 0 <= i < |es| ==> HasSorted(fs, es[i].key, Sorted(es[i].value))
  }

  lemma HasSortedIff(fs: seq<Entry>, key: string, s: Value)
    ensures HasSorted(fs, key, s) <==> Entry(key, s) in EachSorted(fs)
  {
    hide Sorted;
    if HasSorted(fs, key, s) {
      var j :| 0 <= j < |fs| && fs[j].key == key && Sorted(fs[j].value) == s;
      assert EachSorted(fs)[j] == Entry(key, s);
    }
  }

  lemma MembersAreEntries(es: seq<Entry>, fs: seq<Entry>)
    requires SameMembers(EachSorted(es), EachSorted(fs))
    ensures SameEntries(es, fs)
  {
    hide Sorted, HasSorted;
    forall i | 0 <= i < |es|
      ensures HasSorted(fs, es[i].key, Sorted(es[i].value))
    {
      assert EachSorted(es)[i] in EachSorted(es);
      HasSortedIff(fs, es[i].key, Sorted(es[i].value));
    }
    forall j | 0 <= j < |fs|
      ensures HasKey(es, fs[j].key)
    {
      assert EachSorted(fs)[j] in EachSorted(es);
      var i :| 0 <= i < |es| && EachSorted(es)[i] == EachSorted(fs)[j];
      assert es[i].key == fs[j].key;
    }
  }

  lemma EntriesAreMembers(es: seq<Entry>, fs: seq<Entry>)
    requires DistinctKeys(fs) && SameEntries(es, fs)
    ensures SameMembers(EachSorted(es), EachSorted(fs))
  {
    hide Sorted, HasSorted;
    forall e | e in EachSorted(es)
      ensures e in EachSorted(fs)
    {
      HasSortedIff(fs, e.key, e.value);
    }
    forall e | e in EachSorted(fs)
      ensures e in EachSorted(es)
    {
      var j :| 0 <= j < |fs| && EachSorted(fs)[j] == e;
      assert HasKey(es, fs[j].key);
      var i :| 0 <= i < |es| && es[i].key == fs[j].key;
      HasSortedIff(fs, es[i].key, Sorted(es[i].value));
      var k :| 0 <= k < |fs| && EachSorted(fs)[k] == Entry(es[i].key, Sorted(es[i].value));
      assert k == j && EachSorted(es)[i] == e;
    }
  }

  lemma SameObjectIff(es: seq<Entry>, fs: seq<Entry>)
    requires DistinctKeys(es) && DistinctKeys(fs)
    ensures Sorted(Dict(es)) == Sorted(Dict(fs)) <==> SameMembers(EachSorted(es), EachSorted(fs))
  {
    hide SortBy, EachSorted, Sorted, EntryKey;
    SortedIsSortBy(es);
    SortedIsSortBy(fs);
    if SameMembers(EachSorted(es), EachSorted(fs)) { SortedForgets(es, fs); }
  }

  /** Values have the same sorted form, and so the same canonical text, exactly when they match. */
  lemma {:induction false} SameIsMatching(v: Value, w: Value)
    requires WellKeyed(v) && WellKeyed(w)
    ensures Same(v, w) <==> Matches(v, w)
    decreases v, 1
  {
    hide SortedItems, SortedEntries;
    match (v, w)
    case (List(xs), List(ys)) => ItemsMatch(xs, ys);
    case (Tuple(xs), Tuple(ys)) => ItemsMatch(xs, ys);
    case (Dict(es), Dict(fs)) => ObjectsMatch(es, fs);
    case _ =>
  }

  lemma {:induction false} ItemsMatch(xs: seq<Value>, ys: seq<Value>)
    requires WellKeyed(List(xs)) && WellKeyed(List(ys))
    ensures SortedItems(xs) == SortedItems(ys) <==> |xs| == |ys| && forall i :: 0 <= i < |xs| ==> Matches(xs[i], ys[i])
    decreases xs, 0
  {
    hide SortedItems, Sorted, Matches;
    if |xs| == |ys| {
      forall i | 0 <= i < |xs|
        ensures SortedItems(xs)[i] == SortedItems(ys)[i] <==> Matches(xs[i], ys[i])
      {
        SortedItemsAt(xs, i);
        SortedItemsAt(ys, i);
        SameIsMatching(xs[i], ys[i]);
      }
      assert SortedItems(xs) == SortedItems(ys) <==> forall i :: 0 <= i < |xs| ==> SortedItems(xs)[i] == SortedItems(ys)[i];
    }
  }

  lemma {:induction false} ObjectsMatch(es: seq<Entry>, fs: seq<Entry>)
    requires WellKeyed(Dict(es)) && WellKeyed(Dict(fs))
    ensures Sorted(Dict(es)) == Sorted(Dict(fs)) <==> Matches(Dict(es), Dict(fs))
    decreases es, 0
  {
    hide Sorted;
    forall i, j | 0 <= i < |es| && 0 <= j < |fs|
      ensures Sorted(es[i].value) == Sorted(fs[j].value) <==> Matches(es[i].value, fs[j].value)
    {
      SameIsMatching(es[i].value, fs[j].value);
    }
    SameObjectIff(es, fs);
    if SameEntries(es, fs) { EntriesAreMembers(es, fs); }
    if SameMembers(EachSorted(es), EachSorted(fs)) { MembersAreEntries(es, fs); }
    forall i | 0 <= i < |es|
      ensures HasSorted(fs, es[i].key, Sorted(es[i].value)) <==> HasMatch(fs, es[i])
    {
      if j :| 0 <= j < |fs| && fs[j].key == es[i].key && Sorted(fs[j].value) == Sorted(es[i].value) {
        assert Matches(es[i].value, fs[j].value);
      }
    }
  }

  function SortedDict(es: seq<Entry>): (r: seq<Entry>)
    ensures |r| == |es|
  {
    SortedEntries(es, CodeOrder(es))
  }

  lemma SortedDictMembers(es: seq<Entry>)
    ensures forall e :: e in SortedDict(es) <==> e in EachSorted(es)
  {
    hide SortBy, SortedEntries, CodeOrder;
    SortedIsSortBy(es);
    assert SortedDict(es) == SortBy(EachSorted(es), EntryKey);
  }

  lemma SortedDictKeys(es: seq<Entry>)
    requires DistinctKeys(es)
    ensures DistinctKeys(SortedDict(es))
  {
    hide SortBy, SortedEntries, CodeOrder, Less;
    SortedIsSortBy(es);
    assert SortedDict(es) == SortBy(EachSorted(es), EntryKey);
    KeysDiffer(es);
    SortByIncreasing(EachSorted(es), EntryKey);
    forall i, j | 0 <= i < j < |es|
      ensures SortedDict(es)[i].key != SortedDict(es)[j].key
    {
      LessAsymmetric(EntryKey(SortedDict(es)[i]), EntryKey(SortedDict(es)[j]));
    }
  }

  /** Sorting the keys again changes nothing. */
  lemma {:induction false} SortedTwice(v: Value)
    requires WellKeyed(v)
    ensures Sorted(Sorted(v)) == Sorted(v) && WellKeyed(Sorted(v))
    decreases v
  {
    match v
    case List(items) => ItemsSortedTwice(items);
    case Tuple(items) => ItemsSortedTwice(items);
    case Dict(es) => EntriesSortedTwice(es);
    case _ =>
  }

  lemma {:induction false} ItemsSortedTwice(items: seq<Value>)
    requires forall i :: 0 <= i < |items| ==> WellKeyed(items[i])
    ensures SortedItems(SortedItems(items)) == SortedItems(items)
    ensures forall i :: 0 <= i < |items| ==> WellKeyed(SortedItems(items)[i])
    decreases items
  {
    hide Sorted, SortedItems, WellKeyed;
    forall i | 0 <= i < |items|
      ensures SortedItems(SortedItems(items))[i] == SortedItems(items)[i] && WellKeyed(SortedItems(items)[i])
    {
      SortedItemsAt(items, i);
      SortedItemsAt(SortedItems(items), i);
      SortedTwice(items[i]);
    }
  }

  lemma {:induction false} EntriesSortedTwice(es: seq<Entry>)
    requires DistinctKeys(es) && forall i :: 0 <= i < |es| ==> WellKeyed(es[i].value)
    ensures Sorted(Dict(SortedDict(es))) == Dict(SortedDict(es)) == Sorted(Dict(es))
    ensures DistinctKeys(SortedDict(es)) && forall i :: 0 <= i < |es| ==> WellKeyed(SortedDict(es)[i].value)
    decreases es
  {
    hide WellKeyed, SortedDict, Sorted, EachSorted;
    var sorted := SortedDict(es);
    SortedDictKeys(es);
    SortedDictMembers(es);
    SortedDictIs(es);
    forall i | 0 <= i < |sorted|
      ensures WellKeyed(sorted[i].value) && EachSorted(sorted)[i] == sorted[i]
    {
      assert sorted[i] in sorted;
      var k :| 0 <= k < |es| && EachSorted(es)[k] == sorted[i];
      SortedTwice(es[k].value);
    }
    assert EachSorted(sorted) == sorted;
    SortedForgets(es, sorted);
  }

  lemma SortedDictIs(es: seq<Entry>)
    ensures Sorted(Dict(es)) == Dict(SortedDict(es))
  {
    hide SortedEntries, CodeOrder;
  }

  // ------------------------------------------------------------------------------ look-up

  lemma {:induction false} LookupFinds(es: seq<Entry>, key: string)
    ensures match Projection.Lookup(es, key)
      case None => forall e :: e in es ==> e.key != key
      case Some(v) => Entry(key, v) in es
  {
    if es != [] {
      LookupFinds(es[1..], key);
      assert es == [es[0]] + es[1..];
    }
  }

  lemma LookupUnique(es: seq<Entry>, e: Entry)
    requires DistinctKeys(es) && e in es
    ensures Projection.Lookup(es, e.key) == Some(e.value)
  {
    hide Projection.Lookup;
    LookupFinds(es, e.key);
    var v := Projection.Lookup(es, e.key).value;
    var i :| 0 <= i < |es| && es[i] == e;
    var j :| 0 <= j < |es| && es[j] == Entry(e.key, v);
    assert i < j ==> es[i].key != es[j].key;
    assert j < i ==> es[j].key != es[i].key;
  }

  /** A key is found in the sorted dictionary exactly when it is found in the dictionary. */
  lemma LookupSorted(es: seq<Entry>, key: string)
    requires DistinctKeys(es)
    ensures Projection.Lookup(SortedDict(es), key)
         == match Projection.Lookup(es, key) case None => None case Some(v) => Some(Sorted(v))
  {
    hide Projection.Lookup, Sorted, SortedEntries, CodeOrder;
    SortedDictMembers(es);
    SortedDictKeys(es);
    LookupFinds(es, key);
    match Projection.Lookup(es, key)
    case None =>
      LookupFinds(SortedDict(es), key);
      assert forall i :: 0 <= i < |es| ==> es[i] in es && EachSorted(es)[i].key == es[i].key;
    case Some(v) =>
      var i :| 0 <= i < |es| && es[i] == Entry(key, v);
      assert EachSorted(es)[i] in EachSorted(es);
      LookupUnique(SortedDict(es), Entry(key, Sorted(v)));
  }

  // ---------------------------------------------------------------- admission and cost

  lemma ObjectAdmissionAll(es: seq<Entry>, depth: nat)
    requires depth <= MAXIMUM_DEPTH
    ensures Admissible(Dict(es), depth) <==>
      (es == [] || depth + 1 <= MAXIMUM_DEPTH) && forall e :: e in es ==> Admissible(e.value, depth + 1)
  {
    hide StableOrder, InWireDomain, Depth;
    ObjectAdmission(es, depth);
    var p := CodeOrder(es);
    if forall k :: 0 <= k < |es| ==> Admissible(es[p[k]].value, depth + 1) {
      forall e | e in es
        ensures Admissible(e.value, depth + 1)
      {
        var i :| 0 <= i < |es| && es[i] == e;
        assert i in p;
        var k :| 0 <= k < |p| && p[k] == i;
      }
    }
  }

  /** Sorting the keys changes neither what may be written nor what it costs. */
  lemma {:induction false} AdmissionSorted(v: Value, depth: nat)
    requires WellKeyed(v)
    ensures Admissible(Sorted(v), depth) <==> Admissible(v, depth)
    decreases v
  {
    if depth <= MAXIMUM_DEPTH {
      match v
      case List(items) => ItemsAdmissionSorted(items, depth);
      case Dict(es) => EntriesAdmissionSorted(es, depth);
      case _ =>
    }
  }

  lemma {:induction false} ItemsAdmissionSorted(items: seq<Value>, depth: nat)
    requires depth <= MAXIMUM_DEPTH && forall i :: 0 <= i < |items| ==> WellKeyed(items[i])
    ensures Admissible(List(SortedItems(items)), depth) <==> Admissible(List(items), depth)
    decreases items
  {
    hide Sorted, SortedItems, WellKeyed, Admissible;
    ListAdmission(items, depth);
    ListAdmission(SortedItems(items), depth);
    forall i | 0 <= i < |items|
      ensures Admissible(SortedItems(items)[i], depth + 1) <==> Admissible(items[i], depth + 1)
    {
      SortedItemsAt(items, i);
      AdmissionSorted(items[i], depth + 1);
    }
  }

  lemma {:induction false} EntriesAdmissionSorted(es: seq<Entry>, depth: nat)
    requires depth <= MAXIMUM_DEPTH && forall i :: 0 <= i < |es| ==> WellKeyed(es[i].value)
    ensures Admissible(Dict(SortedDict(es)), depth) <==> Admissible(Dict(es), depth)
    decreases es
  {
    hide Sorted, SortedEntries, CodeOrder, WellKeyed, Admissible;
    ObjectAdmissionAll(es, depth);
    ObjectAdmissionAll(SortedDict(es), depth);
    SortedDictMembers(es);
    forall i | 0 <= i < |es|
      ensures Admissible(EachSorted(es)[i].value, depth + 1) <==> Admissible(es[i].value, depth + 1)
    {
      AdmissionSorted(es[i].value, depth + 1);
    }
    forall e | e in es
      ensures exists d :: d in EachSorted(es) && (Admissible(d.value, depth + 1) <==> Admissible(e.value, depth + 1))
    {
      var i :| 0 <= i < |es| && es[i] == e;
      assert EachSorted(es)[i] in EachSorted(es);
    }
    assert forall i :: 0 <= i < |es| ==> es[i] in es;
  }

  lemma {:induction false} WireIsJson(v: Value)
    requires InWireDomain(v) && WellKeyed(v)
    ensures IsJson(v)
    decreases v
  {
    match v
    case List(items) =>
      forall i | 0 <= i < |items|
        ensures IsJson(items[i])
      {
        WireIsJson(items[i]);
      }
    case Dict(es) =>
      forall i | 0 <= i < |es|
        ensures IsJson(es[i].value)
      {
        WireIsJson(es[i].value);
      }
    case _ =>
  }

  lemma {:induction false} PermutedCost(es: seq<Entry>, k: nat, v: Value, n: nat)
    requires k < |es| && n <= |es|
    ensures var fs := es[k := Entry(es[k].key, v)];
      |Utf8(EntriesText(fs, n))| == |Utf8(EntriesText(es, n))| + (if k in CodeOrder(es)[..n] then Cost(v) - Cost(es[k].value) else 0)
    decreases n
  {
    hide EntriesText, Cost, Utf8, CodeOrder, Quote;
    var fs := es[k := Entry(es[k].key, v)];
    var p := CodeOrder(es);
    SameOrder(es, k, v);
    if n == 0 {
      ObjectStart(es);
      ObjectStart(fs);
      assert p[..0] == [];
    } else {
      PermutedCost(es, k, v, n - 1);
      EntriesTextStep(es, n - 1);
      EntriesTextStep(fs, n - 1);
      assert p[..n] == p[..n - 1] + [p[n - 1]];
      OrderHasNoRepeats(es, n - 1);
    }
  }

  lemma SameOrder(es: seq<Entry>, k: nat, v: Value)
    requires k < |es|
    ensures CodeOrder(es[k := Entry(es[k].key, v)]) == CodeOrder(es)
  {
    hide StableOrder;
    var fs := es[k := Entry(es[k].key, v)];
    assert Keys(fs, (e: Entry) => CodePoints(e.key)) == Keys(es, (e: Entry) => CodePoints(e.key));
  }

  lemma OrderHasNoRepeats(es: seq<Entry>, n: nat)
    requires n < |es|
    ensures CodeOrder(es)[n] !in CodeOrder(es)[..n]
  {
    hide StableOrder;
    var keys := Keys(es, (e: Entry) => CodePoints(e.key));
    var p := CodeOrder(es);
    assert IsStableOrder(keys, p);
    forall i | 0 <= i < n
      ensures p[i] != p[n]
    {
      assert Precedes(keys, p[i], p[n]);
      if p[i] == p[n] { LessAsymmetric(keys[p[i]], keys[p[n]]); }
    }
  }

  /** Replacing one value of an object changes its cost by the difference of the two values' costs. */
  lemma ReplaceCost(es: seq<Entry>, k: nat, v: Value)
    requires k < |es|
    ensures Cost(Dict(es[k := Entry(es[k].key, v)])) == Cost(Dict(es)) + Cost(v) - Cost(es[k].value)
  {
    hide EntriesText, Cost, Utf8, CodeOrder;
    var fs := es[k := Entry(es[k].key, v)];
    ObjectCost(es);
    ObjectCost(fs);
    PermutedCost(es, k, v, |es|);
    OrderHasAll(es, k);
    assert CodeOrder(es)[..|es|] == CodeOrder(es);
  }

  lemma OrderHasAll(es: seq<Entry>, k: nat)
    requires k < |es|
    ensures k in CodeOrder(es)
  {
    hide StableOrder;
    assert IsStableOrder(Keys(es, (e: Entry) => CodePoints(e.key)), CodeOrder(es));
  }

  /** One more item costs its own bytes and, after the first, a comma. */
  lemma AppendCost(items: seq<Value>, v: Value)
    ensures Cost(List(items + [v])) == Cost(List(items)) + Cost(v) + (if items == [] then 0 else 1)
  {
    hide ItemsText, Cost, Utf8;
    ListCost(items);
    ListCost(items + [v]);
    ItemsTextStep(items + [v], |items|);
    SamePrefixText(items, v);
  }

  lemma SamePrefixText(items: seq<Value>, v: Value)
    ensures ItemsText(items + [v], |items|) == ItemsText(items, |items|)
  {
    hide Sorted, SortedItems;
    var all := SortedItems(items + [v]);
    forall i | 0 <= i < |items|
      ensures all[i] == SortedItems(items)[i]
    {
      SortedItemsAt(items + [v], i);
      SortedItemsAt(items, i);
    }
    assert all[..|items|] == SortedItems(items)[..|items|];
  }

  // ------------------------------------------------------------------- canonical bytes

  /** `canonical(v).encode("utf-8")`. */
  function CanonicalBytes(v: Value): Bytes {
    Utf8(CanonicalText(v) + "\n")
  }

  lemma CanonicalLength(v: Value)
    ensures |CanonicalBytes(v)| == Cost(v) + 1
  {
    hide CanonicalText, Utf8;
    Utf8Concat(CanonicalText(v), "\n");
    Utf8One('\n');
  }

  lemma NoFloatsIsFloatText()
    ensures IsFloatText(NO_FLOATS)
  {
    PointedIsFloatText(NO_FLOATS);
  }

  lemma PointedIsFloatText(f: FloatText)
    requires forall x: Bits :: f(x) == Decimal(x) + "."
    ensures IsFloatText(f)
  {
    forall x: Bits
      ensures NotAnInt(f(x))
    {
      assert f(x)[|Decimal(x)|] == '.' && !IsDigit(f(x)[|Decimal(x)|]);
    }
    forall x: Bits, y: Bits | f(x) == f(y)
      ensures x == y
    {
      assert Decimal(x) == f(x)[..|f(x)| - 1] == Decimal(y);
      DecimalValue(x);
      DecimalValue(y);
    }
  }

  /** `json.loads` on the wire domain: it returns the value that was written. */
  ghost predicate Reads(loads: Bytes -> Option<Value>) {
    forall v :: InWireDomain(v) && IsJson(v) ==> loads(Projection.Line(NO_FLOATS, v)) == Some(v)
  }

  lemma ReadsExists() returns (loads: Bytes -> Option<Value>)
    ensures Reads(loads)
  {
    NoFloatsIsFloatText();
    loads := Projection.LoadsExists(NO_FLOATS);
  }

  lemma ReadsBack(loads: Bytes -> Option<Value>, v: Value)
    requires Reads(loads) && Admissible(v, 0) && WellKeyed(v)
    ensures loads(CanonicalBytes(v)) == Some(Sorted(v))
  {
    hide Sorted, Dumps;
    SortedTwice(v);
    AdmissionSorted(v, 0);
    WireIsJson(Sorted(v));
    assert CanonicalBytes(v) == Projection.Line(NO_FLOATS, Sorted(v));
  }

  /** Canonical bytes determine the value up to the order of its keys. */
  lemma CanonicalInjective(v: Value, w: Value)
    requires InWireDomain(v) && WellKeyed(v) && InWireDomain(w) && WellKeyed(w)
    requires CanonicalBytes(v) == CanonicalBytes(w)
    ensures Same(v, w)
  {
    hide Sorted, Dumps, Utf8;
    NoFloatsIsFloatText();
    SortedIsJson(v);
    SortedIsJson(w);
    DecodeUtf8Inverts(CanonicalText(v) + "\n");
    DecodeUtf8Inverts(CanonicalText(w) + "\n");
    DumpsEnd(NO_FLOATS, Sorted(v), Sorted(w), "\n", "\n");
  }

  /** Two values of the wire domain have the same canonical bytes exactly when they match. */
  lemma SameBytesIffMatching(v: Value, w: Value)
    requires InWireDomain(v) && WellKeyed(v) && InWireDomain(w) && WellKeyed(w)
    ensures CanonicalBytes(v) == CanonicalBytes(w) <==> Matches(v, w)
  {
    hide Matches, InWireDomain, WellKeyed;
    SameIsMatching(v, w);
    if CanonicalBytes(v) == CanonicalBytes(w) { CanonicalInjective(v, w); }
  }

  lemma {:induction false} JsonIsWellKeyed(v: Value)
    requires IsJson(v)
    ensures WellKeyed(v)
    decreases v
  {
    match v
    case List(items) =>
      forall i | 0 <= i < |items|
        ensures WellKeyed(items[i])
      {
        JsonIsWellKeyed(items[i]);
      }
    case Dict(es) =>
      forall i | 0 <= i < |es|
        ensures WellKeyed(es[i].value)
      {
        JsonIsWellKeyed(es[i].value);
      }
    case _ =>
  }

  lemma {:induction false} SortedIsJson(v: Value)
    requires InWireDomain(v) && WellKeyed(v)
    ensures IsJson(Sorted(v))
    decreases v
  {
    match v
    case List(items) =>
      forall i | 0 <= i < |items|
        ensures IsJson(SortedItems(items)[i])
      {
        SortedItemsAt(items, i);
        SortedIsJson(items[i]);
      }
    case Dict(es) => SortedDictIsJson(es);
    case _ =>
  }

  lemma {:induction false} SortedDictIsJson(es: seq<Entry>)
    requires DistinctKeys(es) && forall i :: 0 <= i < |es| ==> InWireDomain(es[i].value) && WellKeyed(es[i].value)
    ensures IsJson(Dict(SortedDict(es)))
    decreases es
  {
    hide Sorted, SortedEntries, CodeOrder, WellKeyed, InWireDomain;
    SortedDictKeys(es);
    SortedDictMembers(es);
    forall k | 0 <= k < |es|
      ensures IsJson(SortedDict(es)[k].value)
    {
      hide IsJson;
      assert SortedDict(es)[k] in SortedDict(es);
      var i :| 0 <= i < |es| && EachSorted(es)[i] == SortedDict(es)[k];
      SortedIsJson(es[i].value);
    }
  }

  /** A file cut short is not canonical: the line feed comes last and only there. */
  lemma TornIsNotCanonical(v: Value, torn: Bytes, w: Value)
    requires torn <= CanonicalBytes(v) && torn != CanonicalBytes(v)
    ensures torn != CanonicalBytes(w)
  {
    hide CanonicalText, Utf8;
    TextThenFeed(v);
    TextThenFeed(w);
    if torn != [] {
      var last := |torn| - 1;
      assert torn[last] == CanonicalBytes(v)[last] == Utf8(CanonicalText(v))[last];
    }
  }

  lemma TextThenFeed(v: Value)
    ensures CanonicalBytes(v) == Utf8(CanonicalText(v)) + [10]
    ensures forall i :: 0 <= i < |Utf8(CanonicalText(v))| ==> Utf8(CanonicalText(v))[i] >= 32
  {
    hide Sorted, Dumps, Utf8;
    NoFloatsIsFloatText();
    DumpsIsPrintable(NO_FLOATS, Sorted(v));
    PrintableBytes(CanonicalText(v));
    Utf8Concat(CanonicalText(v), "\n");
    Utf8One('\n');
  }
}
