/** The byte-budgeted canonical JSON emitter of the architecture index. */
module Canonical {
  import opened Text
  import opened Sorting
  import opened Values
  import opened Json
  import opened Batching

  const MAXIMUM_DEPTH := 32
  const CHUNK := 1024

  /** There are no floats on this wire, so any text for them will do. */
  const NO_FLOATS: FloatText := (x: Bits) => Decimal(x) + "."

  /** The values that may be written: Unicode scalar JSON with safe integers. */
  predicate InWireDomain(v: Value) {
    match v
    case Null => true
    case Bool(_) => true
    case Int(i) => -SAFE <= i <= SAFE
    case Str(_) => true
    case List(items) => forall i :: 0 <= i < |items| ==> InWireDomain(items[i])
    case Dict(entries) => forall i :: 0 <= i < |entries| ==> InWireDomain(entries[i].value)
    case _ => false
  }

  /** How many containers are open around the innermost value; the keys of an object count as values. */
  function Depth(v: Value): nat
    decreases v, 0
  {
    match v
    case List(items) => if items == [] then 0 else 1 + DeepestItem(items)
    case Dict(entries) => if entries == [] then 0 else 1 + DeepestEntry(entries)
    case _ => 0
  }

  function DeepestItem(items: seq<Value>): (d: nat)
    ensures forall i :: 0 <= i < |items| ==> Depth(items[i]) <= d
    ensures items != [] ==> exists i :: 0 <= i < |items| && Depth(items[i]) == d
    decreases items, 0
  {
    if items == [] then 0
    else if |items| == 1 then Depth(items[0])
    else
      var d := DeepestItem(items[1..]);
      assert exists i :: 0 <= i < |items[1..]| && Depth(items[1..][i]) == d;
      assert forall i :: 1 <= i < |items| ==> items[i] == items[1..][i - 1];
      if Depth(items[0]) > d then Depth(items[0]) else d
  }

  function DeepestEntry(es: seq<Entry>): (d: nat)
    ensures forall i :: 0 <= i < |es| ==> Depth(es[i].value) <= d
    ensures es != [] ==> exists i :: 0 <= i < |es| && Depth(es[i].value) == d
    decreases es, 0
  {
    if es == [] then 0
    else if |es| == 1 then Depth(es[0].value)
    else
      var d := DeepestEntry(es[1..]);
      assert exists i :: 0 <= i < |es[1..]| && Depth(es[1..][i].value) == d;
      assert forall i :: 1 <= i < |es| ==> es[i] == es[1..][i - 1];
      if Depth(es[0].value) > d then Depth(es[0].value) else d
  }

  /** The canonical text of a value, without its line feed. */
  function CanonicalText(v: Value): string {
    Dumps(NO_FLOATS, Sorted(v))
  }

  function Cost(v: Value): nat {
    |Utf8(CanonicalText(v))|
  }

  predicate Admissible(v: Value, depth: nat) {
    InWireDomain(v) && depth + Depth(v) <= MAXIMUM_DEPTH
  }

  // --------------------------------------------------------- costs of the containers

  lemma {:induction false} SortedItemsAt(items: seq<Value>, i: nat)
    requires i < |items|
    ensures SortedItems(items)[i] == Sorted(items[i])
    decreases i
  {
    if i > 0 { SortedItemsAt(items[1..], i - 1); }
  }

  lemma {:induction false} SortedEntriesAt(es: seq<Entry>, p: seq<nat>, k: nat)
    requires (forall i :: 0 <= i < |p| ==> p[i] < |es|) && k < |p|
    ensures SortedEntries(es, p)[k] == Entry(es[p[k]].key, Sorted(es[p[k]].value))
    decreases k
  {
    if k > 0 { SortedEntriesAt(es, p[1..], k - 1); }
  }

  lemma {:induction false} EntriesAppend(f: FloatText, es: seq<Entry>, e: Entry)
    ensures DumpsEntries(f, es + [e]) == (if es == [] then "" else DumpsEntries(f, es) + ",") + DumpsEntry(f, e)
  {
    hide DumpsEntry, DumpsEntries;
    if es == [] {
      assert es + [e] == [e];
      OneEntry(f, e);
    } else {
      assert (es + [e])[0] == es[0] && (es + [e])[1..] == es[1..] + [e];
      MoreEntries(f, es + [e]);
      OneEntry(f, e);
      if |es| == 1 {
        assert es == [es[0]] && es[1..] + [e] == [e];
        OneEntry(f, es[0]);
      } else {
        EntriesAppend(f, es[1..], e);
        MoreEntries(f, es);
        Regroup(DumpsEntry(f, es[0]) + ",", DumpsEntries(f, es[1..]), ",", DumpsEntry(f, e));
        Regroup(DumpsEntries(f, es[1..]), ",", DumpsEntry(f, e), "");
      }
    }
  }

  lemma OneEntry(f: FloatText, e: Entry)
    ensures DumpsEntries(f, [e]) == DumpsEntry(f, e) == "" + DumpsEntry(f, e)
  {
    hide DumpsEntry;
  }

  lemma MoreEntries(f: FloatText, es: seq<Entry>)
    requires |es| > 1
    ensures DumpsEntries(f, es) == DumpsEntry(f, es[0]) + "," + DumpsEntries(f, es[1..])
  {
    hide DumpsEntry;
  }

  /** The text of the first `n` items of a list, and of the first `n` entries of an object in key order. */
  function ItemsText(items: seq<Value>, n: nat): string
    requires n <= |items|
  {
    DumpsItems(NO_FLOATS, SortedItems(items)[..n])
  }

  function EntriesText(es: seq<Entry>, n: nat): string
    requires n <= |es|
  {
    DumpsEntries(NO_FLOATS, SortedEntries(es, CodeOrder(es))[..n])
  }

  function Comma(n: nat): string {
    if n > 0 then "," else ""
  }

  lemma ItemsTextStep(items: seq<Value>, n: nat)
    requires n < |items|
    ensures ItemsText(items, n + 1) == ItemsText(items, n) + Comma(n) + CanonicalText(items[n])
    ensures |Utf8(ItemsText(items, n + 1))| == |Utf8(ItemsText(items, n))| + |Comma(n)| + Cost(items[n])
  {
    hide Sorted, SortedItems, Dumps, DumpsItems, Utf8;
    var all := SortedItems(items);
    SortedItemsAt(items, n);
    assert all[..n + 1] == all[..n] + [all[n]];
    ItemsAppendText(all[..n], all[n]);
    SplitCost(ItemsText(items, n), n, CanonicalText(items[n]));
  }

  lemma ItemsAppendText(items: seq<Value>, v: Value)
    ensures DumpsItems(NO_FLOATS, items + [v]) == DumpsItems(NO_FLOATS, items) + Comma(|items|) + Dumps(NO_FLOATS, v)
  {
    hide Dumps;
    ItemsAppend(NO_FLOATS, items, v);
    if items == [] { assert DumpsItems(NO_FLOATS, items) + Comma(0) == ""; }
  }

  lemma SplitCost(before: string, n: nat, text: string)
    ensures |Utf8(before + Comma(n) + text)| == |Utf8(before)| + |Comma(n)| + |Utf8(text)|
  {
    Utf8Concat(before + Comma(n), text);
    Utf8Concat(before, Comma(n));
    Utf8One(',');
  }

  lemma EntriesTextStep(es: seq<Entry>, n: nat)
    requires n < |es|
    ensures var e := es[CodeOrder(es)[n]];
      && EntriesText(es, n + 1) == EntriesText(es, n) + Comma(n) + (Quote(e.key) + ":" + CanonicalText(e.value))
      && |Utf8(EntriesText(es, n + 1))| == |Utf8(EntriesText(es, n))| + |Comma(n)| + (|Utf8(Quote(e.key))| + 1 + Cost(e.value))
  {
    hide Sorted, SortedEntries, CodeOrder, Dumps, DumpsEntries, Utf8, Quote;
    var p := CodeOrder(es);
    var all := SortedEntries(es, p);
    var e := es[p[n]];
    SortedEntriesAt(es, p, n);
    assert all[..n + 1] == all[..n] + [all[n]];
    EntriesAppendText(all[..n], all[n]);
    SplitCost(EntriesText(es, n), n, Quote(e.key) + ":" + CanonicalText(e.value));
    Utf8Concat(Quote(e.key) + ":", CanonicalText(e.value));
    Utf8Concat(Quote(e.key), ":");
    Utf8One(':');
  }

  lemma EntriesAppendText(es: seq<Entry>, e: Entry)
    ensures DumpsEntries(NO_FLOATS, es + [e]) == DumpsEntries(NO_FLOATS, es) + Comma(|es|) + DumpsEntry(NO_FLOATS, e)
  {
    hide DumpsEntry;
    EntriesAppend(NO_FLOATS, es, e);
    if es == [] { assert DumpsEntries(NO_FLOATS, es) + Comma(0) == ""; }
  }

  /** A container costs its two brackets and its content. */
  lemma ContainerCost(open: string, body: string, close: string)
    requires |open| == |close| == 1 && open[0] < 128 as char && close[0] < 128 as char
    ensures |Utf8(open + body + close)| == 2 + |Utf8(body)| && |Utf8(open + body)| == 1 + |Utf8(body)|
  {
    Utf8Concat(open + body, close);
    Utf8Concat(open, body);
    Utf8One(open[0]);
    Utf8One(close[0]);
    assert open == [open[0]] && close == [close[0]];
  }

  lemma ListCost(items: seq<Value>)
    ensures CanonicalText(List(items)) == "[" + ItemsText(items, |items|) + "]"
    ensures Cost(List(items)) == 2 + |Utf8(ItemsText(items, |items|))|
  {
    hide SortedItems, DumpsItems, Utf8;
    assert SortedItems(items)[..|items|] == SortedItems(items);
    ContainerCost("[", ItemsText(items, |items|), "]");
  }

  lemma ObjectCost(es: seq<Entry>)
    ensures CanonicalText(Dict(es)) == "{" + EntriesText(es, |es|) + "}"
    ensures Cost(Dict(es)) == 2 + |Utf8(EntriesText(es, |es|))|
  {
    hide SortedEntries, CodeOrder, DumpsEntries, Utf8;
    assert SortedEntries(es, CodeOrder(es))[..|es|] == SortedEntries(es, CodeOrder(es));
    ContainerCost("{", EntriesText(es, |es|), "}");
  }

  /** What is written first never costs more than the whole. */
  lemma {:induction false} ItemsTextGrows(items: seq<Value>, m: nat, n: nat)
    requires m <= n <= |items|
    ensures |Utf8(ItemsText(items, m))| <= |Utf8(ItemsText(items, n))|
    ensures (forall i :: 0 <= i < |items| ==> Cost(items[i]) >= 1) ==> |Utf8(ItemsText(items, n))| >= |Utf8(ItemsText(items, m))| + 2 * (n - m) - 1
    ensures (forall i :: 0 <= i < |items| ==> Cost(items[i]) >= 1) && m > 0 ==> |Utf8(ItemsText(items, n))| >= |Utf8(ItemsText(items, m))| + 2 * (n - m)
    decreases n
  {
    hide ItemsText, Cost, Utf8;
    if m < n {
      ItemsTextGrows(items, m, n - 1);
      ItemsTextStep(items, n - 1);
    }
  }

  lemma {:induction false} EntriesTextGrows(es: seq<Entry>, m: nat, n: nat)
    requires m <= n <= |es|
    ensures |Utf8(EntriesText(es, m))| <= |Utf8(EntriesText(es, n))|
    ensures (forall i :: 0 <= i < |es| ==> Cost(es[i].value) >= 1) ==> |Utf8(EntriesText(es, n))| >= |Utf8(EntriesText(es, m))| + 5 * (n - m) - 1
    ensures (forall i :: 0 <= i < |es| ==> Cost(es[i].value) >= 1) && m > 0 ==> |Utf8(EntriesText(es, n))| >= |Utf8(EntriesText(es, m))| + 5 * (n - m)
    decreases n
  {
    hide EntriesText, Cost, Utf8, CodeOrder, Quote;
    if m < n {
      EntriesTextGrows(es, m, n - 1);
      EntriesTextStep(es, n - 1);
      QuoteCost(es[CodeOrder(es)[n - 1]].key);
    }
  }

  lemma QuoteCost(s: string)
    ensures |Utf8(Quote(s))| >= |s| + 2 && CanonicalText(Str(s)) == Quote(s)
  {
    EscapedAtLeast(s);
    ContainerCost("\"", EscapeAll(s), "\"");
    Utf8AtLeast(EscapeAll(s));
  }

  lemma {:induction false} EscapedAtLeast(s: string)
    ensures |s| <= |EscapeAll(s)|
  {
    if s != "" { EscapedAtLeast(s[1..]); }
  }

  lemma CostIsPositive(v: Value)
    requires InWireDomain(v)
    ensures Cost(v) >= 1
  {
    hide Utf8, Sorted, DumpsItems, DumpsEntries, SortedItems, SortedEntries, CodeOrder, Quote;
    Utf8AtLeast(CanonicalText(v));
    match v
    case Int(i) => IntTextChars(i); SortedScalar(v);
    case List(items) => ListCost(items);
    case Dict(es) => ObjectCost(es);
    case Str(s) => QuoteCost(s);
    case _ => SortedScalar(v);
  }

  lemma SortedScalar(v: Value)
    requires v.Null? || v.Bool? || v.Int? || v.Str?
    ensures Sorted(v) == v
  {}

  // ------------------------------------------------------------------- the emitter

  class Emitter {
    const maximum: int
    var pieces: string
    var size: nat

    constructor (maximum: int)
      ensures this.maximum == maximum && pieces == "" && size == 1
    {
      this.maximum, pieces, size := maximum, "", 1;
    }

    /** `write`: the piece is kept unless it breaks the budget. */
    method Write(fragment: string) returns (ok: bool)
      modifies this
      ensures ok == (old(size) + |Utf8(fragment)| <= maximum)
      ensures ok ==> pieces == old(pieces) + fragment && size == old(size) + |Utf8(fragment)|
    {
      size := size + |Utf8(fragment)|;
      if size > maximum {
        return false;
      }
      pieces := pieces + fragment;
      return true;
    }

    /** The value is written exactly when it is admissible and its whole text fits what is left of the budget. */
    method Emit(v: Value, depth: nat) returns (ok: bool)
      modifies this
      ensures ok == (Admissible(v, depth) && old(size) + Cost(v) <= maximum)
      ensures ok ==> pieces == old(pieces) + CanonicalText(v) && size == old(size) + Cost(v)
      decreases v, 0
    {
      hide CanonicalText, Cost, Utf8, Quote, EscapeAll, Depth;
      if depth > MAXIMUM_DEPTH {
        return false;
      }
      match v
      case Null => ScalarText(v); ok := Write("null");
      case Bool(b) => ScalarText(v); ok := Write(if b then "true" else "false");
      case Int(i) =>
        ScalarText(v);
        if !(-SAFE <= i <= SAFE) {
          return false;
        }
        ok := Write(IntText(i));
      case Str(s) =>
        ScalarText(v);
        ok := EmitString(s);
      case List(items) => ok := EmitList(items, depth);
      case Dict(es) => ok := EmitObject(es, depth);
      case _ => ok := false;
    }

    method EmitString(s: string) returns (ok: bool)
      modifies this
      ensures ok == (old(size) + Cost(Str(s)) <= maximum)
      ensures ok ==> pieces == old(pieces) + CanonicalText(Str(s)) && size == old(size) + Cost(Str(s))
    {
      hide Utf8, Quote, EscapeAll, Sorted;
      ScalarText(Str(s));
      QuoteCost(s);
      if |s| + 2 > maximum - size {
        return false;
      }
      if |s| <= CHUNK {
        ok := Write(Quote(s));
        return;
      }
      QuotePieces(s);
      ok := Write("\"");
      if !ok {
        return;
      }
      var offset := 0;
      while offset < |s|
        invariant 0 <= offset <= |s|
        invariant pieces == old(pieces) + ("\"" + EscapeAll(s[..offset]))
        invariant size == old(size) + 1 + |Utf8(EscapeAll(s[..offset]))| <= maximum
      {
        var stop := if offset + CHUNK < |s| then offset + CHUNK else |s|;
        ChunkEscapes(s, offset, stop);
        ok := Write(EscapeAll(s[offset..stop]));
        if !ok {
          return;
        }
        offset := stop;
      }
      assert s[..|s|] == s;
      ok := Write("\"");
    }

    method EmitList(items: seq<Value>, depth: nat) returns (ok: bool)
      requires depth <= MAXIMUM_DEPTH
      modifies this
      ensures ok == (Admissible(List(items), depth) && old(size) + Cost(List(items)) <= maximum)
      ensures ok ==> pieces == old(pieces) + CanonicalText(List(items)) && size == old(size) + Cost(List(items))
      decreases items, 1
    {
      hide CanonicalText, Cost, Utf8, ItemsText, InWireDomain, Depth;
      ListCost(items);
      ListBudget(items);
      ListStart(items);
      BracketCost();
      if 2 * |items| + 1 > maximum - size {
        ListAdmission(items, depth);
        return false;
      }
      ok := Write("[");
      if !ok {
        return;
      }
      for n := 0 to |items|
        invariant pieces == old(pieces) + ("[" + ItemsText(items, n))
        invariant size == old(size) + 1 + |Utf8(ItemsText(items, n))| <= maximum
        invariant forall i :: 0 <= i < n ==> Admissible(items[i], depth + 1)
      {
        ItemsTextStep(items, n);
        ItemsTextGrows(items, n + 1, |items|);
        if n > 0 {
          ok := Write(",");
          CommaCost();
          if !ok {
            return;
          }
        }
        ok := Emit(items[n], depth + 1);
        if !ok {
          ListAdmission(items, depth);
          return;
        }
        PieceJoins("[", ItemsText(items, n), Comma(n), CanonicalText(items[n]));
      }
      ListAdmission(items, depth);
      ok := Write("]");
    }

    /** One entry of an object, with the comma that sets it off from the entry before. */
    method EmitEntry(e: Entry, n: nat, depth: nat) returns (ok: bool)
      requires depth <= MAXIMUM_DEPTH
      modifies this
      ensures ok == (depth + 1 <= MAXIMUM_DEPTH && Admissible(e.value, depth + 1)
                     && old(size) + |Comma(n)| + (|Utf8(Quote(e.key))| + 1 + Cost(e.value)) <= maximum)
      ensures ok ==> pieces == old(pieces) + Comma(n) + (Quote(e.key) + ":" + CanonicalText(e.value))
                     && size == old(size) + |Comma(n)| + (|Utf8(Quote(e.key))| + 1 + Cost(e.value))
      decreases e, 0
    {
      hide CanonicalText, Cost, Utf8, Admissible, Quote;
      CommaCost();
      ScalarText(Str(e.key));
      if n > 0 {
        ok := Write(",");
        if !ok {
          return;
        }
      }
      assert n == 0 ==> pieces + Comma(n) == pieces;
      if depth + 1 > MAXIMUM_DEPTH {
        return false;
      }
      ok := EmitString(e.key);
      if !ok {
        return;
      }
      ok := Write(":");
      if !ok {
        return;
      }
      ok := Emit(e.value, depth + 1);
      EntryJoins(old(pieces), Comma(n), Quote(e.key), CanonicalText(e.value));
    }

    method EmitObject(es: seq<Entry>, depth: nat) returns (ok: bool)
      requires depth <= MAXIMUM_DEPTH
      modifies this
      ensures ok == (Admissible(Dict(es), depth) && old(size) + Cost(Dict(es)) <= maximum)
      ensures ok ==> pieces == old(pieces) + CanonicalText(Dict(es)) && size == old(size) + Cost(Dict(es))
      decreases es, 1
    {
      hide CanonicalText, Cost, Utf8, EntriesText, Admissible, CodeOrder, Quote;
      ObjectCost(es);
      ObjectBudget(es);
      ObjectStart(es);
      BracketCost();
      ObjectAdmission(es, depth);
      AdmissibleIsInDomain(Dict(es), depth);
      if 5 * |es| + 1 > maximum - size {
        return false;
      }
      ok := Write("{");
      if !ok {
        return;
      }
      var p := CodeOrder(es);
      for n := 0 to |es|
        invariant pieces == old(pieces) + ("{" + EntriesText(es, n))
        invariant size == old(size) + 1 + |Utf8(EntriesText(es, n))| <= maximum
        invariant n > 0 ==> depth + 1 <= MAXIMUM_DEPTH
        invariant forall k :: 0 <= k < n ==> Admissible(es[p[k]].value, depth + 1)
      {
        EntriesTextStep(es, n);
        EntriesTextGrows(es, n + 1, |es|);
        ok := EmitEntry(es[p[n]], n, depth);
        if !ok {
          return;
        }
        PieceJoins("{", EntriesText(es, n), Comma(n), Quote(es[p[n]].key) + ":" + CanonicalText(es[p[n]].value));
      }
      ok := Write("}");
    }
  }

  lemma AdmissibleIsInDomain(v: Value, depth: nat)
    ensures Admissible(v, depth) ==> InWireDomain(v)
  {}

  lemma ScalarText(v: Value)
    ensures v.Null? ==> CanonicalText(v) == "null" && Cost(v) == |Utf8("null")|
    ensures v.Bool? ==> CanonicalText(v) == (if v.b then "true" else "false") && Cost(v) == |Utf8(if v.b then "true" else "false")|
    ensures v.Int? ==> CanonicalText(v) == IntText(v.i) && Cost(v) == |Utf8(IntText(v.i))|
    ensures v.Str? ==> CanonicalText(v) == Quote(v.s) && Cost(v) == |Utf8(Quote(v.s))|
    ensures v.Null? || v.Bool? || v.Int? || v.Str? ==> Depth(v) == 0
  {
    hide Utf8, Quote;
  }

  lemma CommaCost()
    ensures |Utf8(",")| == 1 && |Utf8(":")| == 1
  {
    Utf8One(',');
    Utf8One(':');
  }

  lemma BracketCost()
    ensures |Utf8("[")| == 1 && |Utf8("]")| == 1 && |Utf8("{")| == 1 && |Utf8("}")| == 1
  {
    Utf8One('[');
    Utf8One(']');
    Utf8One('{');
    Utf8One('}');
  }

  lemma QuotePieces(s: string)
    ensures |Utf8("\"")| == 1 && Utf8(EscapeAll("")) == [] && EscapeAll(s[..0]) == "" && "\"" + "" == "\""
    ensures Quote(s) == "\"" + EscapeAll(s) + "\"" && |Utf8(Quote(s))| == 2 + |Utf8(EscapeAll(s))|
  {
    hide EscapeAll;
    Utf8One('\"');
    ContainerCost("\"", EscapeAll(s), "\"");
    assert s[..0] == "";
    assert EscapeAll("") == "" by { EmptyEscape(); }
  }

  lemma EmptyEscape()
    ensures EscapeAll("") == ""
  {}

  /** Escaping the next piece of a string extends the escaped string, and never beyond the whole. */
  lemma ChunkEscapes(s: string, offset: nat, stop: nat)
    requires offset <= stop <= |s|
    ensures EscapeAll(s[..stop]) == EscapeAll(s[..offset]) + EscapeAll(s[offset..stop])
    ensures |Utf8(EscapeAll(s[..stop]))| == |Utf8(EscapeAll(s[..offset]))| + |Utf8(EscapeAll(s[offset..stop]))|
    ensures |Utf8(EscapeAll(s[..stop]))| <= |Utf8(EscapeAll(s))|
  {
    hide EscapeAll, Utf8;
    assert s[..stop] == s[..offset] + s[offset..stop] && s == s[..stop] + s[stop..];
    EscapeAllConcat(s[..offset], s[offset..stop]);
    EscapeAllConcat(s[..stop], s[stop..]);
    Utf8Concat(EscapeAll(s[..offset]), EscapeAll(s[offset..stop]));
    Utf8Concat(EscapeAll(s[..stop]), EscapeAll(s[stop..]));
  }

  lemma PieceJoins(open: string, before: string, comma: string, text: string)
    ensures open + before + comma + text == open + (before + comma + text)
  {}

  lemma EntryJoins(before: string, comma: string, key: string, text: string)
    ensures before + comma + key + ":" + text == before + comma + (key + ":" + text)
  {}

  lemma ListStart(items: seq<Value>)
    ensures ItemsText(items, 0) == "" && Utf8(ItemsText(items, 0)) == [] && "[" + "" == "["
  {
    BracketCost();
    hide SortedItems;
  }

  lemma ObjectStart(es: seq<Entry>)
    ensures EntriesText(es, 0) == "" && Utf8(EntriesText(es, 0)) == [] && "{" + "" == "{"
  {
    hide SortedEntries, CodeOrder;
  }

  /** The early rejection of a long list never refuses a list that would fit. */
  lemma ListBudget(items: seq<Value>)
    ensures InWireDomain(List(items)) ==> Cost(List(items)) >= 2 * |items| + 1
  {
    hide ItemsText, Cost, Utf8;
    if InWireDomain(List(items)) {
      forall i | 0 <= i < |items|
        ensures Cost(items[i]) >= 1
      {
        CostIsPositive(items[i]);
      }
      ListCost(items);
      ItemsTextGrows(items, 0, |items|);
    }
  }

  /** Nor does the early rejection of a large object. */
  lemma ObjectBudget(es: seq<Entry>)
    ensures InWireDomain(Dict(es)) ==> Cost(Dict(es)) >= 5 * |es| + 1
  {
    hide EntriesText, Cost, Utf8;
    if InWireDomain(Dict(es)) {
      forall i | 0 <= i < |es|
        ensures Cost(es[i].value) >= 1
      {
        CostIsPositive(es[i].value);
      }
      ObjectCost(es);
      EntriesTextGrows(es, 0, |es|);
    }
  }

  lemma ListAdmission(items: seq<Value>, depth: nat)
    requires depth <= MAXIMUM_DEPTH
    ensures Admissible(List(items), depth) <==> forall i :: 0 <= i < |items| ==> Admissible(items[i], depth + 1)
  {
    if items != [] && (forall i :: 0 <= i < |items| ==> Admissible(items[i], depth + 1)) {
      var i :| 0 <= i < |items| && Depth(items[i]) == DeepestItem(items);
      assert Admissible(items[i], depth + 1);
    }
  }

  lemma ObjectAdmission(es: seq<Entry>, depth: nat)
    requires depth <= MAXIMUM_DEPTH
    ensures var p := CodeOrder(es);
      Admissible(Dict(es), depth) <==>
        (es == [] || depth + 1 <= MAXIMUM_DEPTH) && forall k :: 0 <= k < |es| ==> Admissible(es[p[k]].value, depth + 1)
  {
    hide StableOrder;
    var p := CodeOrder(es);
    if es != [] && (forall k :: 0 <= k < |es| ==> Admissible(es[p[k]].value, depth + 1)) {
      forall i | 0 <= i < |es|
        ensures Admissible(es[i].value, depth + 1)
      {
        assert i in p;
        var k :| 0 <= k < |p| && p[k] == i;
        assert Admissible(es[p[k]].value, depth + 1);
      }
      var i :| 0 <= i < |es| && Depth(es[i].value) == DeepestEntry(es);
      assert Admissible(es[i].value, depth + 1);
    }
  }

  /** `canonical`: all of the text and its line feed, or nothing. */
  method Canonical(v: Value, maximum: int) returns (r: Option<string>)
    ensures r == if Admissible(v, 0) && Cost(v) + 1 <= maximum then Some(CanonicalText(v) + "\n") else None
  {
    hide CanonicalText, Cost, Admissible;
    var emitter := new Emitter(maximum);
    var ok := emitter.Emit(v, 0);
    if !ok {
      return None;
    }
    assert "" + CanonicalText(v) == CanonicalText(v);
    return Some(emitter.pieces + "\n");
  }
}
