/** Compact JSON text of a value, in insertion order or with sorted keys, and why it can be read back. */
module Json {
  import opened Text
  import opened Sorting
  import opened Values

  // ------------------------------------------------------------------- strings

  /** One character inside a JSON string written with `ensure_ascii=False`. */
  function Escape(c: char): (s: string)
    ensures s != ""
  {
    if c == '\"' then "\\\""
    else if c == '\\' then "\\\\"
    else if c == '\n' then "\\n"
    else if c == '\r' then "\\r"
    else if c == '\t' then "\\t"
    else if c as int == 12 then "\\f"
    else if c as int == 8 then "\\b"
    else if c < ' ' then "\\u00" + [HexChar(c as int / 16), HexChar(c as int % 16)]
    else [c]
  }

  function HexChar(d: nat): (c: char)
    requires d < 16
    ensures c >= '0'
  {
    if d < 10 then (48 + d) as char else (87 + d) as char
  }

  function EscapeAll(s: string): string {
    if s == "" then "" else Escape(s[0]) + EscapeAll(s[1..])
  }

  function Quote(s: string): string {
    "\"" + EscapeAll(s) + "\""
  }

  /** Escaping works character by character, so a string may be escaped in pieces of any size. */
  lemma EscapeAllConcat(s: string, t: string)
    ensures EscapeAll(s + t) == EscapeAll(s) + EscapeAll(t)
  {
    if s == "" {
      assert s + t == t;
    } else {
      assert (s + t)[1..] == s[1..] + t;
      EscapeAllConcat(s[1..], t);
    }
  }

  // -------------------------------------------------------------------- values

  /** The text Python gives a float is a parameter: any text with the properties `IsFloatText` asks for. */
  type FloatText = Bits -> string

  function Dumps(f: FloatText, v: Value): string
    decreases v, 0
  {
    match v
    case Null => "null"
    case Bool(b) => if b then "true" else "false"
    case Int(i) => IntText(i)
    case Float(x) => f(x)
    case Str(s) => Quote(s)
    case List(items) => "[" + DumpsItems(f, items) + "]"
    case Tuple(items) => "[" + DumpsItems(f, items) + "]"
    case Dict(entries) => "{" + DumpsEntries(f, entries) + "}"
    case Other => ""
  }

  function DumpsItems(f: FloatText, items: seq<Value>): string
    decreases items, 0
  {
    if items == [] then ""
    else if |items| == 1 then Dumps(f, items[0])
    else Dumps(f, items[0]) + "," + DumpsItems(f, items[1..])
  }

  function DumpsEntry(f: FloatText, e: Entry): string
    decreases e, 0
  {
    Quote(e.key) + ":" + Dumps(f, e.value)
  }

  function DumpsEntries(f: FloatText, es: seq<Entry>): string
    decreases es, 0
  {
    if es == [] then ""
    else if |es| == 1 then DumpsEntry(f, es[0])
    else DumpsEntry(f, es[0]) + "," + DumpsEntries(f, es[1..])
  }

  /** `compact_json(value).encode("utf-8")`. */
  function Wire(f: FloatText, v: Value): Bytes {
    Utf8(Dumps(f, v))
  }

  // ---------------------------------------------------------------- sorted keys

  function CodePoints(s: string): (r: seq<int>)
    ensures |r| == |s|
  {
    seq(|s|, i requires 0 <= i < |s| => s[i] as int)
  }

  function CodeOrder(es: seq<Entry>): (p: seq<nat>)
    ensures |p| == |es| && forall k :: 0 <= k < |p| ==> p[k] < |es|
  {
    StableOrder(Keys(es, (e: Entry) => CodePoints(e.key)))
  }

  /** The value with the keys of every dictionary in code point order. */
  function Sorted(v: Value): Value
    decreases v, 0, 0
  {
    match v
    case List(items) => List(SortedItems(items))
    case Tuple(items) => Tuple(SortedItems(items))
    case Dict(entries) => Dict(SortedEntries(entries, CodeOrder(entries)))
    case _ => v
  }

  function SortedItems(items: seq<Value>): (r: seq<Value>)
    ensures |r| == |items|
    decreases items, 0, 0
  {
    if items == [] then [] else [Sorted(items[0])] + SortedItems(items[1..])
  }

  function SortedEntries(es: seq<Entry>, p: seq<nat>): (r: seq<Entry>)
    requires forall k :: 0 <= k < |p| ==> p[k] < |es|
    ensures |r| == |p| && forall k :: 0 <= k < |p| ==> r[k].key == es[p[k]].key
    decreases es, 1, |p|
  {
    if p == [] then []
    else [Entry(es[p[0]].key, Sorted(es[p[0]].value))] + SortedEntries(es, p[1..])
  }

  // ----------------------------------------------------------------- reading back

  /** Characters of number texts; none of them starts or ends any other value. */
  predicate IsNumberChar(c: char) {
    IsDigit(c) || c == '-' || c == '+' || c == '.' || c == 'e'
  }

  predicate Printable(s: string) {
    forall i :: 0 <= i < |s| ==> s[i] >= ' '
  }

  /** Some character of the text appears in no integer. */
  predicate NotAnInt(s: string) {
    exists i :: 0 <= i < |s| && !IsDigit(s[i]) && s[i] != '-'
  }

  /** The text of a finite float: like `-1.5e-07`, never like an integer. */
  predicate IsFloatLiteral(s: string) {
    && s != "" && (IsDigit(s[0]) || s[0] == '-')
    && (forall i :: 0 <= i < |s| ==> IsNumberChar(s[i]))
    && NotAnInt(s)
  }

  /** What is asked of `repr`: finite floats have number texts, no two the same; `NaN` and `Infinity` are printable. */
  ghost predicate IsFloatText(f: FloatText) {
    && (forall x: Bits :: Finite(x) ==> IsFloatLiteral(f(x)))
    && (forall x: Bits, y: Bits :: Finite(x) && Finite(y) && f(x) == f(y) ==> x == y)
    && (forall x: Bits :: Printable(f(x)))
  }

  /** It holds of every text from which finite floats are read back, as `float(repr(x)) == x`. */
  lemma TextReadBack(f: FloatText, read: string -> Option<Bits>)
    requires forall x: Bits :: Finite(x) ==> IsFloatLiteral(f(x)) && read(f(x)) == Some(x)
    requires forall x: Bits :: !Finite(x) ==> f(x) in {"NaN", "Infinity", "-Infinity"}
    ensures IsFloatText(f)
  {
    forall x: Bits
      ensures Printable(f(x))
    {
      if !Finite(x) { assert Printable("NaN") && Printable("Infinity") && Printable("-Infinity"); }
    }
    forall x: Bits, y: Bits | Finite(x) && Finite(y) && f(x) == f(y)
      ensures x == y
    {
      assert Some(x) == read(f(x)) == read(f(y)) == Some(y);
    }
  }

  /** The values that JSON text can hold: what `json.loads` returns. */
  predicate IsJson(v: Value) {
    match v
    case Float(x) => Finite(x)
    case List(items) => forall i :: 0 <= i < |items| ==> IsJson(items[i])
    case Dict(entries) =>
      && (forall i :: 0 <= i < |entries| ==> IsJson(entries[i].value))
      && (forall i, j :: 0 <= i < j < |entries| ==> entries[i].key != entries[j].key)
    case Tuple(_) => false
    case Other => false
    case _ => true
  }

  /** What may follow a value inside a larger text. */
  predicate IsStop(s: string) {
    s == "" || !IsNumberChar(s[0])
  }

  lemma IntTextChars(i: int)
    ensures IntText(i) != "" && (IsDigit(IntText(i)[0]) || IntText(i)[0] == '-')
    ensures forall k :: 0 <= k < |IntText(i)| ==> IsDigit(IntText(i)[k]) || IntText(i)[k] == '-'
  {
    IntHead(i);
    if i < 0 { assert IntText(i) == "-" + Decimal(-i); }
  }

  /** Two number texts followed by stops end at the same place. */
  lemma NumbersEnd(a: string, b: string, x: string, y: string)
    requires (forall i :: 0 <= i < |a| ==> IsNumberChar(a[i])) && IsStop(x)
    requires (forall i :: 0 <= i < |b| ==> IsNumberChar(b[i])) && IsStop(y)
    requires a + x == b + y
    ensures a == b && x == y
  {
    assert (a + x)[..|a|] == a && (a + x)[|a|..] == x;
    assert (b + y)[..|b|] == b && (b + y)[|b|..] == y;
    if |a| < |b| { NumberStops(a, b, x, y); }
    if |b| < |a| { NumberStops(b, a, y, x); }
  }

  lemma NumberStops(a: string, b: string, x: string, y: string)
    requires IsStop(x) && forall i :: 0 <= i < |b| ==> IsNumberChar(b[i])
    requires |a| < |b|
    ensures a + x != b + y
  {
    if x != "" { assert (a + x)[|a|] == x[0] && (b + y)[|a|] == b[|a|]; }
  }

  lemma EscapeSplits(c: char, d: char, x: string, y: string)
    requires Escape(c) + x == Escape(d) + y
    ensures c == d && x == y
  {
    var p, q := Escape(c), Escape(d);
    assert (p + x)[0] == p[0] && (q + y)[0] == q[0];
    if p[0] == '\\' {
      assert (p + x)[1] == p[1] && (q + y)[1] == q[1];
      if p[1] == 'u' {
        assert (p + x)[4] == p[4] && (q + y)[4] == q[4];
        assert (p + x)[5] == p[5] && (q + y)[5] == q[5];
        assert c as int == c as int / 16 * 16 + c as int % 16;
        assert d as int == d as int / 16 * 16 + d as int % 16;
      }
    }
    assert |p| == |q|;
    assert (p + x)[|p|..] == x && (q + y)[|q|..] == y;
  }

  lemma EscapeHead(c: char)
    ensures Escape(c)[0] != '\"' && forall i :: 0 <= i < |Escape(c)| ==> Escape(c)[i] >= ' '
  {}

  lemma EmptyQuoteDiffers(t: string, x: string, y: string)
    requires t != ""
    ensures EscapeAll("") + "\"" + x != EscapeAll(t) + "\"" + y
  {
    EscapeHead(t[0]);
    assert (EscapeAll("") + "\"" + x)[0] == '\"';
    assert (EscapeAll(t) + "\"" + y)[0] == Escape(t[0])[0];
  }

  lemma QuotedSplit(s: string, x: string)
    requires s != ""
    ensures EscapeAll(s) + "\"" + x == Escape(s[0]) + (EscapeAll(s[1..]) + "\"" + x)
  {
    Regroup(Escape(s[0]), EscapeAll(s[1..]), "\"", x);
    Regroup(EscapeAll(s[1..]), "\"", x, "");
  }

  lemma {:induction false} QuotedEnd(s: string, t: string, x: string, y: string)
    requires EscapeAll(s) + "\"" + x == EscapeAll(t) + "\"" + y
    ensures s == t && x == y
  {
    if s == "" && t == "" {
      assert EscapeAll("") + "\"" == "\"";
      SameText("\"", x, y);
    } else if s == "" {
      EmptyQuoteDiffers(t, x, y);
    } else if t == "" {
      EmptyQuoteDiffers(s, y, x);
    } else {
      QuotedSplit(s, x);
      QuotedSplit(t, y);
      EscapeSplits(s[0], t[0], EscapeAll(s[1..]) + "\"" + x, EscapeAll(t[1..]) + "\"" + y);
      QuotedEnd(s[1..], t[1..], x, y);
      assert s == [s[0]] + s[1..] && t == [t[0]] + t[1..];
    }
  }

  lemma QuoteEnd(s: string, t: string, x: string, y: string)
    requires Quote(s) + x == Quote(t) + y
    ensures s == t && x == y
  {
    assert (Quote(s) + x)[1..] == EscapeAll(s) + "\"" + x;
    assert (Quote(t) + y)[1..] == EscapeAll(t) + "\"" + y;
    QuotedEnd(s, t, x, y);
  }

  /** The first character tells what kind of value follows. */
  function Kind(c: char): int {
    if c == 'n' then 0 else if c == 't' then 1 else if c == 'f' then 2
    else if c == '\"' then 3 else if c == '[' then 4 else if c == '{' then 5
    else if IsDigit(c) || c == '-' then 6 else 7
  }

  function KindOf(v: Value): int
    requires IsJson(v)
  {
    match v
    case Null => 0
    case Bool(b) => if b then 1 else 2
    case Str(_) => 3
    case List(_) => 4
    case Dict(_) => 5
    case _ => 6
  }

  lemma DumpsHead(f: FloatText, v: Value)
    requires IsFloatText(f) && IsJson(v)
    ensures Dumps(f, v) != "" && Kind(Dumps(f, v)[0]) == KindOf(v)
  {
    match v
    case Int(i) => IntTextChars(i);
    case _ =>
  }

  lemma NumberEnd(f: FloatText, v: Value, w: Value, x: string, y: string)
    requires IsFloatText(f) && (v.Int? || v.Float?) && (w.Int? || w.Float?) && IsJson(v) && IsJson(w)
    requires Dumps(f, v) + x == Dumps(f, w) + y && IsStop(x) && IsStop(y)
    ensures v == w && x == y
  {
    if v.Int? { IntTextChars(v.i); }
    if w.Int? { IntTextChars(w.i); }
    NumbersEnd(Dumps(f, v), Dumps(f, w), x, y);
    if v.Int? && w.Int? { IntTextInjective(v.i, w.i); }
  }

  /** Text determines the value: equal texts, each followed by a stop, hold the same value. */
  lemma {:induction false} DumpsEnd(f: FloatText, v: Value, w: Value, x: string, y: string)
    requires IsFloatText(f) && IsJson(v) && IsJson(w)
    requires Dumps(f, v) + x == Dumps(f, w) + y && IsStop(x) && IsStop(y)
    ensures v == w && x == y
    decreases v, 0
  {
    SameKind(f, v, w, x, y);
    match v
    case Null => SameText("null", x, y);
    case Bool(b) => SameText(Dumps(f, v), x, y);
    case Str(s) => QuoteEnd(s, w.s, x, y);
    case List(items) =>
      SameBody("[", DumpsItems(f, items), DumpsItems(f, w.items), "]", x, y);
      ItemsEnd(f, items, w.items, x, y);
    case Dict(entries) =>
      SameBody("{", DumpsEntries(f, entries), DumpsEntries(f, w.entries), "}", x, y);
      EntriesEnd(f, entries, w.entries, x, y);
    case _ => NumberEnd(f, v, w, x, y);
  }

  lemma SameText(a: string, x: string, y: string)
    requires a + x == a + y
    ensures x == y
  {
    assert (a + x)[|a|..] == x && (a + y)[|a|..] == y;
  }

  lemma SameBody(open: string, a: string, b: string, close: string, x: string, y: string)
    requires open + a + close + x == open + b + close + y
    ensures a + close + x == b + close + y
  {
    assert open + a + close + x == open + (a + close + x);
    assert open + b + close + y == open + (b + close + y);
    SameText(open, a + close + x, b + close + y);
  }

  lemma SameKind(f: FloatText, v: Value, w: Value, x: string, y: string)
    requires IsFloatText(f) && IsJson(v) && IsJson(w) && Dumps(f, v) + x == Dumps(f, w) + y
    ensures KindOf(v) == KindOf(w)
  {
    DumpsHead(f, v);
    DumpsHead(f, w);
    assert (Dumps(f, v) + x)[0] == Dumps(f, v)[0] && (Dumps(f, w) + y)[0] == Dumps(f, w)[0];
  }

  /** A list's items are its first item and the text after it: a comma and more items, or the end. */
  function AfterFirst(f: FloatText, items: seq<Value>, x: string): string
    requires items != []
  {
    if |items| == 1 then "]" + x else "," + (DumpsItems(f, items[1..]) + "]" + x)
  }

  lemma ItemsSplit(f: FloatText, items: seq<Value>, x: string)
    requires items != []
    ensures DumpsItems(f, items) + "]" + x == Dumps(f, items[0]) + AfterFirst(f, items, x)
  {
    if |items| > 1 {
      Regroup(Dumps(f, items[0]), ",", DumpsItems(f, items[1..]), "]" + x);
      Regroup(Dumps(f, items[0]) + "," + DumpsItems(f, items[1..]), "]", x, "");
    }
  }

  lemma EmptyItemsDiffer(f: FloatText, items: seq<Value>, x: string, y: string)
    requires IsFloatText(f) && IsJson(List(items)) && items != []
    ensures DumpsItems(f, items) + "]" + x != DumpsItems(f, []) + "]" + y
  {
    ItemsSplit(f, items, x);
    DumpsHead(f, items[0]);
    assert (DumpsItems(f, items) + "]" + x)[0] == Dumps(f, items[0])[0];
    assert (DumpsItems(f, []) + "]" + y)[0] == ']';
  }

  lemma NoItemsEnd(f: FloatText, a: seq<Value>, b: seq<Value>, x: string, y: string)
    requires IsFloatText(f) && IsJson(List(a)) && IsJson(List(b)) && (a == [] || b == [])
    requires DumpsItems(f, a) + "]" + x == DumpsItems(f, b) + "]" + y
    ensures a == b && x == y
  {
    hide Dumps, IsFloatText;
    if a != [] { EmptyItemsDiffer(f, a, x, y); }
    if b != [] { EmptyItemsDiffer(f, b, y, x); }
    assert ("" + "]" + x)[1..] == x && ("" + "]" + y)[1..] == y;
  }

  lemma {:induction false} ItemsEnd(f: FloatText, a: seq<Value>, b: seq<Value>, x: string, y: string)
    requires IsFloatText(f) && IsJson(List(a)) && IsJson(List(b))
    requires DumpsItems(f, a) + "]" + x == DumpsItems(f, b) + "]" + y
    ensures a == b && x == y
    decreases a, 1
  {
    hide Dumps, IsFloatText;
    if a == [] || b == [] {
      NoItemsEnd(f, a, b, x, y);
    } else {
      ItemsSplit(f, a, x);
      ItemsSplit(f, b, y);
      DumpsEnd(f, a[0], b[0], AfterFirst(f, a, x), AfterFirst(f, b, y));
      AfterFirstEnd(f, a, b, x, y);
      if |a| > 1 {
        TailIsJson(a);
        TailIsJson(b);
        ItemsEnd(f, a[1..], b[1..], x, y);
      }
      assert a == [a[0]] + a[1..] && b == [b[0]] + b[1..];
    }
  }

  lemma TailIsJson(a: seq<Value>)
    requires IsJson(List(a)) && a != []
    ensures IsJson(List(a[1..]))
  {}

  lemma AfterFirstEnd(f: FloatText, a: seq<Value>, b: seq<Value>, x: string, y: string)
    requires a != [] && b != [] && AfterFirst(f, a, x) == AfterFirst(f, b, y)
    ensures |a| == 1 <==> |b| == 1
    ensures |a| == 1 ==> x == y && a[1..] == b[1..]
    ensures |a| > 1 ==> DumpsItems(f, a[1..]) + "]" + x == DumpsItems(f, b[1..]) + "]" + y
  {
    var p, q := AfterFirst(f, a, x), AfterFirst(f, b, y);
    assert |a| == 1 ==> p[0] == ']' && p[1..] == x;
    assert |b| == 1 ==> q[0] == ']' && q[1..] == y;
    assert |a| > 1 ==> p[0] == ',' && p[1..] == DumpsItems(f, a[1..]) + "]" + x;
    assert |b| > 1 ==> q[0] == ',' && q[1..] == DumpsItems(f, b[1..]) + "]" + y;
  }

  function AfterEntry(f: FloatText, es: seq<Entry>, x: string): string
    requires es != []
  {
    if |es| == 1 then "}" + x else "," + (DumpsEntries(f, es[1..]) + "}" + x)
  }

  lemma EntryThenRest(f: FloatText, es: seq<Entry>, x: string)
    requires es != []
    ensures DumpsEntries(f, es) + "}" + x == DumpsEntry(f, es[0]) + AfterEntry(f, es, x)
  {
    hide DumpsEntry;
    if |es| > 1 { JoinAround(DumpsEntry(f, es[0]), ",", DumpsEntries(f, es[1..]), "}", x); }
  }

  lemma JoinAround(a: string, b: string, c: string, d: string, x: string)
    ensures a + b + c + d + x == a + (b + (c + d + x))
  {}

  lemma EntriesSplit(f: FloatText, es: seq<Entry>, x: string)
    requires es != []
    ensures DumpsEntries(f, es) + "}" + x
         == Quote(es[0].key) + (":" + (Dumps(f, es[0].value) + AfterEntry(f, es, x)))
  {
    EntryThenRest(f, es, x);
    Regroup(Quote(es[0].key), ":", Dumps(f, es[0].value), AfterEntry(f, es, x));
  }

  lemma EmptyEntriesDiffer(f: FloatText, es: seq<Entry>, x: string, y: string)
    requires es != []
    ensures DumpsEntries(f, es) + "}" + x != DumpsEntries(f, []) + "}" + y
  {
    EntriesSplit(f, es, x);
    assert (DumpsEntries(f, es) + "}" + x)[0] == '\"';
    assert (DumpsEntries(f, []) + "}" + y)[0] == '}';
  }

  lemma {:induction false} EntriesEnd(f: FloatText, a: seq<Entry>, b: seq<Entry>, x: string, y: string)
    requires IsFloatText(f) && IsJson(Dict(a)) && IsJson(Dict(b))
    requires DumpsEntries(f, a) + "}" + x == DumpsEntries(f, b) + "}" + y
    ensures a == b && x == y
    decreases a, 1
  {
    if a == [] || b == [] {
      if a != [] { EmptyEntriesDiffer(f, a, x, y); }
      if b != [] { EmptyEntriesDiffer(f, b, y, x); }
      assert ("" + "}" + x)[1..] == x && ("" + "}" + y)[1..] == y;
    } else {
      FirstEntryEnd(f, a, b, x, y);
      DumpsEnd(f, a[0].value, b[0].value, AfterEntry(f, a, x), AfterEntry(f, b, y));
      AfterEntryEnd(f, a, b, x, y);
      if |a| > 1 {
        EntriesTailIsJson(a);
        EntriesTailIsJson(b);
        EntriesEnd(f, a[1..], b[1..], x, y);
      }
      assert a == [a[0]] + a[1..] && b == [b[0]] + b[1..];
    }
  }

  lemma EntriesTailIsJson(a: seq<Entry>)
    requires IsJson(Dict(a)) && a != []
    ensures IsJson(Dict(a[1..]))
  {}

  lemma FirstEntryEnd(f: FloatText, a: seq<Entry>, b: seq<Entry>, x: string, y: string)
    requires a != [] && b != []
    requires DumpsEntries(f, a) + "}" + x == DumpsEntries(f, b) + "}" + y
    ensures a[0].key == b[0].key
    ensures Dumps(f, a[0].value) + AfterEntry(f, a, x) == Dumps(f, b[0].value) + AfterEntry(f, b, y)
    ensures IsStop(AfterEntry(f, a, x)) && IsStop(AfterEntry(f, b, y))
  {
    EntriesSplit(f, a, x);
    EntriesSplit(f, b, y);
    var p, q := Dumps(f, a[0].value) + AfterEntry(f, a, x), Dumps(f, b[0].value) + AfterEntry(f, b, y);
    QuoteEnd(a[0].key, b[0].key, ":" + p, ":" + q);
    assert (":" + p)[1..] == p && (":" + q)[1..] == q;
  }

  lemma AfterEntryEnd(f: FloatText, a: seq<Entry>, b: seq<Entry>, x: string, y: string)
    requires a != [] && b != [] && AfterEntry(f, a, x) == AfterEntry(f, b, y)
    ensures |a| == 1 <==> |b| == 1
    ensures |a| == 1 ==> x == y && a[1..] == b[1..]
    ensures |a| > 1 ==> DumpsEntries(f, a[1..]) + "}" + x == DumpsEntries(f, b[1..]) + "}" + y
  {
    var p, q := AfterEntry(f, a, x), AfterEntry(f, b, y);
    assert |a| == 1 ==> p[0] == '}' && p[1..] == x;
    assert |b| == 1 ==> q[0] == '}' && q[1..] == y;
    assert |a| > 1 ==> p[0] == ',' && p[1..] == DumpsEntries(f, a[1..]) + "}" + x;
    assert |b| > 1 ==> q[0] == ',' && q[1..] == DumpsEntries(f, b[1..]) + "}" + y;
  }

  // ------------------------------------------------------- no line breaks inside

  lemma {:induction false} EscapedIsPrintable(s: string)
    ensures Printable(EscapeAll(s))
  {
    if s != "" {
      EscapeHead(s[0]);
      EscapedIsPrintable(s[1..]);
    }
  }

  /** JSON text has no control characters, so a line break can only end a record. */
  lemma {:induction false} DumpsIsPrintable(f: FloatText, v: Value)
    requires IsFloatText(f)
    ensures Printable(Dumps(f, v))
    decreases v, 0
  {
    match v
    case Int(i) => IntTextChars(i);
    case Str(s) => EscapedIsPrintable(s);
    case List(items) => ItemsArePrintable(f, items);
    case Tuple(items) => ItemsArePrintable(f, items);
    case Dict(entries) => EntriesArePrintable(f, entries);
    case _ =>
  }

  lemma {:induction false} ItemsArePrintable(f: FloatText, items: seq<Value>)
    requires IsFloatText(f)
    ensures Printable(DumpsItems(f, items))
    decreases items, 0
  {
    if items != [] {
      DumpsIsPrintable(f, items[0]);
      ItemsArePrintable(f, items[1..]);
    }
  }

  lemma {:induction false} EntriesArePrintable(f: FloatText, es: seq<Entry>)
    requires IsFloatText(f)
    ensures Printable(DumpsEntries(f, es))
    decreases es, 0
  {
    if es != [] {
      EscapedIsPrintable(es[0].key);
      DumpsIsPrintable(f, es[0].value);
      EntriesArePrintable(f, es[1..]);
    }
  }

  lemma {:induction false} PrintableBytes(s: string)
    requires Printable(s)
    ensures forall i :: 0 <= i < |Utf8(s)| ==> Utf8(s)[i] >= 32
  {
    if s != "" {
      assert forall i :: 0 <= i < |Utf8Char(s[0])| ==> Utf8Char(s[0])[i] >= 32;
      PrintableBytes(s[1..]);
    }
  }
}
