/** The self-delimiting receipt encoding of one value, and the decoder that inverts it. */
module Receipt {
  import opened Text
  import opened Sorting
  import opened Values

  // ASCII codes of the markers.
  const COLON: byte := 58
  const SEMI: byte := 59
  const LETTER_A: byte := 97
  const LETTER_D: byte := 100
  const LETTER_F: byte := 102
  const LETTER_N: byte := 110
  const LETTER_O: byte := 111
  const LETTER_S: byte := 115
  const LETTER_T: byte := 116

  function KeyOrder(es: seq<Entry>): (p: seq<nat>)
    ensures |p| == |es| && forall k :: 0 <= k < |p| ==> p[k] < |es|
  {
    StableOrder(Keys(es, (e: Entry) => Utf8(e.key)))
  }

  /** A count, a body and the closing semicolon. */
  function Framed(n: nat, body: Bytes): Bytes {
    Utf8(Decimal(n)) + [COLON] + body + [SEMI]
  }

  function NumberBytes(x: Bits): Bytes {
    [LETTER_D] + Hex(x, 16) + [SEMI]
  }

  function TextBytes(s: string): Bytes {
    [LETTER_S] + Framed(|Utf8(s)|, Utf8(s))
  }

  /** `canonical_receipt_bytes`; `None` is the raised `ValueError`. */
  function Encode(v: Value): Option<Bytes>
    decreases v, 0, 0
  {
    match v
    case Null => Some([LETTER_N, SEMI])
    case Bool(b) => Some(if b then [LETTER_T, SEMI] else [LETTER_F, SEMI])
    case Int(i) => if -SAFE <= i <= SAFE then Some(NumberBytes(IntBits(i))) else None
    case Float(x) => if Finite(x) then Some(NumberBytes(NormalBits(x))) else None
    case Str(s) => Some(TextBytes(s))
    case List(items) =>
      var body :- EncodeItems(items);
      Some([LETTER_A] + Framed(|items|, body))
    case Tuple(items) =>
      var body :- EncodeItems(items);
      Some([LETTER_A] + Framed(|items|, body))
    case Dict(entries) =>
      var body :- EncodeEntries(entries, KeyOrder(entries));
      Some([LETTER_O] + Framed(|entries|, body))
    case Other => None
  }

  function EncodeItems(items: seq<Value>): Option<Bytes>
    decreases items, 0, 0
  {
    if items == [] then Some([])
    else
      var first :- Encode(items[0]);
      var rest :- EncodeItems(items[1..]);
      Some(first + rest)
  }

  function EncodeEntries(es: seq<Entry>, p: seq<nat>): Option<Bytes>
    requires forall k :: 0 <= k < |p| ==> p[k] < |es|
    decreases es, 1, |p|
  {
    if p == [] then Some([])
    else
      var e := es[p[0]];
      var value :- Encode(e.value);
      var rest :- EncodeEntries(es, p[1..]);
      Some(TextBytes(e.key) + value + rest)
  }

  /** The values the encoder accepts. */
  predicate InDomain(v: Value) {
    match v
    case Int(i) => -SAFE <= i <= SAFE
    case Float(x) => Finite(x)
    case List(items) => forall i :: 0 <= i < |items| ==> InDomain(items[i])
    case Tuple(items) => forall i :: 0 <= i < |items| ==> InDomain(items[i])
    case Dict(entries) => forall i :: 0 <= i < |entries| ==> InDomain(entries[i].value)
    case Other => false
    case _ => true
  }

  // ---------------------------------------------------------- what is identified

  /** The representative of the values that must share an encoding. */
  function Normal(v: Value): Value
    decreases v, 0, 0
  {
    match v
    case Int(i) => if -SAFE <= i <= SAFE then Float(IntBits(i)) else v
    case Float(x) => Float(NormalBits(x))
    case List(items) => List(NormalItems(items))
    case Tuple(items) => List(NormalItems(items))
    case Dict(entries) => Dict(NormalEntries(entries, KeyOrder(entries)))
    case _ => v
  }

  function NormalItems(items: seq<Value>): (r: seq<Value>)
    ensures |r| == |items|
    decreases items, 0, 0
  {
    if items == [] then [] else [Normal(items[0])] + NormalItems(items[1..])
  }

  function NormalEntries(es: seq<Entry>, p: seq<nat>): (r: seq<Entry>)
    requires forall k :: 0 <= k < |p| ==> p[k] < |es|
    ensures |r| == |p| && forall k :: 0 <= k < |p| ==> r[k].key == es[p[k]].key
    decreases es, 1, |p|
  {
    if p == [] then []
    else [Entry(es[p[0]].key, Normal(es[p[0]].value))] + NormalEntries(es, p[1..])
  }

  // -------------------------------------------------------------------- decoder

  /** A decimal count up to its colon, and the bytes after the colon. */
  function DecodeCount(b: Bytes): (r: Option<(nat, Bytes)>)
    ensures r.Some? ==> |r.value.1| < |b|
  {
    var k := DigitRun(b);
    if k < |b| && b[k] == COLON then
      var digits := seq(k, i requires 0 <= i < k => b[i] as char);
      Some((DigitsValue(digits), b[k + 1..]))
    else None
  }

  function DigitRun(b: Bytes): (k: nat)
    ensures k <= |b| && forall i :: 0 <= i < k ==> 48 <= b[i] <= 57
  {
    if b != [] && 48 <= b[0] <= 57 then 1 + DigitRun(b[1..]) else 0
  }

  function DecodeValue(b: Bytes): (r: Option<(Value, Bytes)>)
    ensures r.Some? ==> |r.value.1| < |b|
    decreases |b|, 0
  {
    if b == [] then None
    else if b[0] == LETTER_D then DecodeNumber(b[1..])
    else if b[0] == LETTER_S then DecodeText(b[1..])
    else if b[0] == LETTER_A then DecodeList(b[1..])
    else if b[0] == LETTER_O then DecodeObject(b[1..])
    else DecodeConstant(b)
  }

  function DecodeConstant(b: Bytes): (r: Option<(Value, Bytes)>)
    ensures r.Some? ==> |r.value.1| < |b|
  {
    if |b| < 2 || b[1] != SEMI then None
    else if b[0] == LETTER_N then Some((Null, b[2..]))
    else if b[0] == LETTER_T then Some((Bool(true), b[2..]))
    else if b[0] == LETTER_F then Some((Bool(false), b[2..]))
    else None
  }

  function DecodeNumber(b: Bytes): (r: Option<(Value, Bytes)>)
    ensures r.Some? ==> |r.value.1| < |b|
  {
    if |b| >= 17 && b[16] == SEMI && 0 <= HexValue(b[..16]) <= 0xFFFF_FFFF_FFFF_FFFF then
      Some((Float(HexValue(b[..16])), b[17..]))
    else None
  }

  function DecodeText(b: Bytes): (r: Option<(Value, Bytes)>)
    ensures r.Some? ==> |r.value.1| < |b|
  {
    var (n, rest) :- DecodeCount(b);
    if |rest| <= n || rest[n] != SEMI then None
    else
      var s :- DecodeUtf8(rest[..n]);
      Some((Str(s), rest[n + 1..]))
  }

  function DecodeList(b: Bytes): (r: Option<(Value, Bytes)>)
    ensures r.Some? ==> |r.value.1| < |b|
    decreases |b|, 2
  {
    var (n, rest) :- DecodeCount(b);
    var (items, tail) :- DecodeItems(n, rest);
    if tail == [] || tail[0] != SEMI then None else Some((List(items), tail[1..]))
  }

  function DecodeObject(b: Bytes): (r: Option<(Value, Bytes)>)
    ensures r.Some? ==> |r.value.1| < |b|
    decreases |b|, 2
  {
    var (n, rest) :- DecodeCount(b);
    var (entries, tail) :- DecodeEntries(n, rest);
    if tail == [] || tail[0] != SEMI then None else Some((Dict(entries), tail[1..]))
  }

  function DecodeItems(n: nat, b: Bytes): (r: Option<(seq<Value>, Bytes)>)
    ensures r.Some? ==> |r.value.1| <= |b|
    decreases |b|, 1
  {
    if n == 0 then Some(([], b))
    else
      var (v, rest) :- DecodeValue(b);
      var (vs, tail) :- DecodeItems(n - 1, rest);
      Some(([v] + vs, tail))
  }

  function DecodeEntries(n: nat, b: Bytes): (r: Option<(seq<Entry>, Bytes)>)
    ensures r.Some? ==> |r.value.1| <= |b|
    decreases |b|, 1
  {
    if n == 0 then Some(([], b))
    else
      var (key, afterKey) :- DecodeValue(b);
      if !key.Str? then None
      else
        var (v, rest) :- DecodeValue(afterKey);
        var (es, tail) :- DecodeEntries(n - 1, rest);
        Some(([Entry(key.s, v)] + es, tail))
  }

  // ----------------------------------------------------------- decoder inverts

  lemma {:induction false} AsciiBytes(s: string)
    requires forall i :: 0 <= i < |s| ==> IsDigit(s[i])
    ensures |Utf8(s)| == |s| && forall i :: 0 <= i < |s| ==> Utf8(s)[i] == s[i] as int
  {
    if s != "" { AsciiBytes(s[1..]); }
  }

  lemma {:induction false} DigitRunIs(k: nat, b: Bytes)
    requires k < |b| && (forall i :: 0 <= i < k ==> 48 <= b[i] <= 57) && b[k] == COLON
    ensures DigitRun(b) == k
  {
    if k > 0 { DigitRunIs(k - 1, b[1..]); }
  }

  lemma CountInverts(n: nat, rest: Bytes)
    ensures DecodeCount(Utf8(Decimal(n)) + [COLON] + rest) == Some((n, rest))
  {
    var digits := Decimal(n);
    AsciiBytes(digits);
    var k := |digits|;
    var b := Utf8(digits) + [COLON] + rest;
    DigitRunIs(k, b);
    assert seq(k, i requires 0 <= i < k => b[i] as char) == digits;
    DecimalValue(n);
    assert b[k + 1..] == rest;
  }

  lemma Dispatch(b: Bytes)
    ensures DecodeValue([LETTER_D] + b) == DecodeNumber(b)
    ensures DecodeValue([LETTER_S] + b) == DecodeText(b)
    ensures DecodeValue([LETTER_A] + b) == DecodeList(b)
    ensures DecodeValue([LETTER_O] + b) == DecodeObject(b)
  {
    assert ([LETTER_D] + b)[1..] == b && ([LETTER_S] + b)[1..] == b;
    assert ([LETTER_A] + b)[1..] == b && ([LETTER_O] + b)[1..] == b;
  }

  lemma TextInverts(s: string, rest: Bytes)
    ensures DecodeValue(TextBytes(s) + rest) == Some((Str(s), rest))
  {
    var b := Framed(|Utf8(s)|, Utf8(s)) + rest;
    DecodeTextSteps(s, Utf8(s), rest);
    Dispatch(b);
    assert TextBytes(s) + rest == [LETTER_S] + b;
  }

  lemma DecodeTextSteps(s: string, encoded: Bytes, rest: Bytes)
    requires encoded == Utf8(s)
    ensures DecodeText(Framed(|encoded|, encoded) + rest) == Some((Str(s), rest))
  {
    hide Utf8, Decimal, DecodeCount;
    var after := encoded + ([SEMI] + rest);
    CountInverts(|encoded|, after);
    assert after[..|encoded|] == encoded && after[|encoded| + 1..] == rest;
    DecodeUtf8Inverts(s);
    FramedSplit(LETTER_S, |encoded|, encoded, rest);
  }

  lemma NumberInverts(x: Bits, rest: Bytes)
    ensures DecodeValue(NumberBytes(x) + rest) == Some((Float(x), rest))
  {
    hide Hex, HexValue, Pow2, DecodeValue;
    var b := Hex(x, 16) + [SEMI] + rest;
    assert b[..16] == Hex(x, 16) && b[17..] == rest;
    Pow2Word();
    HexInverts(x, 16);
    Dispatch(b);
    assert NumberBytes(x) + rest == [LETTER_D] + b;
  }

  lemma Pow2Word()
    ensures Pow2(4 * 16) == 0x1_0000_0000_0000_0000
  {
    var e := 11;
    Pow2Shift(e);
    Pow2Byte(e + 45);
  }

  lemma Pow2Shift(e: nat)
    requires e == 11
    ensures Pow2(e + 45) == 0x100_0000_0000_0000
  {
    Pow2Byte(e + 37);
    Pow2Byte(e + 29);
    Pow2Byte(e + 21);
    Pow2Byte(e + 13);
    Pow2Byte(e + 5);
    Pow2Byte(e - 3);
    Pow2Byte(e - 11);
  }

  /** Decoding the encoding of a value gives the value back, normalised, and stops at its end. */
  lemma {:induction false} DecodeInverts(v: Value, rest: Bytes)
    requires Encode(v).Some?
    ensures DecodeValue(Encode(v).value + rest) == Some((Normal(v), rest))
    decreases v, 0, 0
  {
    match v
    case Int(i) => NumberInverts(IntBits(i), rest);
    case Float(x) => NumberInverts(NormalBits(x), rest);
    case Str(s) => TextInverts(s, rest);
    case List(items) => SequenceInverts(items, rest);
    case Tuple(items) => SequenceInverts(items, rest);
    case Dict(entries) => ObjectInverts(entries, rest);
    case Null => assert ([LETTER_N, SEMI] + rest)[2..] == rest;
    case Bool(b) => assert (Encode(v).value + rest)[2..] == rest;
  }

  lemma DecodeObjectSteps(n: nat, body: Bytes, rest: Bytes, es: seq<Entry>)
    requires DecodeEntries(n, body + ([SEMI] + rest)) == Some((es, [SEMI] + rest))
    ensures DecodeValue([LETTER_O] + Framed(n, body) + rest) == Some((Dict(es), rest))
  {
    var tail := [SEMI] + rest;
    FramedSplit(LETTER_O, n, body, rest);
    CountInverts(n, body + tail);
    Dispatch(Framed(n, body) + rest);
    assert tail[1..] == rest;
  }

  lemma DecodeListSteps(n: nat, body: Bytes, rest: Bytes, items: seq<Value>)
    requires DecodeItems(n, body + ([SEMI] + rest)) == Some((items, [SEMI] + rest))
    ensures DecodeValue([LETTER_A] + Framed(n, body) + rest) == Some((List(items), rest))
  {
    var tail := [SEMI] + rest;
    FramedSplit(LETTER_A, n, body, rest);
    CountInverts(n, body + tail);
    Dispatch(Framed(n, body) + rest);
    assert tail[1..] == rest;
  }

  lemma FramedSplit(letter: byte, n: nat, body: Bytes, rest: Bytes)
    ensures Framed(n, body) + rest == Utf8(Decimal(n)) + [COLON] + (body + ([SEMI] + rest))
    ensures [letter] + Framed(n, body) + rest == [letter] + (Framed(n, body) + rest)
  {
    Regroup(Utf8(Decimal(n)) + [COLON], body, [SEMI], rest);
  }

  lemma DecodeItemsSteps(n: nat, b: Bytes, v: Value, rest: Bytes, vs: seq<Value>, tail: Bytes)
    requires n > 0 && DecodeValue(b) == Some((v, rest)) && DecodeItems(n - 1, rest) == Some((vs, tail))
    ensures DecodeItems(n, b) == Some(([v] + vs, tail))
  {}

  lemma DecodeEntriesSteps(n: nat, b: Bytes, key: string, afterKey: Bytes, v: Value, rest: Bytes, es: seq<Entry>, tail: Bytes)
    requires n > 0 && DecodeValue(b) == Some((Str(key), afterKey)) && DecodeValue(afterKey) == Some((v, rest))
    requires DecodeEntries(n - 1, rest) == Some((es, tail))
    ensures DecodeEntries(n, b) == Some(([Entry(key, v)] + es, tail))
  {}

  lemma {:induction false} ObjectInverts(es: seq<Entry>, rest: Bytes)
    requires Encode(Dict(es)).Some?
    ensures DecodeValue(Encode(Dict(es)).value + rest) == Some((Normal(Dict(es)), rest))
    decreases es, 2, 0
  {
    var p := KeyOrder(es);
    var body := EncodeEntries(es, p).value;
    EntriesInvert(es, p, [SEMI] + rest);
    DecodeObjectSteps(|es|, body, rest, NormalEntries(es, p));
  }

  lemma {:induction false} SequenceInverts(items: seq<Value>, rest: Bytes)
    requires EncodeItems(items).Some?
    ensures DecodeValue(Encode(List(items)).value + rest) == Some((List(NormalItems(items)), rest))
    decreases items, 1, 0
  {
    var body := EncodeItems(items).value;
    ItemsInvert(items, [SEMI] + rest);
    DecodeListSteps(|items|, body, rest, NormalItems(items));
  }

  lemma {:induction false} ItemsInvert(items: seq<Value>, rest: Bytes)
    requires EncodeItems(items).Some?
    ensures DecodeItems(|items|, EncodeItems(items).value + rest) == Some((NormalItems(items), rest))
    decreases items, 0, 0
  {
    hide Encode, Normal, DecodeValue;
    if items == [] {
      assert [] + rest == rest;
    } else {
      var tail := EncodeItems(items[1..]).value + rest;
      DecodeInverts(items[0], tail);
      ItemsInvert(items[1..], rest);
      assert EncodeItems(items).value + rest == Encode(items[0]).value + tail;
      DecodeItemsSteps(|items|, EncodeItems(items).value + rest, Normal(items[0]), tail, NormalItems(items[1..]), rest);
    }
  }

  lemma EntriesSplit(es: seq<Entry>, p: seq<nat>, rest: Bytes)
    requires p != [] && forall k :: 0 <= k < |p| ==> p[k] < |es|
    requires EncodeEntries(es, p).Some?
    ensures Encode(es[p[0]].value).Some? && EncodeEntries(es, p[1..]).Some?
    ensures EncodeEntries(es, p).value + rest
         == TextBytes(es[p[0]].key) + (Encode(es[p[0]].value).value + (EncodeEntries(es, p[1..]).value + rest))
  {
    Regroup(TextBytes(es[p[0]].key), Encode(es[p[0]].value).value, EncodeEntries(es, p[1..]).value, rest);
  }

  lemma {:induction false} EntriesInvert(es: seq<Entry>, p: seq<nat>, rest: Bytes)
    requires forall k :: 0 <= k < |p| ==> p[k] < |es|
    requires EncodeEntries(es, p).Some?
    ensures DecodeEntries(|p|, EncodeEntries(es, p).value + rest) == Some((NormalEntries(es, p), rest))
    decreases es, 1, |p|
  {
    if p == [] {
      assert [] + rest == rest;
    } else {
      var e := es[p[0]];
      var tail := EncodeEntries(es, p[1..]).value + rest;
      var afterKey := Encode(e.value).value + tail;
      TextInverts(e.key, afterKey);
      DecodeInverts(e.value, tail);
      EntriesInvert(es, p[1..], rest);
      var b := TextBytes(e.key) + afterKey;
      DecodeEntriesSteps(|p|, b, e.key, afterKey, Normal(e.value), tail, NormalEntries(es, p[1..]), rest);
      EntriesSplit(es, p, rest);
    }
  }

  /** The code is prefix-free: the encodings in any concatenation can be told apart. */
  lemma PrefixFree(v: Value, w: Value, x: Bytes, y: Bytes)
    requires Encode(v).Some? && Encode(w).Some?
    requires Encode(v).value + x == Encode(w).value + y
    ensures Normal(v) == Normal(w) && x == y
  {
    DecodeInverts(v, x);
    DecodeInverts(w, y);
  }

  // ------------------------------------------- exactly the normal form is encoded

  /** The encoder fails exactly outside its domain. */
  lemma {:induction false} EncodesExactlyTheDomain(v: Value)
    ensures Encode(v).Some? <==> InDomain(v)
    decreases v, 0, 0
  {
    match v
    case List(items) => ItemsEncodeExactly(items);
    case Tuple(items) => ItemsEncodeExactly(items);
    case Dict(entries) =>
      var p := KeyOrder(entries);
      EntriesEncodeExactly(entries, p);
      assert forall i :: 0 <= i < |entries| ==> i in p;
    case _ =>
  }

  lemma {:induction false} ItemsEncodeExactly(items: seq<Value>)
    ensures EncodeItems(items).Some? <==> forall i :: 0 <= i < |items| ==> InDomain(items[i])
    decreases items, 0, 0
  {
    if items != [] {
      EncodesExactlyTheDomain(items[0]);
      ItemsEncodeExactly(items[1..]);
      assert items == [items[0]] + items[1..];
    }
  }

  lemma {:induction false} EntriesEncodeExactly(es: seq<Entry>, p: seq<nat>)
    requires forall k :: 0 <= k < |p| ==> p[k] < |es|
    ensures EncodeEntries(es, p).Some? <==> forall k :: k in p ==> InDomain(es[k].value)
    decreases es, 1, |p|
  {
    if p != [] {
      EncodesExactlyTheDomain(es[p[0]].value);
      EntriesEncodeExactly(es, p[1..]);
      assert p == [p[0]] + p[1..];
    }
  }

  /** A value and its normal form are encoded alike. */
  lemma {:induction false} NormalFormEncodesAlike(v: Value)
    ensures Encode(Normal(v)) == Encode(v)
    decreases v, 0, 0
  {
    match v
    case Int(i) => if -SAFE <= i <= SAFE { IntBitsInjective(i, i); }
    case List(items) => ItemsEncodeAlike(items);
    case Tuple(items) => ItemsEncodeAlike(items);
    case Dict(entries) => ObjectEncodesAlike(entries);
    case _ =>
  }

  lemma {:induction false} ObjectEncodesAlike(es: seq<Entry>)
    ensures Encode(Dict(NormalEntries(es, KeyOrder(es)))) == Encode(Dict(es))
    decreases es, 2, 0
  {
    var p := KeyOrder(es);
    var sorted := NormalEntries(es, p);
    var q := KeyOrder(sorted);
    SortedEntriesAlign(es, p, sorted);
    EntriesEncodeAlike(es, p, sorted, q);
    SameBodySameEncoding(es, p, sorted, q);
  }

  lemma SortedEntriesAlign(es: seq<Entry>, p: seq<nat>, sorted: seq<Entry>)
    requires p == KeyOrder(es) && sorted == NormalEntries(es, p)
    ensures forall k :: 0 <= k < |p| ==> sorted[KeyOrder(sorted)[k]] == Entry(es[p[k]].key, Normal(es[p[k]].value))
  {
    OrderOfSorted(es, p);
    forall k | 0 <= k < |p|
      ensures sorted[KeyOrder(sorted)[k]] == Entry(es[p[k]].key, Normal(es[p[k]].value))
    {
      NormalEntriesAt(es, p, k);
    }
  }

  lemma SameBodySameEncoding(es: seq<Entry>, p: seq<nat>, fs: seq<Entry>, q: seq<nat>)
    requires p == KeyOrder(es) && q == KeyOrder(fs)
    requires |es| == |fs| && EncodeEntries(es, p) == EncodeEntries(fs, q)
    ensures Encode(Dict(es)) == Encode(Dict(fs))
  {
    hide EncodeEntries, EncodeItems, Framed;
  }

  lemma {:induction false} NormalEntriesAt(es: seq<Entry>, p: seq<nat>, k: nat)
    requires forall k :: 0 <= k < |p| ==> p[k] < |es|
    requires k < |p|
    ensures NormalEntries(es, p)[k] == Entry(es[p[k]].key, Normal(es[p[k]].value))
    decreases |p|
  {
    if k > 0 { NormalEntriesAt(es, p[1..], k - 1); }
  }

  lemma {:induction false} ItemsEncodeAlike(items: seq<Value>)
    ensures EncodeItems(NormalItems(items)) == EncodeItems(items)
    decreases items, 0, 0
  {
    if items != [] {
      NormalFormEncodesAlike(items[0]);
      ItemsEncodeAlike(items[1..]);
      assert NormalItems(items)[1..] == NormalItems(items[1..]);
    }
  }

  /** Sorted entries are left in place by sorting. */
  lemma OrderOfSorted(es: seq<Entry>, p: seq<nat>)
    requires p == KeyOrder(es)
    ensures KeyOrder(NormalEntries(es, p)) == seq(|es|, i => i)
  {
    var sorted := NormalEntries(es, p);
    var key := (e: Entry) => Utf8(e.key);
    var keys, before := Keys(sorted, key), Keys(es, key);
    var identity: seq<nat> := seq(|es|, i requires i >= 0 => i);
    forall i | 0 <= i < |es|
      ensures i in identity
    {
      assert identity[i] == i;
    }
    forall i, j | 0 <= i < j < |es|
      ensures Precedes(keys, identity[i], identity[j])
    {
      assert Precedes(before, p[i], p[j]);
      assert keys[i] == before[p[i]] && keys[j] == before[p[j]];
    }
    assert IsStableOrder(keys, identity);
    StableOrderUnique(keys, StableOrder(keys), identity);
  }

  lemma {:induction false} EntriesEncodeAlike(es: seq<Entry>, p: seq<nat>, fs: seq<Entry>, q: seq<nat>)
    requires forall k :: 0 <= k < |p| ==> p[k] < |es|
    requires |q| == |p| && forall k :: 0 <= k < |q| ==> q[k] < |fs|
    requires forall k :: 0 <= k < |p| ==> fs[q[k]] == Entry(es[p[k]].key, Normal(es[p[k]].value))
    ensures EncodeEntries(fs, q) == EncodeEntries(es, p)
    decreases es, 1, |p|
  {
    if p != [] {
      NormalFormEncodesAlike(es[p[0]].value);
      assert fs[q[0]] == Entry(es[p[0]].key, Normal(es[p[0]].value));
      EntriesEncodeAlike(es, p[1..], fs, q[1..]);
    }
  }

  /** Two values of the domain share an encoding exactly when they have the same normal form. */
  lemma SameEncodingIffSameNormalForm(v: Value, w: Value)
    requires InDomain(v) && InDomain(w)
    ensures Encode(v) == Encode(w) <==> Normal(v) == Normal(w)
  {
    EncodesExactlyTheDomain(v);
    EncodesExactlyTheDomain(w);
    NormalFormEncodesAlike(v);
    NormalFormEncodesAlike(w);
    if Encode(v) == Encode(w) { PrefixFree(v, w, [], []); }
  }

  /** Integers are identified with each other only when they are equal. */
  lemma NormalFormKeepsIntegers(i: int, j: int)
    ensures Normal(Int(i)) == Normal(Int(j)) <==> i == j
  {
    if -SAFE <= i <= SAFE && -SAFE <= j <= SAFE { IntBitsInjective(i, j); }
  }

  /** An integer and a float share a normal form exactly when the integer is safe and the float has its value. */
  lemma NormalFormKeepsNumbers(i: int, x: Bits)
    ensures Normal(Int(i)) == Normal(Float(x)) <==> -SAFE <= i <= SAFE && HasValue(x, i)
  {
    if -SAFE <= i <= SAFE { IntBitsHasValue(i, x); }
  }

  // ------------------------------------------- what two values with one encoding have in common

  /** Numbers that are equal as doubles: an integer and a float of its value, the two zeros. */
  predicate SameNumber(v: Value, w: Value)
    requires (v.Int? || v.Float?) && (w.Int? || w.Float?)
  {
    match (v, w)
    case (Int(i), Int(j)) => i == j
    case (Int(i), Float(y)) => -SAFE <= i <= SAFE && HasValue(y, i)
    case (Float(x), Int(j)) => -SAFE <= j <= SAFE && HasValue(x, j)
    case (Float(x), Float(y)) => x == y || (x in {0, SIGN} && y in {0, SIGN})
  }

  function ItemsOf(v: Value): seq<Value>
    requires v.List? || v.Tuple?
  {
    match v case List(items) => items case Tuple(items) => items
  }

  /**
    Two values mean the same: numbers by their value, lists and tuples item by item, objects key by key
    in whatever order the keys were inserted, at every depth; anything else is equal.
   */
  ghost predicate SameValue(v: Value, w: Value)
    decreases v, 0
  {
    if (v.Int? || v.Float?) && (w.Int? || w.Float?) then SameNumber(v, w)
    else if (v.List? || v.Tuple?) && (w.List? || w.Tuple?) then
      var xs, ys := ItemsOf(v), ItemsOf(w);
      |xs| == |ys| && forall i :: 0 <= i < |xs| ==> SameValue(xs[i], ys[i])
    else if v.Dict? && w.Dict? then
      var es, fs := v.entries, w.entries;
      && (forall j :: 0 <= j < |fs| ==> HasKey(es, fs[j].key))
      && forall i :: 0 <= i < |es| ==> HasSame(fs, es[i])
    else v == w
  }

  /** An object has a key with a value that means the same. */
  ghost predicate HasSame(fs: seq<Entry>, e: Entry)
    decreases e.value, 1
  {
    exists j :: 0 <= j < |fs| && fs[j].key == e.key && SameValue(e.value, fs[j].value)
  }

  lemma SameNumberIff(v: Value, w: Value)
    requires (v.Int? || v.Float?) && (w.Int? || w.Float?)
    ensures Normal(v) == Normal(w) <==> SameNumber(v, w)
  {
    match (v, w)
    case (Int(i), Int(j)) => NormalFormKeepsIntegers(i, j);
    case (Int(i), Float(y)) => NormalFormKeepsNumbers(i, y);
    case (Float(x), Int(j)) => NormalFormKeepsNumbers(j, x);
    case (Float(x), Float(y)) =>
  }

  lemma {:induction false} NormalItemsAt(items: seq<Value>, i: nat)
    requires i < |items|
    ensures NormalItems(items)[i] == Normal(items[i])
    decreases i
  {
    if i > 0 { NormalItemsAt(items[1..], i - 1); }
  }

  function EachNormal(es: seq<Entry>): (r: seq<Entry>)
    ensures |r| == |es| && forall i :: 0 <= i < |es| ==> r[i] == Entry(es[i].key, Normal(es[i].value))
  {
    seq(|es|, i requires 0 <= i < |es| => Entry(es[i].key, Normal(es[i].value)))
  }

  function EntryKey(e: Entry): seq<int> {
    Utf8(e.key)
  }

  /** The entries of a normal form are each entry's, sorted by key. */
  lemma NormalIsSortBy(es: seq<Entry>)
    ensures Normal(Dict(es)) == Dict(SortBy(EachNormal(es), EntryKey))
  {
    hide StableOrder, Utf8;
    var p := KeyOrder(es);
    assert Keys(es, (e: Entry) => Utf8(e.key)) == Keys(EachNormal(es), EntryKey);
    forall k | 0 <= k < |p|
      ensures NormalEntries(es, p)[k] == Permute(EachNormal(es), p)[k]
    {
      NormalEntriesAt(es, p, k);
    }
    assert NormalEntries(es, p) == Permute(EachNormal(es), p);
  }

  lemma KeysStayDistinct(es: seq<Entry>)
    requires DistinctKeys(es)
    ensures forall i, j :: 0 <= i < j < |es| ==> EntryKey(EachNormal(es)[i]) != EntryKey(EachNormal(es)[j])
  {
    hide Normal, Utf8;
    forall i, j | 0 <= i < j < |es|
      ensures EntryKey(EachNormal(es)[i]) != EntryKey(EachNormal(es)[j])
    {
      DecodeUtf8Inverts(es[i].key);
      DecodeUtf8Inverts(es[j].key);
    }
  }

  /** Objects have one normal form exactly when they have the same keys with values of one normal form. */
  lemma SameObjectIff(es: seq<Entry>, fs: seq<Entry>)
    requires DistinctKeys(es) && DistinctKeys(fs)
    ensures Normal(Dict(es)) == Normal(Dict(fs)) <==> SameMembers(EachNormal(es), EachNormal(fs))
  {
    hide SortBy, EachNormal, Normal, EntryKey;
    NormalIsSortBy(es);
    NormalIsSortBy(fs);
    KeysStayDistinct(es);
    KeysStayDistinct(fs);
    if SameMembers(EachNormal(es), EachNormal(fs)) {
      SortByForgetsOrder(EachNormal(es), EachNormal(fs), EntryKey);
    }
  }

  /** The same entries, told by position. */
  ghost predicate SameEntries(es: seq<Entry>, fs: seq<Entry>) {
    && (forall j :: 0 <= j < |fs| ==> HasKey(es, fs[j].key))
    && forall i :: 0 <= i < |es| ==> HasNormal(fs, es[i].key, Normal(es[i].value))
  }

  ghost predicate HasNormal(fs: seq<Entry>, key: string, n: Value) {
    exists j :: 0 <= j < |fs| && fs[j].key == key && Normal(fs[j].value) == n
  }

  lemma HasNormalIff(fs: seq<Entry>, key: string, n: Value)
    ensures HasNormal(fs, key, n) <==> Entry(key, n) in EachNormal(fs)
  {
    hide Normal;
    if HasNormal(fs, key, n) {
      var j :| 0 <= j < |fs| && fs[j].key == key && Normal(fs[j].value) == n;
      assert EachNormal(fs)[j] == Entry(key, n);
    }
  }

  lemma MembersAreEntries(es: seq<Entry>, fs: seq<Entry>)
    requires SameMembers(EachNormal(es), EachNormal(fs))
    ensures SameEntries(es, fs)
  {
    hide Normal, HasNormal;
    forall i | 0 <= i < |es|
      ensures HasNormal(fs, es[i].key, Normal(es[i].value))
    {
      assert EachNormal(es)[i] in EachNormal(es);
      HasNormalIff(fs, es[i].key, Normal(es[i].value));
    }
    forall j | 0 <= j < |fs|
      ensures HasKey(es, fs[j].key)
    {
      assert EachNormal(fs)[j] in EachNormal(es);
      var i :| 0 <= i < |es| && EachNormal(es)[i] == EachNormal(fs)[j];
      assert es[i].key == fs[j].key;
    }
  }

  lemma EntriesAreMembers(es: seq<Entry>, fs: seq<Entry>)
    requires DistinctKeys(fs) && SameEntries(es, fs)
    ensures SameMembers(EachNormal(es), EachNormal(fs))
  {
    hide Normal, HasNormal;
    forall e | e in EachNormal(es)
      ensures e in EachNormal(fs)
    {
      HasNormalIff(fs, e.key, e.value);
    }
    forall e | e in EachNormal(fs)
      ensures e in EachNormal(es)
    {
      var j :| 0 <= j < |fs| && EachNormal(fs)[j] == e;
      assert HasKey(es, fs[j].key);
      var i :| 0 <= i < |es| && es[i].key == fs[j].key;
      HasNormalIff(fs, es[i].key, Normal(es[i].value));
      var k :| 0 <= k < |fs| && EachNormal(fs)[k] == Entry(es[i].key, Normal(es[i].value));
      assert k == j && EachNormal(es)[i] == e;
    }
  }

  /** The normal form stands for exactly what a value means. */
  lemma {:induction false} NormalFormIsMeaning(v: Value, w: Value)
    requires WellKeyed(v) && WellKeyed(w)
    ensures Normal(v) == Normal(w) <==> SameValue(v, w)
    decreases v, 1
  {
    hide NormalItems, NormalEntries, SameNumber;
    if (v.Int? || v.Float?) && (w.Int? || w.Float?) {
      SameNumberIff(v, w);
    } else if (v.List? || v.Tuple?) && (w.List? || w.Tuple?) {
      SequencesMean(v, w);
    } else if v.Dict? && w.Dict? {
      ObjectsMean(v, w);
    }
  }

  lemma {:induction false} SequencesMean(v: Value, w: Value)
    requires (v.List? || v.Tuple?) && (w.List? || w.Tuple?) && WellKeyed(v) && WellKeyed(w)
    ensures Normal(v) == Normal(w) <==> SameValue(v, w)
    decreases v, 0
  {
    hide NormalItems;
    var xs, ys := ItemsOf(v), ItemsOf(w);
    if |xs| == |ys| {
      forall i | 0 <= i < |xs|
        ensures NormalItems(xs)[i] == NormalItems(ys)[i] <==> SameValue(xs[i], ys[i])
      {
        NormalItemsAt(xs, i);
        NormalItemsAt(ys, i);
        NormalFormIsMeaning(xs[i], ys[i]);
      }
      assert NormalItems(xs) == NormalItems(ys) <==> forall i :: 0 <= i < |xs| ==> NormalItems(xs)[i] == NormalItems(ys)[i];
    }
  }

  lemma {:induction false} SameValueOfObjects(es: seq<Entry>, fs: seq<Entry>)
    ensures SameValue(Dict(es), Dict(fs)) <==>
      (forall j :: 0 <= j < |fs| ==> HasKey(es, fs[j].key)) && forall i :: 0 <= i < |es| ==> HasSame(fs, es[i])
  {
    hide HasKey;
  }

  lemma {:induction false} ObjectsMean(v: Value, w: Value)
    requires v.Dict? && w.Dict? && WellKeyed(v) && WellKeyed(w)
    ensures Normal(v) == Normal(w) <==> SameValue(v, w)
    decreases v, 0
  {
    hide Normal;
    var es, fs := v.entries, w.entries;
    forall i, j | 0 <= i < |es| && 0 <= j < |fs|
      ensures Normal(es[i].value) == Normal(fs[j].value) <==> SameValue(es[i].value, fs[j].value)
    {
      NormalFormIsMeaning(es[i].value, fs[j].value);
    }
    SameObjectIff(es, fs);
    if SameEntries(es, fs) { EntriesAreMembers(es, fs); }
    if SameMembers(EachNormal(es), EachNormal(fs)) { MembersAreEntries(es, fs); }
    forall i | 0 <= i < |es|
      ensures HasNormal(fs, es[i].key, Normal(es[i].value))
         <==> HasSame(fs, es[i])
    {
      if j :| 0 <= j < |fs| && fs[j].key == es[i].key && Normal(fs[j].value) == Normal(es[i].value) {
        assert SameValue(es[i].value, fs[j].value);
      }
    }
    assert v == Dict(es) && w == Dict(fs);
    SameValueOfObjects(es, fs);
  }

  /** Values that mean the same are encoded alike: insertion order is forgotten at every depth. */
  lemma InsertionOrderIsForgotten(v: Value, w: Value)
    requires WellKeyed(v) && WellKeyed(w) && SameValue(v, w)
    ensures Normal(v) == Normal(w) && Encode(v) == Encode(w)
  {
    NormalFormIsMeaning(v, w);
    NormalFormEncodesAlike(v);
    NormalFormEncodesAlike(w);
  }

  /** Two values of the domain share an encoding exactly when they mean the same. */
  lemma SameEncodingIffSameValue(v: Value, w: Value)
    requires InDomain(v) && InDomain(w) && WellKeyed(v) && WellKeyed(w)
    ensures Encode(v) == Encode(w) <==> SameValue(v, w)
  {
    SameEncodingIffSameNormalForm(v, w);
    NormalFormIsMeaning(v, w);
  }
}
