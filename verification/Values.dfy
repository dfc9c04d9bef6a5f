/** The Python values the projection encodes, and how numbers become IEEE doubles. */
module Values {
  import opened Text

  /** The 64 bits of a double. */
  type Bits = n: int | 0 <= n < 0x1_0000_0000_0000_0000

  /** A dictionary lists its entries in insertion order. */
  datatype Entry = Entry(key: string, value: Value)

  /**
    `Other` stands for every value outside the JSON types: an object of another class, a dictionary
    with a key that is not a string, a string that holds a lone surrogate.
   */
  datatype Value =
    | Null
    | Bool(b: bool)
    | Int(i: int)
    | Float(bits: Bits)
    | Str(s: string)
    | List(items: seq<Value>)
    | Tuple(items: seq<Value>)
    | Dict(entries: seq<Entry>)
    | Other

  ghost predicate DistinctKeys(es: seq<Entry>) {
    forall i, j :: 0 <= i < j < |es| ==> es[i].key != es[j].key
  }

  predicate HasKey(es: seq<Entry>, key: string) {
    exists i :: 0 <= i < |es| && es[i].key == key
  }

  ghost predicate SameMembers(a: seq<Entry>, b: seq<Entry>) {
    forall e :: e in a <==> e in b
  }

  /** A Python dictionary never repeats a key. */
  ghost predicate WellKeyed(v: Value) {
    match v
    case List(items) => forall i :: 0 <= i < |items| ==> WellKeyed(items[i])
    case Tuple(items) => forall i :: 0 <= i < |items| ==> WellKeyed(items[i])
    case Dict(es) => DistinctKeys(es) && forall i :: 0 <= i < |es| ==> WellKeyed(es[i].value)
    case _ => true
  }

  const SAFE := 9_007_199_254_740_991
  const TWO52: nat := 0x10_0000_0000_0000
  const SIGN: nat := 0x8000_0000_0000_0000

  predicate Finite(x: Bits) {
    x / TWO52 % 2048 != 2047
  }

  /** A positive integer shifted left until its leading bit is bit 52, with the number of shifts. */
  function Shift(m: nat): (r: (nat, nat))
    requires 0 < m <= SAFE
    ensures TWO52 <= r.0 <= SAFE
    ensures r.0 >= m && Pow2(r.1) * m == r.0
    decreases SAFE - m
  {
    if m >= TWO52 then (m, 0)
    else
      var (f, k) := Shift(2 * m);
      assert Pow2(k + 1) * m == Pow2(k) * (2 * m);
      (f, k + 1)
  }

  lemma ShiftAtMost52(m: nat)
    requires 0 < m <= SAFE
    ensures Shift(m).1 <= 52
  {
    var (f, k) := Shift(m);
    assert Pow2(k) <= Pow2(k) * m;
    if k > 52 { Pow2Beyond(k); }
  }

  lemma Pow2Beyond(k: nat)
    requires k > 52
    ensures Pow2(k) > SAFE
  {
    Pow2Byte(k - 8);
    Pow2Byte(k - 16);
    Pow2Byte(k - 24);
    Pow2Byte(k - 32);
    Pow2Byte(k - 40);
    Pow2Byte(k - 48);
    var e: nat := k - 53;
    assert Pow2(e + 5) == 2 * Pow2(e + 4) == 4 * Pow2(e + 3) == 8 * Pow2(e + 2) == 16 * Pow2(e + 1) == 32 * Pow2(e);
  }

  lemma Pow2Byte(e: nat)
    ensures Pow2(e + 8) == 256 * Pow2(e)
  {
    assert Pow2(e + 8) == 2 * Pow2(e + 7) == 4 * Pow2(e + 6) == 8 * Pow2(e + 5) == 16 * Pow2(e + 4);
    assert Pow2(e + 4) == 2 * Pow2(e + 3) == 4 * Pow2(e + 2) == 8 * Pow2(e + 1) == 16 * Pow2(e);
  }

  lemma {:induction false} ShiftInjective(m: nat, n: nat)
    requires 0 < m <= SAFE && 0 < n <= SAFE && Shift(m) == Shift(n)
    ensures m == n
    decreases SAFE - m
  {
    if m < TWO52 { ShiftInjective(2 * m, 2 * n); }
  }

  /** `float(i)` for a safe integer. */
  function IntBits(i: int): (x: Bits)
    requires -SAFE <= i <= SAFE
  {
    if i == 0 then 0
    else
      var m := if i < 0 then -i else i;
      ShiftAtMost52(m);
      (if i < 0 then SIGN else 0) + (1075 - Shift(m).1) * TWO52 + (Shift(m).0 - TWO52)
  }

  lemma IntBitsParts(i: int)
    requires -SAFE <= i <= SAFE && i != 0
    ensures var m := if i < 0 then -i else i;
      && IntBits(i) / SIGN == (if i < 0 then 1 else 0)
      && IntBits(i) / TWO52 % 2048 == 1075 - Shift(m).1
      && IntBits(i) % TWO52 == Shift(m).0 - TWO52
      && 1023 <= 1075 - Shift(m).1 <= 1075
  {
    var m := if i < 0 then -i else i;
    ShiftAtMost52(m);
    hide Shift;
    var high := (if i < 0 then 2048 else 0) + (1075 - Shift(m).1);
    FieldsOf(high, Shift(m).0 - TWO52, IntBits(i));
  }

  /** Sign and exponent, and fraction, of a bit pattern. */
  lemma FieldsOf(high: nat, low: nat, x: nat)
    requires x == TWO52 * high + low && low < TWO52 && high < 4096
    ensures x / TWO52 == high && x % TWO52 == low
    ensures x / SIGN == high / 2048
  {
    QuotientIs(x, TWO52, high, low);
    var s, e := high / 2048, high % 2048;
    assert high == 2048 * s + e && x == SIGN * s + (TWO52 * e + low);
    QuotientIs(x, SIGN, s, TWO52 * e + low);
  }

  lemma QuotientIs(x: nat, d: nat, q: nat, r: nat)
    requires r < d && x == d * q + r
    ensures x / d == q && x % d == r
  {
    var p, s := x / d, x % d;
    assert x == d * p + s && 0 <= s < d;
    assert d * (q - p) == d * q - d * p;
    MultipleOf(d, q - p);
  }

  lemma MultipleOf(d: nat, k: int)
    ensures (k >= 1 ==> d * k >= d) && (k <= -1 ==> d * k + d <= 0)
  {
    assert d * k == d * (k - 1) + d == d * (k + 1) - d;
  }

  /** Safe integers keep their identity as doubles, and none becomes a negative zero. */
  lemma IntBitsInjective(i: int, j: int)
    requires -SAFE <= i <= SAFE && -SAFE <= j <= SAFE
    ensures IntBits(i) == IntBits(j) <==> i == j
    ensures Finite(IntBits(i)) && IntBits(i) != SIGN
  {
    if i != 0 { IntBitsParts(i); }
    if j != 0 { IntBitsParts(j); }
    if i != 0 && j != 0 && IntBits(i) == IntBits(j) {
      ShiftInjective(if i < 0 then -i else i, if j < 0 then -j else j);
    }
  }

  /** A finite double has an integer value: its sign, and its significand scaled by its exponent. */
  predicate HasValue(x: Bits, i: int) {
    var e, f, m := x / TWO52 % 2048, x % TWO52, if i < 0 then -i else i;
    && Finite(x) && (i != 0 ==> (x >= SIGN <==> i < 0))
    && if e == 0 then f == m * Pow2(1074)
       else if e < 1075 then TWO52 + f == m * Pow2(1075 - e)
       else (TWO52 + f) * Pow2(e - 1075) == m
  }

  /** The double a safe integer becomes is, up to the sign of zero, the one that has its value. */
  lemma IntBitsHasValue(i: int, x: Bits)
    requires -SAFE <= i <= SAFE
    ensures HasValue(x, i) <==> NormalBits(x) == IntBits(i)
  {
    hide HasValue, IntBits, Shift, Finite;
    if i == 0 {
      ZeroHasValue(x);
    } else {
      IntBitsParts(i);
      IntBitsInjective(i, i);
      IntBitsInjective(i, 0);
      ShiftIsValue(i);
      if HasValue(x, i) { ValueIsIntBits(x, i); }
      assert IntBits(0) == 0 by { ZeroBits(); }
    }
  }

  lemma ZeroBits()
    ensures IntBits(0) == 0
  {}

  lemma ValueIsIntBits(x: Bits, i: int)
    requires i != 0 && -SAFE <= i <= SAFE && HasValue(x, i)
    ensures x == IntBits(i)
  {
    hide IntBits, Shift, Finite;
    IntBitsParts(i);
    SignIs(IntBits(i));
    ValueIsShift(x / TWO52 % 2048, x % TWO52, if i < 0 then -i else i);
    SamePattern(x, IntBits(i));
  }

  lemma SignIs(x: Bits)
    ensures x / SIGN == if x >= SIGN then 1 else 0
  {}

  lemma ShiftIsValue(i: int)
    requires i != 0 && -SAFE <= i <= SAFE
    ensures HasValue(IntBits(i), i)
  {
    hide IntBits, Shift, Finite;
    IntBitsParts(i);
    IntBitsInjective(i, i);
    SignIs(IntBits(i));
    var m: nat := if i < 0 then -i else i;
    var (r, k) := Shift(m);
    assert r == Pow2(k) * m;
    if k == 0 { assert Pow2(0) == 1 && r * 1 == m; }
  }

  /** Significand and exponent of a positive integer are those of its shift. */
  lemma ValueIsShift(e: nat, f: nat, m: nat)
    requires 0 < m <= SAFE && f < TWO52
    requires if e == 0 then f == m * Pow2(1074) else if e < 1075 then TWO52 + f == m * Pow2(1075 - e) else (TWO52 + f) * Pow2(e - 1075) == m
    ensures e == 1075 - Shift(m).1 && TWO52 + f == Shift(m).0
  {
    hide Shift, Pow2;
    var (r, k) := Shift(m);
    assert Pow2(0) == 1 by { PowZero(); }
    if e == 0 {
      TimesBeyond(m);
    } else if e < 1075 {
      ScaleIsUnique(TWO52 + f, 1075 - e, r, k, m);
    } else {
      if e > 1075 {
        Pow2Grows(0, e - 1075);
        MultipleOf(TWO52 + f, Pow2(e - 1075) - 1);
        assert (TWO52 + f) * Pow2(e - 1075) == (TWO52 + f) * (Pow2(e - 1075) - 1) + (TWO52 + f);
      }
      ScaleIsUnique(TWO52 + f, 0, r, k, m);
    }
  }

  lemma TimesBeyond(m: nat)
    requires m > 0
    ensures m * Pow2(1074) > SAFE
  {
    hide Pow2;
    Pow2Beyond(1074);
    MultipleOf(Pow2(1074), m);
  }

  lemma PowZero()
    ensures Pow2(0) == 1
  {}

  lemma ScaleIsUnique(r: nat, a: nat, s: nat, b: nat, m: nat)
    requires TWO52 <= r <= SAFE && TWO52 <= s <= SAFE && r == Pow2(a) * m && s == Pow2(b) * m
    ensures a == b && r == s
  {
    hide Pow2;
    ScaleGrows(a, b, m);
    ScaleGrows(b, a, m);
  }

  lemma ScaleGrows(a: nat, b: nat, m: nat)
    ensures a < b ==> 2 * (Pow2(a) * m) <= Pow2(b) * m
  {
    hide Pow2;
    if a < b {
      Pow2Grows(a, b);
      var d := Pow2(b) - 2 * Pow2(a);
      assert Pow2(b) * m == 2 * (Pow2(a) * m) + d * m && d * m >= 0;
    }
  }

  lemma ZeroHasValue(x: Bits)
    ensures HasValue(x, 0) <==> NormalBits(x) == IntBits(0)
  {
    var e, f := x / TWO52 % 2048, x % TWO52;
    assert 0 * Pow2(1074) == 0;
    if e >= 1075 { assert (TWO52 + f) * Pow2(e - 1075) >= TWO52 + f; }
    PatternIs(x);
  }

  lemma PatternIs(x: Bits)
    ensures x == (if x >= SIGN then SIGN else 0) + TWO52 * (x / TWO52 % 2048) + x % TWO52
  {
    var h := x / TWO52;
    assert x == TWO52 * h + x % TWO52 && h < 4096;
    assert h >= 2048 <==> x >= SIGN;
    assert h % 2048 == if h >= 2048 then h - 2048 else h;
  }

  lemma SamePattern(x: Bits, y: Bits)
    requires x / TWO52 % 2048 == y / TWO52 % 2048 && x % TWO52 == y % TWO52 && (x >= SIGN <==> y >= SIGN)
    ensures x == y
  {
    PatternIs(x);
    PatternIs(y);
  }

  /** `0.0` and `-0.0` are one number. */
  function NormalBits(x: Bits): Bits {
    if x == SIGN then 0 else x
  }
}
