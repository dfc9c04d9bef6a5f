/** Bytes, UTF-8 and the decimal and hexadecimal notations the encoders share. */
module Text {
  type byte = x: int | 0 <= x < 256
  type Bytes = seq<byte>

  datatype Option<+T> = None | Some(value: T) {
    predicate IsFailure() { None? }

    function PropagateFailure<U>(): Option<U>
      requires None?
    {
      None
    }

    function Extract(): T
      requires Some?
    {
      value
    }
  }

  // ---------------------------------------------------------------- UTF-8

  /** The UTF-8 form of one Unicode scalar value. */
  function Utf8Char(c: char): (b: Bytes)
    ensures 1 <= |b| <= 4
  {
    var u := c as int;
    if u < 0x80 then [u]
    else if u < 0x800 then [0xC0 + u / 64, 0x80 + u % 64]
    else if u < 0x10000 then [0xE0 + u / 4096, 0x80 + u / 64 % 64, 0x80 + u % 64]
    else [0xF0 + u / 262144, 0x80 + u / 4096 % 64, 0x80 + u / 64 % 64, 0x80 + u % 64]
  }

  function Utf8(s: string): Bytes {
    if s == "" then [] else Utf8Char(s[0]) + Utf8(s[1..])
  }

  lemma Utf8Concat(s: string, t: string)
    ensures Utf8(s + t) == Utf8(s) + Utf8(t)
  {
    if s == "" {
      assert s + t == t;
    } else {
      assert (s + t)[1..] == s[1..] + t;
      Utf8Concat(s[1..], t);
    }
  }

  lemma Utf8One(c: char)
    ensures Utf8([c]) == Utf8Char(c)
  {
    assert Utf8([c][1..]) == [];
  }

  lemma {:induction false} Utf8AtLeast(s: string)
    ensures |s| <= |Utf8(s)|
  {
    if s != "" { Utf8AtLeast(s[1..]); }
  }

  predicate IsScalar(u: int) {
    0 <= u < 0xD800 || 0xE000 <= u < 0x11_0000
  }

  /** The scalar value at the head of a byte string, with the bytes that follow it. */
  function DecodeChar(b: Bytes): (r: Option<(char, Bytes)>)
    ensures r.Some? ==> |r.value.1| < |b|
  {
    if |b| >= 1 && b[0] < 0x80 then
      Some((b[0] as char, b[1..]))
    else if |b| >= 2 && 0xC0 <= b[0] < 0xE0 then
      ToChar(Continue(b[0] as int - 0xC0, b[1]), b[2..])
    else if |b| >= 3 && 0xE0 <= b[0] < 0xF0 then
      ToChar(Continue(Continue(b[0] as int - 0xE0, b[1]), b[2]), b[3..])
    else if |b| >= 4 && 0xF0 <= b[0] then
      ToChar(Continue(Continue(Continue(b[0] as int - 0xF0, b[1]), b[2]), b[3]), b[4..])
    else None
  }

  /** Appends the six bits of a continuation byte. */
  function Continue(high: int, next: int): int {
    high * 64 + (next - 0x80)
  }

  function ToChar(u: int, rest: Bytes): Option<(char, Bytes)> {
    if IsScalar(u) then Some((u as char, rest)) else None
  }

  lemma CharIsScalar(c: char)
    ensures IsScalar(c as int)
  {}

  lemma DecodeCharInverts(c: char, rest: Bytes)
    ensures DecodeChar(Utf8Char(c) + rest) == Some((c, rest))
  {
    var u := c as int;
    var b := Utf8Char(c) + rest;
    CharIsScalar(c);
    if u < 0x80 {
      assert b[1..] == rest;
    } else if u < 0x800 {
      assert b[2..] == rest;
      assert u == u / 64 * 64 + u % 64;
    } else if u < 0x10000 {
      assert b[3..] == rest;
      assert u / 64 == u / 4096 * 64 + u / 64 % 64;
    } else {
      assert b[4..] == rest;
      assert u / 64 == u / 4096 * 64 + u / 64 % 64;
      assert u / 4096 == u / 262144 * 64 + u / 4096 % 64;
    }
  }

  function DecodeUtf8(b: Bytes): Option<string>
    decreases |b|
  {
    if b == [] then Some("")
    else match DecodeChar(b)
      case None => None
      case Some((c, rest)) =>
        match DecodeUtf8(rest)
        case None => None
        case Some(s) => Some([c] + s)
  }

  lemma {:induction false} DecodeUtf8Inverts(s: string)
    ensures DecodeUtf8(Utf8(s)) == Some(s)
  {
    if s != "" {
      DecodeCharInverts(s[0], Utf8(s[1..]));
      DecodeUtf8Inverts(s[1..]);
      assert [s[0]] + s[1..] == s;
    }
  }

  // -------------------------------------------------------------- decimal

  predicate IsDigit(c: char) { '0' <= c <= '9' }

  function Digit(d: nat): (c: char)
    requires d < 10
    ensures IsDigit(c)
  {
    (48 + d) as char
  }

  /** `str(n)` for a non-negative integer. */
  function Decimal(n: nat): (s: string)
    ensures s != ""
    ensures forall i :: 0 <= i < |s| ==> IsDigit(s[i])
  {
    if n < 10 then [Digit(n)] else Decimal(n / 10) + [Digit(n % 10)]
  }

  /** The value of a digit string read from the left. */
  function DigitsValue(s: string): (n: int)
    ensures (forall i :: 0 <= i < |s| ==> IsDigit(s[i])) ==> n >= 0
  {
    if s == "" then 0 else DigitsValue(s[..|s| - 1]) * 10 + (s[|s| - 1] as int - 48)
  }

  lemma {:induction false} DecimalValue(n: nat)
    ensures DigitsValue(Decimal(n)) == n
  {
    if n < 10 {
      assert [Digit(n)][..0] == "";
    } else {
      DecimalValue(n / 10);
      assert Decimal(n)[..|Decimal(n)| - 1] == Decimal(n / 10);
    }
  }

  /** A number text filled up with zeros to a width. */
  function Pad(s: string, width: nat): string
    decreases width - |s|
  {
    if |s| < width then Pad("0" + s, width) else s
  }

  lemma {:induction false} PadKeepsValue(s: string, width: nat)
    requires forall i :: 0 <= i < |s| ==> IsDigit(s[i])
    ensures DigitsValue(Pad(s, width)) == DigitsValue(s)
    decreases width - |s|
  {
    if |s| < width {
      LeadingZero(s);
      PadKeepsValue("0" + s, width);
    }
  }

  lemma {:induction false} LeadingZero(s: string)
    ensures DigitsValue("0" + s) == DigitsValue(s)
  {
    if s == "" {
      assert ("0" + s)[..0] == "" && "0" + s == "0";
    } else {
      assert ("0" + s)[..|s|] == "0" + s[..|s| - 1];
      LeadingZero(s[..|s| - 1]);
    }
  }

  /** `str(i)` for any integer. */
  function IntText(i: int): string {
    if i < 0 then "-" + Decimal(-i) else Decimal(i)
  }

  lemma IntTextInjective(i: int, j: int)
    requires IntText(i) == IntText(j)
    ensures i == j
  {
    IntHead(i);
    IntHead(j);
    if i < 0 {
      assert IntText(i)[1..] == Decimal(-i) && IntText(j)[1..] == Decimal(-j);
      DecimalValue(-i);
      DecimalValue(-j);
    } else {
      DecimalValue(i);
      DecimalValue(j);
    }
  }

  lemma IntHead(i: int)
    ensures IntText(i) != "" && (IntText(i)[0] == '-' <==> i < 0)
    ensures i >= 0 ==> IsDigit(IntText(i)[0])
  {
  }

  // ---------------------------------------------------------- hexadecimal

  predicate IsHexDigit(x: int) { 48 <= x <= 57 || 97 <= x <= 102 }

  function HexDigit(d: nat): (x: byte)
    requires d < 16
    ensures IsHexDigit(x)
  {
    if d < 10 then 48 + d else 87 + d
  }

  function UnHex(x: byte): (d: int)
    ensures IsHexDigit(x) ==> 0 <= d < 16
  {
    if x < 58 then x - 48 else x - 87
  }

  /** The low `width` hexadecimal digits of a number, most significant first. */
  function Hex(n: nat, width: nat): (b: Bytes)
    ensures |b| == width
    ensures forall i :: 0 <= i < |b| ==> IsHexDigit(b[i])
    decreases width
  {
    if width == 0 then [] else Hex(n / 16, width - 1) + [HexDigit(n % 16)]
  }

  function HexValue(b: Bytes): (n: int)
    ensures (forall i :: 0 <= i < |b| ==> IsHexDigit(b[i])) ==> n >= 0
  {
    if b == [] then 0 else HexValue(b[..|b| - 1]) * 16 + UnHex(b[|b| - 1])
  }

  function Pow2(e: nat): (p: nat)
    ensures p >= 1
  {
    if e == 0 then 1 else 2 * Pow2(e - 1)
  }

  lemma {:induction false} Pow2Grows(d: nat, e: nat)
    requires d < e
    ensures 2 * Pow2(d) <= Pow2(e)
  {
    if d + 1 < e { Pow2Grows(d, e - 1); }
  }

  lemma {:induction false} HexInverts(n: nat, width: nat)
    requires n < Pow2(4 * width)
    ensures HexValue(Hex(n, width)) == n
    decreases width
  {
    if width > 0 {
      assert Pow2(4 * width) == 2 * Pow2(4 * width - 1) == 4 * Pow2(4 * width - 2) == 8 * Pow2(4 * width - 3);
      HexInverts(n / 16, width - 1);
      assert Hex(n, width)[..width - 1] == Hex(n / 16, width - 1);
    }
  }

  /** A SHA-256 digest in the form the program keeps it: 64 lower-case hexadecimal digits. */
  type Digest = s: string | |s| == 64 && forall i :: 0 <= i < |s| ==> IsHexDigit(s[i] as int)
    witness seq(64, _ => '0')

  /**
    The hash function is a parameter of everything that uses it. No result assumes it is free of
    collisions; a result that needs two digests to stand for the same bytes exhibits a collision
    otherwise.
   */
  type Hash = Bytes -> Digest

  /** Two different byte strings that a hash function does not tell apart. */
  ghost predicate Collision(sha: Hash, x: Bytes, y: Bytes) {
    x != y && sha(x) == sha(y)
  }

  // ------------------------------------------------------------- sequences

  lemma Regroup<T>(a: seq<T>, b: seq<T>, c: seq<T>, d: seq<T>)
    ensures a + b + c + d == a + (b + (c + d))
  {}

  /** All parts one after the other. */
  function Concat<T>(parts: seq<seq<T>>): seq<T> {
    if parts == [] then [] else parts[0] + Concat(parts[1..])
  }

  lemma {:induction false} ConcatAppend<T>(a: seq<seq<T>>, b: seq<seq<T>>)
    ensures Concat(a + b) == Concat(a) + Concat(b)
  {
    if a == [] {
      assert a + b == b;
    } else {
      assert (a + b)[1..] == a[1..] + b;
      ConcatAppend(a[1..], b);
    }
  }

  lemma ConcatOne<T>(a: seq<T>)
    ensures Concat([a]) == a
  {
    assert [a][1..] == [];
  }
}
