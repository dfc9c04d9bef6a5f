/** The clock of the tick-by-tick form: a time goes through a double on its way back to ticks. */
module DoubleClock {
  import opened Text
  import opened Minutes
  import opened MinutesParity

  // ------------------------------------------------------------------------------- doubles

  /** Significands of doubles lie between this and twice this. */
  const SIGNIFICAND: nat := 0x10_0000_0000_0000

  /** A double that is not negative, as a fraction whose denominator is a power of two. */
  datatype Double = Double(num: nat, den: nat)

  /** Round to nearest, ties to even. */
  function Nearest(n: nat, d: nat): nat
    requires d > 0
  {
    var q, r := n / d, n % d;
    if 2 * r < d || (2 * r == d && q % 2 == 0) then q else q + 1
  }

  function Finer(n: nat, d: nat): (r: Double)
    requires 0 < d && n < 2 * SIGNIFICAND * d
    ensures r.den > 0
    decreases SIGNIFICAND * d - n
  {
    if n == 0 || n >= SIGNIFICAND * d then Double(Nearest(n, d), 1)
    else
      var r := Finer(2 * n, d);
      Double(r.num, 2 * r.den)
  }

  function Coarser(n: nat, d: nat): (r: Double)
    requires 0 < d <= n
    ensures r.den > 0
    decreases n - d
  {
    if n < 2 * SIGNIFICAND * d then Double(Nearest(n, d), 1)
    else
      var r := Coarser(n, 2 * d);
      Double(2 * r.num, r.den)
  }

  /** The double nearest to a quotient. */
  function Rounded(n: nat, d: nat): (r: Double)
    requires 0 < d
    ensures r.den > 0
  {
    if n < 2 * SIGNIFICAND * d then Finer(n, d) else Coarser(n, d)
  }

  // --------------------------------------------------------------------------------- clock

  const EPOCH_MICROS: int := EPOCH_TICKS / TICKS_PER_MICROSECOND
  const MICROS_PER_SECOND: nat := 1_000_000
  const TICKS_PER_SECOND: nat := 10_000_000

  /** `DOTNET_EPOCH_TICKS + int(utc.timestamp() * TICKS_PER_SECOND)`: a quotient and a product are rounded, and the rest is cut off. */
  function FromDouble(micros: int): int {
    var since := micros - EPOCH_MICROS;
    var seconds := Rounded(if since < 0 then -since else since, MICROS_PER_SECOND);
    var product := Rounded(seconds.num * TICKS_PER_SECOND, seconds.den);
    var whole: int := product.num / product.den;
    EPOCH_TICKS + if since < 0 then -whole else whole
  }

  /** 2004-01-10T13:37:04Z, when seconds come to need 31 bits, and 2027-01-31T19:50:50Z, when ticks come to need 55. */
  const ERA_START: int := 0x4000_0000 * MICROS_PER_SECOND
  const ERA_END: int := 1_801_439_850 * MICROS_PER_SECOND

  predicate InEra(micros: int) {
    ERA_START <= micros - EPOCH_MICROS < ERA_END
  }

  /** Doubles are this fraction of a second apart in the era. */
  const STEPS: nat := 0x40_0000

  /** How far past a double a time lies, in millionths of the distance between doubles. */
  function Past(micros: int): nat {
    (micros - EPOCH_MICROS) * STEPS % MICROS_PER_SECOND
  }

  /** The ticks by which the clock is off: none exactly when the nearest double is less than a tick away. */
  function Off(micros: int): int {
    if TICKS_PER_MICROSECOND * Past(micros) < STEPS then 0
    else if TICKS_PER_MICROSECOND * (MICROS_PER_SECOND - Past(micros)) < STEPS then 0
    else if Past(micros) < MICROS_PER_SECOND / 2 then -2
    else 2
  }

  lemma FinerStep(n: nat, d: nat)
    requires 0 < d && n < 2 * SIGNIFICAND * d
    ensures n >= SIGNIFICAND * d ==> Finer(n, d) == Double(Nearest(n, d), 1)
    ensures 0 < n < SIGNIFICAND * d ==> Finer(n, d) == Double(Finer(2 * n, d).num, 2 * Finer(2 * n, d).den)
  {
    hide Nearest;
  }

  lemma {:induction false} FinerScales(n: nat, d: nat, k: nat)
    requires 0 < d && SIGNIFICAND * d <= n * Pow2(k) < 2 * SIGNIFICAND * d
    ensures n < 2 * SIGNIFICAND * d
    ensures Finer(n, d) == Double(Nearest(n * Pow2(k), d), Pow2(k))
    decreases k
  {
    hide Nearest, Finer;
    FinerStep(n, d);
    if k > 0 {
      var p := Pow2(k - 1);
      assert n * Pow2(k) == 2 * n * p;
      assert n * p < SIGNIFICAND * d;
      assert n <= n * p;
      FinerScales(2 * n, d, k - 1);
    }
  }

  lemma StepsIsPower()
    ensures Pow2(22) == STEPS
  {
    assert Pow2(11) == 2048;
    assert Pow2(16) == 65536;
  }

  lemma NearestIs(n: nat, d: nat)
    requires d > 0
    ensures var r := n % d;
      && (2 * r < d ==> Nearest(n, d) * d == n - r)
      && (2 * r > d ==> Nearest(n, d) * d == n - r + d)
  {
    var q := n / d;
    assert q * d + n % d == n;
    assert (q + 1) * d == q * d + d;
  }

  /** A time lies strictly nearer to one double than to the other. */
  lemma NoTies(x: nat)
    ensures 2 * (x * STEPS % MICROS_PER_SECOND) != MICROS_PER_SECOND
  {
    var q, r := x * STEPS / MICROS_PER_SECOND, x * STEPS % MICROS_PER_SECOND;
    assert x * STEPS == MICROS_PER_SECOND * q + r;
    assert r == 64 * (65536 * x - 15625 * q);
  }

  /** The seconds of the era as a double. */
  lemma SecondsAre(x: nat)
    requires ERA_START <= x < ERA_END
    ensures Rounded(x, MICROS_PER_SECOND) == Double(Nearest(x * STEPS, MICROS_PER_SECOND), STEPS)
  {
    hide Finer, Nearest;
    StepsIsPower();
    FinerScales(x, MICROS_PER_SECOND, 22);
  }

  /** Their product with the ticks of a second. */
  lemma ProductIs(n: nat)
    requires 2 * SIGNIFICAND * STEPS <= n < 4 * SIGNIFICAND * STEPS
    ensures Rounded(n, STEPS) == Double(2 * Nearest(n, 2 * STEPS), 1)
  {
    hide Nearest;
    assert Coarser(n, 2 * STEPS) == Double(Nearest(n, 2 * STEPS), 1);
  }

  /** What rounding to an even number of ticks does to a time whose double is off by so much. */
  lemma EvenTicks(x: nat, delta: int, n: nat)
    requires n == 5 * x * (2 * STEPS) + 10 * delta && -500_000 < delta < 500_000
    ensures 2 * Nearest(n, 2 * STEPS)
         == 10 * x + if 10 * delta < STEPS && 10 * -delta < STEPS then 0 else if delta > 0 then 2 else -2
  {
    hide Nearest;
    var d, q := 2 * STEPS, n / (2 * STEPS);
    var r := n - d * q;
    NearestIs(n, d);
    assert 0 <= r < d && d * (5 * x - q) == r - 10 * delta;
    assert -1 <= 5 * x - q <= 1;
    assert 2 * r != d;
  }

  /** In the era the clock is exact, or off by two ticks, as the distance to the nearest double says. */
  lemma ClockIs(micros: int)
    requires InEra(micros)
    ensures FromDouble(micros) == TICKS_PER_MICROSECOND * micros + Off(micros)
  {
    hide Rounded, Nearest;
    var x: nat := micros - EPOCH_MICROS;
    var r := Past(micros);
    var m := Nearest(x * STEPS, MICROS_PER_SECOND);
    SecondsAre(x);
    NoTies(x);
    NearestIs(x * STEPS, MICROS_PER_SECOND);
    var delta := if 2 * r < MICROS_PER_SECOND then -r else MICROS_PER_SECOND - r;
    assert m * MICROS_PER_SECOND == x * STEPS + delta;
    var n := m * TICKS_PER_SECOND;
    assert n == 10 * (m * MICROS_PER_SECOND);
    ProductIs(n);
    EvenTicks(x, delta, n);
  }

  // -------------------------------------------------------------------------------- parity

  /** Which ticks come back from the clock: whole microseconds it is exact at, and two ticks past one where it is two ticks ahead. */
  lemma ClockRestores(t: Tick)
    requires InEra(t.ticks / TICKS_PER_MICROSECOND)
    ensures Restores(FromDouble, t) <==> t.ticks % TICKS_PER_MICROSECOND == Off(t.ticks / TICKS_PER_MICROSECOND)
  {
    hide FromDouble, Off;
    ClockIs(t.ticks / TICKS_PER_MICROSECOND);
  }

  lemma ClockIsClose(t: Tick)
    requires InEra(t.ticks / TICKS_PER_MICROSECOND)
    ensures MinutesParity.Within(FromDouble(t.ticks / TICKS_PER_MICROSECOND), t.ticks, 11)
    ensures IsWhole(t.ticks) ==> MinutesParity.Within(FromDouble(t.ticks / TICKS_PER_MICROSECOND), t.ticks, 2)
  {
    hide FromDouble, Past;
    ClockIs(t.ticks / TICKS_PER_MICROSECOND);
  }

  /** The largest error of the clock over a file. */
  function Bound(ts: seq<Tick>): nat {
    if forall i :: 0 <= i < |ts| ==> IsWhole(ts[i].ticks) then 2 else 11
  }

  /**
    Parity in the era: both forms accept the same files, their rows agree up to gap and close, the gaps
    are a few ticks apart at most, and the last quotes are the same exactly when the last tick is as
    far past its microsecond as the clock is off there.
   */
  lemma ParityInEra(f: File, prior: Option<Tick>)
    requires forall i :: 0 <= i < |f.ticks| ==> InEra(f.ticks[i].ticks / TICKS_PER_MICROSECOND)
    ensures Streamed(f, FromDouble, prior).Some? <==> Batch(f, prior).Some?
    ensures Batch(f, prior).Some? ==>
      var s, b, n := Streamed(f, FromDouble, prior).value, Batch(f, prior).value, |f.ticks| - 1;
      && |s.rows| == |b.rows|
      && (forall k :: 0 <= k < |b.rows| ==>
            Agree(s.rows[k], b.rows[k]) && MinutesParity.Within(s.rows[k].gap, b.rows[k].gap, 2 * Bound(f.ticks)))
      && (s.last == b.last <==>
            f.ticks == [] || f.ticks[n].ticks % TICKS_PER_MICROSECOND == Off(f.ticks[n].ticks / TICKS_PER_MICROSECOND))
  {
    hide Rows, Agree, Accepted, Exactly, Converted, FromDouble, Off, MinutesParity.Within, LastQuote;
    Parity(f, FromDouble, prior);
    BatchAccepts(f, prior);
    forall i | 0 <= i < |f.ticks|
      ensures f.ticks[i].ticks >= 0
      ensures MinutesParity.Within(FromDouble(f.ticks[i].ticks / TICKS_PER_MICROSECOND), f.ticks[i].ticks, Bound(f.ticks))
    {
      ClockIsClose(f.ticks[i]);
    }
    GapsStayClose(f.ticks, FromDouble, prior, Bound(f.ticks));
    if f.ticks != [] { ClockRestores(f.ticks[|f.ticks| - 1]); }
  }

  /** At a whole millisecond, 2018-06-17T04:01:05.995Z, the two forms already differ. */
  lemma WholeMillisecondsDiffer()
    ensures var t := 636_648_048_659_950_000;
      var f := File([Tick(t, 1, 1)], t, t);
      && Batch(f, None).Some? && Streamed(f, FromDouble, None).Some?
      && Batch(f, None).value.last == Some(Tick(t, 1, 1)) && Streamed(f, FromDouble, None).value.last == Some(Tick(t - 2, 1, 1))
  {
    hide FromDouble, Batch, Streamed;
    OneTick(Tick(636_648_048_659_950_000, 1, 1), FromDouble, None);
    ClockAtMillisecond();
  }

  lemma ClockAtMillisecond()
    ensures var t := 636_648_048_659_950_000; FromDouble(t / TICKS_PER_MICROSECOND) == t - 2
  {
    hide FromDouble, Off, InEra;
    var micros := 63_664_804_865_995_000;
    assert InEra(micros) && Off(micros) == -2 by { OffAtMillisecond(); }
    ClockIs(micros);
  }

  lemma OffAtMillisecond()
    ensures var micros := 63_664_804_865_995_000; InEra(micros) && Off(micros) == -2
  {}

  lemma OneTick(t: Tick, clock: Clock, prior: Option<Tick>)
    requires t.ticks >= 0 && 0 < t.bid <= t.ask
    ensures var f := File([t], t.ticks, t.ticks);
      && Batch(f, prior).Some? && Streamed(f, clock, prior).Some?
      && Batch(f, prior).value.last == Some(t)
      && Streamed(f, clock, prior).value.last == Some(t.(ticks := clock(t.ticks / TICKS_PER_MICROSECOND)))
  {
    hide Rows;
    BatchAccepts(File([t], t.ticks, t.ticks), prior);
  }
}
