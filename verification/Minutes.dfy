/** One-minute rows from ticks: segment reductions over whole arrays, and the same tick by tick. */
module Minutes {
  import opened Text

  const EPOCH_TICKS := 621_355_968_000_000_000
  const TICKS_PER_MINUTE := 600_000_000
  const TICKS_PER_MICROSECOND := 10

  /** A quote in integer units, as a file holds it; the prior quote of a file is one too. */
  datatype Tick = Tick(ticks: int, bid: int, ask: int)

  /** A quote as an aggregation sees it: the time that gives minute and close, and the tick that gaps and changes are taken from. */
  datatype Quote = Quote(at: int, tick: Tick)

  /** A row of the frame, prices in units and the gap in ticks. */
  datatype Row = Row(minute: int, bidOpen: int, askOpen: int, bidHigh: int, askHigh: int, bidLow: int, askLow: int,
                     bidClose: int, askClose: int, count: int, up: int, down: int, gap: int, closed: int)

  function Max(a: int, b: int): int { if a < b then b else a }
  function Min(a: int, b: int): int { if a < b then a else b }

  function Minute(ticks: int): int {
    (ticks - EPOCH_TICKS) / TICKS_PER_MINUTE
  }

  /** The sign of the change of the midpoint. */
  function Change(previous: Option<Tick>, t: Tick): int {
    match previous
    case None => 0
    case Some(p) =>
      var d := (t.bid + t.ask) - (p.bid + p.ask);
      if d > 0 then 1 else if d < 0 then -1 else 0
  }

  function Gap(previous: Option<Tick>, t: Tick): nat {
    match previous case None => 0 case Some(p) => Max(0, t.ticks - p.ticks)
  }

  // ----------------------------------------------------------------- whole-array form

  /** The whole-array form works with the ticks of the file themselves. */
  function Exactly(ts: seq<Tick>): (r: seq<Quote>)
    ensures |r| == |ts| && forall i :: 0 <= i < |ts| ==> r[i] == Quote(ts[i].ticks, ts[i])
  {
    seq(|ts|, i requires 0 <= i < |ts| => Quote(ts[i].ticks, ts[i]))
  }

  function Before(qs: seq<Quote>, prior: Option<Tick>, i: nat): Option<Tick>
    requires i <= |qs|
  {
    if i == 0 then prior else Some(qs[i - 1].tick)
  }

  function MinutesOf(qs: seq<Quote>): (r: seq<int>)
    ensures |r| == |qs| && forall i :: 0 <= i < |qs| ==> r[i] == Minute(qs[i].at)
  {
    seq(|qs|, i requires 0 <= i < |qs| => Minute(qs[i].at))
  }

  function Bids(qs: seq<Quote>): (r: seq<int>)
    ensures |r| == |qs| && forall i :: 0 <= i < |qs| ==> r[i] == qs[i].tick.bid
  {
    seq(|qs|, i requires 0 <= i < |qs| => qs[i].tick.bid)
  }

  function Asks(qs: seq<Quote>): (r: seq<int>)
    ensures |r| == |qs| && forall i :: 0 <= i < |qs| ==> r[i] == qs[i].tick.ask
  {
    seq(|qs|, i requires 0 <= i < |qs| => qs[i].tick.ask)
  }

  function Gaps(qs: seq<Quote>, prior: Option<Tick>): (r: seq<int>)
    ensures |r| == |qs| && forall i :: 0 <= i < |qs| ==> r[i] == Gap(Before(qs, prior, i), qs[i].tick)
  {
    seq(|qs|, i requires 0 <= i < |qs| => Gap(Before(qs, prior, i), qs[i].tick))
  }

  /** Whether the midpoint rose, or fell, at each tick. */
  function Moves(qs: seq<Quote>, prior: Option<Tick>, sign: int): (r: seq<int>)
    ensures |r| == |qs| && forall i :: 0 <= i < |qs| ==> r[i] == if Change(Before(qs, prior, i), qs[i].tick) == sign then 1 else 0
  {
    seq(|qs|, i requires 0 <= i < |qs| => if Change(Before(qs, prior, i), qs[i].tick) == sign then 1 else 0)
  }

  /** `np.maximum.reduceat` on one segment, and its companions. */
  function MaxOver(xs: seq<int>, a: nat, b: nat): int
    requires a <= b < |xs|
    decreases b
  {
    if a == b then xs[a] else Max(MaxOver(xs, a, b - 1), xs[b])
  }

  function MinOver(xs: seq<int>, a: nat, b: nat): int
    requires a <= b < |xs|
    decreases b
  {
    if a == b then xs[a] else Min(MinOver(xs, a, b - 1), xs[b])
  }

  function SumOver(xs: seq<int>, a: nat, b: nat): int
    requires a <= b < |xs|
    decreases b
  {
    if a == b then xs[a] else SumOver(xs, a, b - 1) + xs[b]
  }

  predicate ArePositions(n: nat, r: seq<nat>) {
    && (forall k :: 0 <= k < |r| ==> r[k] < n)
    && (forall j, k :: 0 <= j < k < |r| ==> r[j] < r[k])
    && (n > 0 ==> r != [] && r[0] == 0)
  }

  /** The positions where a minute begins. */
  function Starts(minutes: seq<int>): (r: seq<nat>)
    ensures ArePositions(|minutes|, r)
  {
    if minutes == [] then []
    else
      var n := |minutes| - 1;
      if n == 0 || minutes[n] != minutes[n - 1] then Starts(minutes[..n]) + [n] else Starts(minutes[..n])
  }

  function RowOf(qs: seq<Quote>, prior: Option<Tick>, a: nat, b: nat): Row
    requires a <= b < |qs|
  {
    Row(Minute(qs[a].at), qs[a].tick.bid, qs[a].tick.ask,
        MaxOver(Bids(qs), a, b), MaxOver(Asks(qs), a, b), MinOver(Bids(qs), a, b), MinOver(Asks(qs), a, b),
        qs[b].tick.bid, qs[b].tick.ask, b - a + 1,
        SumOver(Moves(qs, prior, 1), a, b), SumOver(Moves(qs, prior, -1), a, b), MaxOver(Gaps(qs, prior), a, b), qs[b].at)
  }

  /** The last position of a segment. */
  function End(starts: seq<nat>, n: nat, k: nat): int
    requires k < |starts|
  {
    if k + 1 < |starts| then starts[k + 1] - 1 else n - 1
  }

  /** The rows of quotes in order. */
  function Rows(qs: seq<Quote>, prior: Option<Tick>): (r: seq<Row>)
    ensures |r| == |Starts(MinutesOf(qs))|
  {
    var starts := Starts(MinutesOf(qs));
    seq(|starts|, k requires 0 <= k < |starts| => RowOf(qs, prior, starts[k], End(starts, |qs|, k)))
  }

  function LastQuote(qs: seq<Quote>, prior: Option<Tick>): Option<Tick> {
    if qs == [] then prior else Some(qs[|qs| - 1].tick)
  }

  // ------------------------------------------------------------------------- acceptance

  /** A file: its rows and the boundary times of its header. */
  datatype File = File(ticks: seq<Tick>, first: int, last: int)

  predicate Ordered(ts: seq<Tick>) {
    forall i :: 1 <= i < |ts| ==> ts[i - 1].ticks <= ts[i].ticks
  }

  predicate Accepted(f: File) {
    && Ordered(f.ticks)
    && (forall i :: 0 <= i < |f.ticks| ==> 0 < f.ticks[i].bid <= f.ticks[i].ask)
    && (f.ticks != [] ==> f.ticks[0].ticks == f.first && f.ticks[|f.ticks| - 1].ticks == f.last)
  }

  datatype Aggregated = Aggregated(rows: seq<Row>, last: Option<Tick>)

  /** `aggregate_xautk002_batch`. */
  function Batch(f: File, prior: Option<Tick>): Option<Aggregated> {
    if f.ticks == [] then Some(Aggregated([], prior))
    else if f.ticks[0].ticks != f.first || f.ticks[|f.ticks| - 1].ticks != f.last then None
    else if exists i :: 1 <= i < |f.ticks| && f.ticks[i].ticks - f.ticks[i - 1].ticks < 0 then None
    else if exists i :: 0 <= i < |f.ticks| && (f.ticks[i].bid <= 0 || f.ticks[i].ask <= 0) then None
    else if exists i :: 0 <= i < |f.ticks| && f.ticks[i].ask < f.ticks[i].bid then None
    else Some(Aggregated(Rows(Exactly(f.ticks), prior), LastQuote(Exactly(f.ticks), prior)))
  }

  lemma BatchAccepts(f: File, prior: Option<Tick>)
    ensures Batch(f, prior) == if Accepted(f) then Some(Aggregated(Rows(Exactly(f.ticks), prior), LastQuote(Exactly(f.ticks), prior))) else None
  {
    hide Rows;
    if f.ticks == [] {
      assert Rows([], prior) == [] by { NoRows(prior); }
    }
  }

  lemma NoRows(prior: Option<Tick>)
    ensures Rows([], prior) == []
  {}

  // ------------------------------------------------------------------------ one more tick

  function NewRow(previous: Option<Tick>, q: Quote): Row {
    Row(Minute(q.at), q.tick.bid, q.tick.ask, q.tick.bid, q.tick.ask, q.tick.bid, q.tick.ask, q.tick.bid, q.tick.ask, 1,
        if Change(previous, q.tick) == 1 then 1 else 0, if Change(previous, q.tick) == -1 then 1 else 0, Gap(previous, q.tick), q.at)
  }

  /** Two pieces of one minute. */
  function Merge(a: Row, b: Row): Row {
    Row(a.minute, a.bidOpen, a.askOpen, Max(a.bidHigh, b.bidHigh), Max(a.askHigh, b.askHigh),
        Min(a.bidLow, b.bidLow), Min(a.askLow, b.askLow), b.bidClose, b.askClose,
        a.count + b.count, a.up + b.up, a.down + b.down, Max(a.gap, b.gap), b.closed)
  }

  /** Rows followed by later rows: they are listed one after the other, unless they meet in one minute. */
  function Join(a: seq<Row>, b: seq<Row>): seq<Row> {
    if a != [] && b != [] && a[|a| - 1].minute == b[0].minute then
      a[..|a| - 1] + [Merge(a[|a| - 1], b[0])] + b[1..]
    else a + b
  }

  lemma {:induction false} OverPrefix(xs: seq<int>, ys: seq<int>, a: nat, b: nat)
    requires a <= b < |xs| && xs <= ys
    ensures MaxOver(ys, a, b) == MaxOver(xs, a, b) && MinOver(ys, a, b) == MinOver(xs, a, b) && SumOver(ys, a, b) == SumOver(xs, a, b)
    decreases b
  {
    if a < b { OverPrefix(xs, ys, a, b - 1); }
  }

  lemma ArraysGrow(qs: seq<Quote>, prior: Option<Tick>, q: Quote)
    ensures MinutesOf(qs + [q]) == MinutesOf(qs) + [Minute(q.at)]
    ensures Bids(qs) <= Bids(qs + [q]) && Asks(qs) <= Asks(qs + [q])
    ensures Moves(qs, prior, 1) <= Moves(qs + [q], prior, 1) && Moves(qs, prior, -1) <= Moves(qs + [q], prior, -1)
    ensures Gaps(qs, prior) <= Gaps(qs + [q], prior)
  {
    forall i | 0 <= i < |qs|
      ensures Before(qs + [q], prior, i) == Before(qs, prior, i) && (qs + [q])[i] == qs[i]
    {
    }
  }

  lemma RowOfPrefix(qs: seq<Quote>, prior: Option<Tick>, q: Quote, a: nat, b: nat)
    requires a <= b < |qs|
    ensures RowOf(qs + [q], prior, a, b) == RowOf(qs, prior, a, b)
  {
    hide MaxOver, MinOver, SumOver, Gap, Change, Minute;
    ArraysGrow(qs, prior, q);
    OverPrefix(Bids(qs), Bids(qs + [q]), a, b);
    OverPrefix(Asks(qs), Asks(qs + [q]), a, b);
    OverPrefix(Moves(qs, prior, 1), Moves(qs + [q], prior, 1), a, b);
    OverPrefix(Moves(qs, prior, -1), Moves(qs + [q], prior, -1), a, b);
    OverPrefix(Gaps(qs, prior), Gaps(qs + [q], prior), a, b);
  }

  lemma OverStep(xs: seq<int>, a: nat, b: nat)
    requires a < b < |xs|
    ensures MaxOver(xs, a, b) == Max(MaxOver(xs, a, b - 1), xs[b])
    ensures MinOver(xs, a, b) == Min(MinOver(xs, a, b - 1), xs[b])
    ensures SumOver(xs, a, b) == SumOver(xs, a, b - 1) + xs[b]
  {
    hide Max, Min;
  }

  lemma LastBefore(qs: seq<Quote>, prior: Option<Tick>, q: Quote)
    ensures Before(qs + [q], prior, |qs|) == LastQuote(qs, prior)
  {}

  lemma RowOfExtends(qs: seq<Quote>, prior: Option<Tick>, q: Quote, a: nat)
    requires a < |qs|
    ensures RowOf(qs + [q], prior, a, |qs|) == Merge(RowOf(qs, prior, a, |qs| - 1), NewRow(LastQuote(qs, prior), q))
  {
    hide MaxOver, MinOver, SumOver, Max, Min, Gap, Change, Minute, Bids, Asks, Gaps, Moves, Before;
    var us, n := qs + [q], |qs|;
    RowOfPrefix(qs, prior, q, a, n - 1);
    LastBefore(qs, prior, q);
    OverStep(Bids(us), a, n);
    OverStep(Asks(us), a, n);
    OverStep(Moves(us, prior, 1), a, n);
    OverStep(Moves(us, prior, -1), a, n);
    OverStep(Gaps(us, prior), a, n);
  }

  lemma RowOfOne(qs: seq<Quote>, prior: Option<Tick>, q: Quote)
    ensures RowOf(qs + [q], prior, |qs|, |qs|) == NewRow(LastQuote(qs, prior), q)
  {
    hide Gap, Change, Minute;
    assert Before(qs + [q], prior, |qs|) == LastQuote(qs, prior);
  }

  lemma {:induction false} StartsUpTo(minutes: seq<int>)
    requires minutes != []
    ensures var n := |minutes| - 1;
      Starts(minutes) == if n == 0 || minutes[n] != minutes[n - 1] then Starts(minutes[..n]) + [n] else Starts(minutes[..n])
  {}

  lemma {:induction false} StartsGrow(minutes: seq<int>, m: int)
    ensures minutes == [] || m != minutes[|minutes| - 1] ==> Starts(minutes + [m]) == Starts(minutes) + [|minutes|]
    ensures minutes != [] && m == minutes[|minutes| - 1] ==> Starts(minutes + [m]) == Starts(minutes)
  {
    hide Starts, ArePositions;
    var all, n := minutes + [m], |minutes|;
    StartsUpTo(all);
    assert all[..n] == minutes && all[n] == m;
    assert n > 0 ==> all[n - 1] == minutes[n - 1];
  }

  lemma {:induction false} LastMinute(minutes: seq<int>)
    requires minutes != []
    ensures var starts := Starts(minutes); minutes[starts[|starts| - 1]] == minutes[|minutes| - 1]
  {
    var n := |minutes| - 1;
    if n > 0 && minutes[n] == minutes[n - 1] { LastMinute(minutes[..n]); }
  }

  lemma RowAt(qs: seq<Quote>, prior: Option<Tick>, k: nat)
    requires k < |Rows(qs, prior)|
    ensures var starts := Starts(MinutesOf(qs));
      var end := End(starts, |qs|, k);
      starts[k] <= end < |qs| && Rows(qs, prior)[k] == RowOf(qs, prior, starts[k], end)
  {
    hide RowOf, Starts, MinutesOf;
  }

  /** The segments that are complete do not change. */
  lemma RowStays(qs: seq<Quote>, prior: Option<Tick>, q: Quote, k: nat)
    requires k < |Rows(qs, prior)| && (k + 1 < |Rows(qs, prior)| || Starts(MinutesOf(qs + [q])) == Starts(MinutesOf(qs)) + [|qs|])
    ensures k < |Rows(qs + [q], prior)| && Rows(qs + [q], prior)[k] == Rows(qs, prior)[k]
  {
    hide RowOf, Rows, Minute, Starts, MinutesOf, Bids, Asks, Gaps, Moves;
    ArraysGrow(qs, prior, q);
    StartsGrow(MinutesOf(qs), Minute(q.at));
    RowAt(qs, prior, k);
    RowAt(qs + [q], prior, k);
    RowOfPrefix(qs, prior, q, Starts(MinutesOf(qs))[k], End(Starts(MinutesOf(qs)), |qs|, k));
  }

  /** A further tick opens a row or joins the last one. */
  lemma RowsAppend(qs: seq<Quote>, prior: Option<Tick>, q: Quote)
    ensures Rows(qs + [q], prior) == Join(Rows(qs, prior), [NewRow(LastQuote(qs, prior), q)])
  {
    hide RowOf, Gap, Change, Minute, Starts, Merge, MinutesOf, Bids, Asks, Gaps, Moves, Rows;
    var ms, m, n := MinutesOf(qs), Minute(q.at), |Rows(qs, prior)|;
    var one := NewRow(LastQuote(qs, prior), q);
    ArraysGrow(qs, prior, q);
    StartsGrow(ms, m);
    if qs != [] { LastRowMinute(qs, prior); } else { NoStarts(); }
    if qs == [] || m != ms[|ms| - 1] {
      RowOfOne(qs, prior, q);
      RowAt(qs + [q], prior, n);
      forall k | 0 <= k < n
        ensures Rows(qs + [q], prior)[k] == Rows(qs, prior)[k]
      {
        RowStays(qs, prior, q, k);
      }
      assert Rows(qs + [q], prior) == Rows(qs, prior) + [one];
    } else {
      RowAt(qs, prior, n - 1);
      RowAt(qs + [q], prior, n - 1);
      RowOfExtends(qs, prior, q, Starts(ms)[n - 1]);
      forall k | 0 <= k < n - 1
        ensures Rows(qs + [q], prior)[k] == Rows(qs, prior)[k]
      {
        RowStays(qs, prior, q, k);
      }
      assert Rows(qs + [q], prior) == Rows(qs, prior)[..n - 1] + [Merge(Rows(qs, prior)[n - 1], one)];
      assert [one][1..] == [];
    }
  }

  lemma NoStarts()
    ensures Starts([]) == []
  {}

  lemma RowMinute(qs: seq<Quote>, prior: Option<Tick>, a: nat, b: nat)
    requires a <= b < |qs|
    ensures RowOf(qs, prior, a, b).minute == Minute(qs[a].at)
  {
    hide Minute, MaxOver, MinOver, SumOver, Bids, Asks, Gaps, Moves;
  }

  lemma {:induction false} LastRowMinute(qs: seq<Quote>, prior: Option<Tick>)
    requires qs != []
    ensures var rows := Rows(qs, prior); rows != [] && rows[|rows| - 1].minute == Minute(qs[|qs| - 1].at)
  {
    hide Rows, RowOf, Starts, Minute, End;
    var starts := Starts(MinutesOf(qs));
    var k := |starts| - 1;
    RowAt(qs, prior, k);
    RowMinute(qs, prior, starts[k], End(starts, |qs|, k));
    LastMinute(MinutesOf(qs));
  }
}
