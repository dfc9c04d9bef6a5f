/** The two aggregations agree, and files chain. */
module MinutesParity {
  import opened Text
  import opened Minutes

  // ------------------------------------------------------------------- what np.unique does

  ghost predicate NonDecreasing(ms: seq<int>) {
    forall i, j :: 0 <= i < j < |ms| ==> ms[i] <= ms[j]
  }

  lemma {:induction false} FirstsInOrder(ms: seq<int>, i: nat)
    requires NonDecreasing(ms) && i < |ms|
    ensures i in Starts(ms) <==> forall j :: 0 <= j < i ==> ms[j] != ms[i]
  {
    hide Starts;
    StartsAre(ms, i);
    if i > 0 { assert forall j :: 0 <= j < i ==> ms[j] <= ms[i - 1] <= ms[i]; }
  }

  /** In an ordered file the segments start at the first tick of each minute there is, as `np.unique` finds them. */
  lemma StartsAreFirsts(ts: seq<Tick>, i: nat)
    requires Ordered(ts) && i < |ts|
    ensures i in Starts(MinutesOf(Exactly(ts))) <==> forall j :: 0 <= j < i ==> Minute(ts[j].ticks) != Minute(ts[i].ticks)
  {
    hide Minute, Starts;
    OrderedMinutes(ts);
    FirstsInOrder(MinutesOf(Exactly(ts)), i);
    assert forall j :: 0 <= j <= i ==> MinutesOf(Exactly(ts))[j] == Minute(ts[j].ticks);
  }

  lemma OrderedMinutes(ts: seq<Tick>)
    requires Ordered(ts)
    ensures NonDecreasing(MinutesOf(Exactly(ts)))
  {
    forall i, j | 0 <= i < j < |ts|
      ensures MinutesOf(Exactly(ts))[i] <= MinutesOf(Exactly(ts))[j]
    {
      OrderedTicks(ts, i, j);
    }
  }

  lemma {:induction false} OrderedTicks(ts: seq<Tick>, i: nat, j: nat)
    requires Ordered(ts) && i <= j < |ts|
    ensures ts[i].ticks <= ts[j].ticks
    decreases j
  {
    if i < j { OrderedTicks(ts, i, j - 1); }
  }

  // ------------------------------------------------------------------------ tick by tick

  /** A quote as the reader hands it on: its `datetime` counts microseconds. */
  datatype Received = Received(micros: int, bid: int, ask: int)

  function Receive(t: Tick): Received {
    Received(t.ticks / TICKS_PER_MICROSECOND, t.bid, t.ask)
  }

  function ReceiveAll(ts: seq<Tick>): (r: seq<Received>)
    ensures |r| == |ts| && forall i :: 0 <= i < |ts| ==> r[i] == Receive(ts[i])
  {
    seq(|ts|, i requires 0 <= i < |ts| => Receive(ts[i]))
  }

  /** `_datetime_to_dotnet_ticks`: how the time of a quote is turned back into ticks, whatever rounding that involves. */
  type Clock = int -> int

  /** Minute and close come from the quote's time, gap and change from its ticks as the clock gives them. */
  function Timed(clock: Clock, r: Received): Quote {
    Quote(r.micros * TICKS_PER_MICROSECOND, Tick(clock(r.micros), r.bid, r.ask))
  }

  function Converted(clock: Clock, ts: seq<Tick>): (r: seq<Quote>)
    ensures |r| == |ts| && forall i :: 0 <= i < |ts| ==> r[i] == Timed(clock, Receive(ts[i]))
  {
    seq(|ts|, i requires 0 <= i < |ts| => Timed(clock, Receive(ts[i])))
  }

  /** The tick-by-tick form also refuses negative times. */
  predicate Readable(f: File) {
    Accepted(f) && forall i :: 0 <= i < |f.ticks| ==> f.ticks[i].ticks >= 0
  }

  function Streamed(f: File, clock: Clock, prior: Option<Tick>): Option<Aggregated> {
    if Readable(f) then Some(Aggregated(Rows(Converted(clock, f.ticks), prior), LastQuote(Converted(clock, f.ticks), prior))) else None
  }

  function Listed(rows: seq<Row>, current: Option<Row>): seq<Row> {
    match current case None => rows case Some(row) => rows + [row]
  }

  lemma ListedJoins(rows: seq<Row>, current: Option<Row>, one: Row)
    requires current.None? ==> rows == []
    ensures Join(Listed(rows, current), [one])
         == match current
            case None => [one]
            case Some(row) => if row.minute == one.minute then rows + [Merge(row, one)] else rows + [row] + [one]
  {
    assert [one][1..] == [];
    if current.Some? { assert Listed(rows, current)[..|rows|] == rows; }
  }

  /** The open row after one more quote. */
  method Update(current: Row, previous: Option<Tick>, q: Quote, gap: int, change: int) returns (row: Row)
    requires current.gap >= 0 && gap <= Gap(previous, q.tick) && (gap < 0 ==> Gap(previous, q.tick) == 0) && (gap >= 0 ==> gap == Gap(previous, q.tick))
    requires change == Change(previous, q.tick)
    ensures row == Merge(current, NewRow(previous, q)).(minute := current.minute) && row.gap >= 0
  {
    row := current;
    row := row.(bidHigh := Max(row.bidHigh, q.tick.bid), askHigh := Max(row.askHigh, q.tick.ask));
    row := row.(bidLow := Min(row.bidLow, q.tick.bid), askLow := Min(row.askLow, q.tick.ask));
    row := row.(bidClose := q.tick.bid, askClose := q.tick.ask);
    row := row.(count := row.count + 1);
    row := row.(up := row.up + if change > 0 then 1 else 0, down := row.down + if change < 0 then 1 else 0);
    row := row.(gap := Max(row.gap, gap));
    row := row.(closed := q.at);
  }

  /** The gap may be negative before the first quote after a later prior one; rows keep its maximum with zero. */
  method GapAndChange(previous: Option<Tick>, tick: Tick) returns (gap: int, change: int)
    ensures gap <= Gap(previous, tick) && (gap < 0 ==> Gap(previous, tick) == 0) && (gap >= 0 ==> gap == Gap(previous, tick))
    ensures change == Change(previous, tick)
  {
    if previous.None? {
      return 0, 0;
    }
    gap := tick.ticks - previous.value.ticks;
    change := Change(previous, tick);
  }

  /** The row a minute starts with, before its first quote is counted. */
  function OpenRow(q: Quote): Row {
    Row(Minute(q.at), q.tick.bid, q.tick.ask, q.tick.bid, q.tick.ask, q.tick.bid, q.tick.ask, q.tick.bid, q.tick.ask, 0, 0, 0, 0, q.at)
  }

  lemma OpenRowMerges(previous: Option<Tick>, q: Quote)
    ensures Merge(OpenRow(q), NewRow(previous, q)) == NewRow(previous, q)
    ensures NewRow(previous, q).minute == OpenRow(q).minute == Minute(q.at)
  {}

  /** One quote: the row of its minute is opened if need be, then updated. */
  method Aggregate(rows: seq<Row>, current: Option<Row>, previous: Option<Tick>, quote: Quote) returns (rows': seq<Row>, current': Option<Row>)
    requires (current.None? ==> rows == []) && (current.Some? ==> current.value.gap >= 0)
    ensures Listed(rows', current') == Join(Listed(rows, current), [NewRow(previous, quote)])
    ensures current'.Some? && current'.value.gap >= 0
  {
    hide Gap, Change, Minute, Join, Merge, NewRow;
    ListedJoins(rows, current, NewRow(previous, quote));
    OpenRowMerges(previous, quote);
    var minute := Minute(quote.at);
    var gap, change := GapAndChange(previous, quote.tick);
    rows', current' := rows, current;
    if current.None? || current.value.minute != minute {
      if current.Some? {
        rows' := rows + [current.value];
      }
      current' := Some(OpenRow(quote));
    }
    MergeKeepsMinute(current'.value, NewRow(previous, quote));
    var row := Update(current'.value, previous, quote, gap, change);
    current' := Some(row);
  }

  lemma MergeKeepsMinute(a: Row, b: Row)
    ensures Merge(a, b).(minute := a.minute) == Merge(a, b)
  {}

  /** `read_xautk002`: the quotes of a file, if none of its checks fails before or after the last one. */
  method ReadQuotes(f: File) returns (r: Option<seq<Received>>)
    ensures r == if Readable(f) then Some(ReceiveAll(f.ticks)) else None
  {
    var quotes: seq<Received> := [];
    var previousTicks: Option<int> := None;
    var firstSeen: Option<int> := None;
    for n := 0 to |f.ticks|
      invariant previousTicks == if n == 0 then None else Some(f.ticks[n - 1].ticks)
      invariant firstSeen == if n == 0 then None else Some(f.ticks[0].ticks)
      invariant forall i :: 1 <= i < n ==> f.ticks[i - 1].ticks <= f.ticks[i].ticks
      invariant forall i :: 0 <= i < n ==> 0 < f.ticks[i].bid <= f.ticks[i].ask && f.ticks[i].ticks >= 0
      invariant quotes == ReceiveAll(f.ticks[..n])
    {
      var raw := f.ticks[n];
      if previousTicks.Some? && raw.ticks < previousTicks.value {
        return None;
      }
      if raw.bid <= 0 || raw.ask < raw.bid {
        return None;
      }
      if firstSeen.None? {
        firstSeen := Some(raw.ticks);
      }
      previousTicks := Some(raw.ticks);
      if raw.ticks < 0 {
        return None;
      }
      assert ReceiveAll(f.ticks[..n + 1]) == ReceiveAll(f.ticks[..n]) + [Receive(raw)];
      quotes := quotes + [Receive(raw)];
    }
    assert f.ticks[..|f.ticks|] == f.ticks;
    if f.ticks != [] && (firstSeen != Some(f.first) || previousTicks != Some(f.last)) {
      return None;
    }
    return Some(quotes);
  }

  /** `aggregate_xautk002_streaming`. */
  method Streaming(f: File, clock: Clock, prior: Option<Tick>) returns (r: Option<Aggregated>)
    ensures r == Streamed(f, clock, prior)
  {
    hide Rows, Minute, Join, NewRow, Readable, Timed;
    var quotes := ReadQuotes(f);
    if quotes.None? {
      return None;
    }
    ghost var qs := Converted(clock, f.ticks);
    var rows: seq<Row> := [];
    var current: Option<Row> := None;
    var previous := prior;
    NoRows(prior);
    for n := 0 to |quotes.value|
      invariant Listed(rows, current) == Rows(qs[..n], prior) && previous == LastQuote(qs[..n], prior)
      invariant (current.None? ==> rows == []) && (current.Some? ==> current.value.gap >= 0)
    {
      var quote := Timed(clock, quotes.value[n]);
      assert qs[..n + 1] == qs[..n] + [quote];
      RowsAppend(qs[..n], prior, quote);
      rows, current := Aggregate(rows, current, previous, quote);
      previous := Some(quote.tick);
    }
    assert qs[..|qs|] == qs;
    return Some(Aggregated(Listed(rows, current), previous));
  }

  // ------------------------------------------------------------------------------- parity

  lemma QuotientIs(x: int, q: int)
    requires TICKS_PER_MINUTE * q <= x < TICKS_PER_MINUTE * q + TICKS_PER_MINUTE
    ensures x / TICKS_PER_MINUTE == q
  {}

  function ToMicroseconds(ticks: int): int {
    ticks / TICKS_PER_MICROSECOND * TICKS_PER_MICROSECOND
  }

  lemma MinuteIgnoresMicroseconds(ticks: int)
    ensures Minute(ToMicroseconds(ticks)) == Minute(ticks)
  {
    var k, j := ticks / TICKS_PER_MICROSECOND, ticks % TICKS_PER_MICROSECOND;
    var m, e := TICKS_PER_MINUTE / TICKS_PER_MICROSECOND, EPOCH_TICKS / TICKS_PER_MICROSECOND;
    var q, s := (k - e) / m, (k - e) % m;
    assert ticks == 10 * k + j && k - e == m * q + s;
    QuotientIs(ticks - EPOCH_TICKS, q);
    QuotientIs(10 * k - EPOCH_TICKS, q);
  }

  lemma SameArrays(ts: seq<Tick>, clock: Clock, prior: Option<Tick>)
    ensures var qs, xs := Converted(clock, ts), Exactly(ts);
      && MinutesOf(qs) == MinutesOf(xs) && Bids(qs) == Bids(xs) && Asks(qs) == Asks(xs)
      && forall sign :: Moves(qs, prior, sign) == Moves(xs, prior, sign)
  {
    hide Minute, ToMicroseconds;
    var qs, xs := Converted(clock, ts), Exactly(ts);
    forall i | 0 <= i < |ts|
      ensures MinutesOf(qs)[i] == MinutesOf(xs)[i]
      ensures Change(Before(qs, prior, i), qs[i].tick) == Change(Before(xs, prior, i), xs[i].tick)
    {
      assert qs[i].at == ToMicroseconds(ts[i].ticks) by { TimeOf(clock, ts[i]); }
      MinuteIgnoresMicroseconds(ts[i].ticks);
    }
    forall sign
      ensures Moves(qs, prior, sign) == Moves(xs, prior, sign)
    {
    }
  }

  lemma TimeOf(clock: Clock, t: Tick)
    ensures Timed(clock, Receive(t)) == Quote(ToMicroseconds(t.ticks), Tick(clock(t.ticks / TICKS_PER_MICROSECOND), t.bid, t.ask))
  {}

  /** A row of one form and of the other: alike in everything but the gap, and the close is cut to the microsecond. */
  predicate Agree(streamed: Row, batch: Row) {
    streamed == batch.(gap := streamed.gap, closed := ToMicroseconds(batch.closed))
  }

  lemma RowsOfAgree(ts: seq<Tick>, clock: Clock, prior: Option<Tick>, a: nat, b: nat)
    requires a <= b < |ts|
    ensures Agree(RowOf(Converted(clock, ts), prior, a, b), RowOf(Exactly(ts), prior, a, b))
  {
    hide Minute, Gap, Change, MaxOver, MinOver, SumOver, Gaps, Moves, Bids, Asks, MinutesOf, ToMicroseconds, Timed, Receive;
    SameArrays(ts, clock, prior);
    MinuteIgnoresMicroseconds(ts[a].ticks);
    TimeOf(clock, ts[a]);
    TimeOf(clock, ts[b]);
  }

  /** Where the two forms have their rows. */
  lemma SameSegments(ts: seq<Tick>, clock: Clock, prior: Option<Tick>, k: nat)
    requires k < |Rows(Exactly(ts), prior)|
    ensures |Rows(Converted(clock, ts), prior)| == |Rows(Exactly(ts), prior)|
    ensures var starts := Starts(MinutesOf(Exactly(ts)));
      var end := End(starts, |ts|, k);
      && starts[k] <= end < |ts| && Rows(Exactly(ts), prior)[k] == RowOf(Exactly(ts), prior, starts[k], end)
      && Rows(Converted(clock, ts), prior)[k] == RowOf(Converted(clock, ts), prior, starts[k], end)
  {
    hide RowOf, Starts, MinutesOf, Converted, Exactly;
    SameArrays(ts, clock, prior);
    SameRowCount(ts, clock, prior);
    RowAt(Exactly(ts), prior, k);
    RowAt(Converted(clock, ts), prior, k);
  }

  lemma SameRowCount(ts: seq<Tick>, clock: Clock, prior: Option<Tick>)
    ensures |Rows(Converted(clock, ts), prior)| == |Rows(Exactly(ts), prior)|
  {
    hide RowOf, Starts, MinutesOf, Converted, Exactly;
    SameArrays(ts, clock, prior);
  }

  lemma RowsAgree(ts: seq<Tick>, clock: Clock, prior: Option<Tick>)
    ensures |Rows(Converted(clock, ts), prior)| == |Rows(Exactly(ts), prior)|
    ensures forall k :: 0 <= k < |Rows(Exactly(ts), prior)| ==> Agree(Rows(Converted(clock, ts), prior)[k], Rows(Exactly(ts), prior)[k])
  {
    hide RowOf, Agree, Starts, MinutesOf, Minute, Converted, Exactly, Rows;
    SameRowCount(ts, clock, prior);
    forall k | 0 <= k < |Rows(Exactly(ts), prior)|
      ensures Agree(Rows(Converted(clock, ts), prior)[k], Rows(Exactly(ts), prior)[k])
    {
      SameSegments(ts, clock, prior, k);
      RowsOfAgree(ts, clock, prior, Starts(MinutesOf(Exactly(ts)))[k], End(Starts(MinutesOf(Exactly(ts))), |ts|, k));
    }
  }

  /** The clock gives back the ticks that the file holds. */
  predicate Restores(clock: Clock, t: Tick) {
    clock(t.ticks / TICKS_PER_MICROSECOND) == t.ticks
  }

  predicate IsWhole(ticks: int) {
    ticks % TICKS_PER_MICROSECOND == 0
  }

  lemma LastAgrees(ts: seq<Tick>, clock: Clock, prior: Option<Tick>)
    ensures LastQuote(Converted(clock, ts), prior) == LastQuote(Exactly(ts), prior) <==> ts == [] || Restores(clock, ts[|ts| - 1])
  {}

  // --------------------------------------------------------- the condition, on the input

  /** A run of ticks of one minute, as long as it goes. */
  predicate IsSegment(ts: seq<Tick>, a: nat, b: nat) {
    && a <= b < |ts|
    && (a == 0 || Minute(ts[a - 1].ticks) != Minute(ts[a].ticks))
    && (b + 1 == |ts| || Minute(ts[b].ticks) != Minute(ts[b + 1].ticks))
    && forall i :: a < i <= b ==> Minute(ts[i - 1].ticks) == Minute(ts[i].ticks)
  }

  /** The largest step of some times over a segment, from the time before each; a step back counts as none. */
  function LargestStep(times: seq<int>, before: Option<int>, a: nat, b: nat): nat
    requires a <= b < |times|
    decreases b
  {
    if a == b then StepTo(times, before, b) else Max(LargestStep(times, before, a, b - 1), StepTo(times, before, b))
  }

  function StepTo(times: seq<int>, before: Option<int>, i: nat): nat
    requires i < |times|
  {
    var previous := if i == 0 then before else Some(times[i - 1]);
    if previous.None? then 0 else Max(0, times[i] - previous.value)
  }

  function FileTimes(ts: seq<Tick>): (r: seq<int>)
    ensures |r| == |ts| && forall i :: 0 <= i < |ts| ==> r[i] == ts[i].ticks
  {
    seq(|ts|, i requires 0 <= i < |ts| => ts[i].ticks)
  }

  function ClockTimes(clock: Clock, ts: seq<Tick>): (r: seq<int>)
    ensures |r| == |ts| && forall i :: 0 <= i < |ts| ==> r[i] == clock(ts[i].ticks / TICKS_PER_MICROSECOND)
  {
    seq(|ts|, i requires 0 <= i < |ts| => clock(ts[i].ticks / TICKS_PER_MICROSECOND))
  }

  function TimeBefore(prior: Option<Tick>): Option<int> {
    match prior case None => None case Some(t) => Some(t.ticks)
  }

  /** In every minute the last tick is whole, and the clock's largest step is the file's. */
  ghost predicate MinutesAreKept(ts: seq<Tick>, clock: Clock, prior: Option<Tick>) {
    forall a: nat, b: nat :: IsSegment(ts, a, b) ==>
      && IsWhole(ts[b].ticks)
      && LargestStep(ClockTimes(clock, ts), TimeBefore(prior), a, b) == LargestStep(FileTimes(ts), TimeBefore(prior), a, b)
  }

  lemma {:induction false} StartsAre(ms: seq<int>, i: nat)
    requires i < |ms|
    ensures i in Starts(ms) <==> i == 0 || ms[i - 1] != ms[i]
  {
    var n := |ms| - 1;
    if i < n {
      StartsAre(ms[..n], i);
    } else if n > 0 && ms[n - 1] == ms[n] {
      assert forall k :: k in Starts(ms[..n]) ==> k < n;
    }
  }

  /** The segments of a file are those its rows are made of. */
  lemma RowIsSegment(ts: seq<Tick>, k: nat)
    requires k < |Starts(MinutesOf(Exactly(ts)))|
    ensures var starts := Starts(MinutesOf(Exactly(ts))); 0 <= End(starts, |ts|, k) && IsSegment(ts, starts[k], End(starts, |ts|, k))
  {
    hide Starts, Minute;
    var ms := MinutesOf(Exactly(ts));
    var starts := Starts(ms);
    var a, b: nat := starts[k], End(starts, |ts|, k);
    assert a in starts;
    StartsAre(ms, a);
    forall i | a < i <= b
      ensures Minute(ts[i - 1].ticks) == Minute(ts[i].ticks)
    {
      NotAStart(starts, |ts|, k, i);
      StartsAre(ms, i);
    }
    if b + 1 < |ts| {
      assert starts[k + 1] in starts;
      StartsAre(ms, b + 1);
    }
  }

  lemma NotAStart(starts: seq<nat>, n: nat, k: nat, i: nat)
    requires forall p, q :: 0 <= p < q < |starts| ==> starts[p] < starts[q]
    requires k < |starts| && starts[k] < i <= End(starts, n, k)
    ensures i !in starts
  {}

  lemma SegmentIsRow(ts: seq<Tick>, a: nat, b: nat) returns (k: nat)
    requires IsSegment(ts, a, b)
    ensures var starts := Starts(MinutesOf(Exactly(ts))); k < |starts| && starts[k] == a && End(starts, |ts|, k) == b
  {
    hide Starts, Minute;
    var ms := MinutesOf(Exactly(ts));
    var starts := Starts(ms);
    StartsAre(ms, a);
    k :| 0 <= k < |starts| && starts[k] == a;
    if b + 1 < |ts| {
      StartsAre(ms, b + 1);
      var j :| 0 <= j < |starts| && starts[j] == b + 1;
      assert j > k;
    }
    if k + 1 < |starts| {
      var next := starts[k + 1];
      assert next in starts;
      StartsAre(ms, next);
      assert next > b;
    }
  }

  lemma {:induction false} GapsAreSteps(qs: seq<Quote>, times: seq<int>, prior: Option<Tick>, a: nat, b: nat)
    requires a <= b < |qs| && |times| == |qs| && forall i :: 0 <= i < |qs| ==> times[i] == qs[i].tick.ticks
    ensures MaxOver(Gaps(qs, prior), a, b) == LargestStep(times, TimeBefore(prior), a, b)
    decreases b
  {
    hide Gaps, StepTo;
    GapIsStep(qs, times, prior, b);
    if a < b { GapsAreSteps(qs, times, prior, a, b - 1); }
  }

  lemma GapIsStep(qs: seq<Quote>, times: seq<int>, prior: Option<Tick>, i: nat)
    requires i < |qs| && |times| == |qs| && forall i :: 0 <= i < |qs| ==> times[i] == qs[i].tick.ticks
    ensures Gaps(qs, prior)[i] == StepTo(times, TimeBefore(prior), i)
  {}

  lemma SameRowIff(ts: seq<Tick>, clock: Clock, prior: Option<Tick>, a: nat, b: nat)
    requires a <= b < |ts|
    ensures RowOf(Converted(clock, ts), prior, a, b) == RowOf(Exactly(ts), prior, a, b) <==>
      && IsWhole(ts[b].ticks)
      && LargestStep(ClockTimes(clock, ts), TimeBefore(prior), a, b) == LargestStep(FileTimes(ts), TimeBefore(prior), a, b)
  {
    hide Minute, MaxOver, MinOver, SumOver, Gaps, Moves, Bids, Asks, LargestStep, TimeBefore;
    RowsOfAgree(ts, clock, prior, a, b);
    GapsAreSteps(Converted(clock, ts), ClockTimes(clock, ts), prior, a, b);
    GapsAreSteps(Exactly(ts), FileTimes(ts), prior, a, b);
    RowGap(Converted(clock, ts), prior, a, b);
    RowGap(Exactly(ts), prior, a, b);
  }

  lemma SameRowsIff(ts: seq<Tick>, clock: Clock, prior: Option<Tick>)
    ensures Rows(Converted(clock, ts), prior) == Rows(Exactly(ts), prior) <==> MinutesAreKept(ts, clock, prior)
  {
    hide RowOf, Starts, MinutesOf, Minute, Converted, Exactly, Rows, LargestStep, IsWhole;
    var s, b := Rows(Converted(clock, ts), prior), Rows(Exactly(ts), prior);
    SameRowCount(ts, clock, prior);
    RowCount(ts, prior);
    if MinutesAreKept(ts, clock, prior) {
      forall k | 0 <= k < |b|
        ensures s[k] == b[k]
      {
        SameSegments(ts, clock, prior, k);
        RowIsSegment(ts, k);
        SameRowIff(ts, clock, prior, Starts(MinutesOf(Exactly(ts)))[k], End(Starts(MinutesOf(Exactly(ts))), |ts|, k));
      }
    }
    if s == b {
      forall a: nat, e: nat | IsSegment(ts, a, e)
        ensures IsWhole(ts[e].ticks)
        ensures LargestStep(ClockTimes(clock, ts), TimeBefore(prior), a, e) == LargestStep(FileTimes(ts), TimeBefore(prior), a, e)
      {
        var k := SegmentIsRow(ts, a, e);
        SameSegments(ts, clock, prior, k);
        SameRowIff(ts, clock, prior, a, e);
      }
    }
  }

  lemma RowCount(ts: seq<Tick>, prior: Option<Tick>)
    ensures |Rows(Exactly(ts), prior)| == |Starts(MinutesOf(Exactly(ts)))|
  {
    hide Starts, RowOf, MinutesOf, Exactly;
  }

  /**
    Parity, whatever the clock: both forms refuse the same files, apart from negative times, and return
    the same rows up to gap and close. The last quotes are the same exactly when the clock restores the
    last tick; all is the same exactly when besides each minute ends with a whole microsecond and the
    clock's largest step in it is the file's.
   */
  lemma Parity(f: File, clock: Clock, prior: Option<Tick>)
    ensures Streamed(f, clock, prior).Some? <==> Batch(f, prior).Some? && forall i :: 0 <= i < |f.ticks| ==> f.ticks[i].ticks >= 0
    ensures Streamed(f, clock, prior).Some? ==>
      var s, b := Streamed(f, clock, prior).value, Batch(f, prior).value;
      && |s.rows| == |b.rows| && (forall k :: 0 <= k < |b.rows| ==> Agree(s.rows[k], b.rows[k]))
      && (s.last == b.last <==> f.ticks == [] || Restores(clock, f.ticks[|f.ticks| - 1]))
      && (s == b <==> (f.ticks == [] || Restores(clock, f.ticks[|f.ticks| - 1])) && MinutesAreKept(f.ticks, clock, prior))
  {
    hide Rows, Agree, Batch, Converted, Exactly, Accepted, MinutesAreKept, LastQuote, Restores;
    BatchAccepts(f, prior);
    RowsAgree(f.ticks, clock, prior);
    LastAgrees(f.ticks, clock, prior);
    SameRowsIff(f.ticks, clock, prior);
  }

  /** With whole microseconds that the clock restores the two forms return the same result. */
  lemma ParityWhenRestored(f: File, clock: Clock, prior: Option<Tick>)
    requires Readable(f) && forall i :: 0 <= i < |f.ticks| ==> IsWhole(f.ticks[i].ticks) && Restores(clock, f.ticks[i])
    ensures Streamed(f, clock, prior) == Batch(f, prior)
  {
    hide Rows, Batch, Accepted, LastQuote;
    BatchAccepts(f, prior);
    assert Converted(clock, f.ticks) == Exactly(f.ticks);
  }

  predicate Within(a: int, b: int, d: nat) {
    a - b <= d && b - a <= d
  }

  lemma {:induction false} MaxOverNear(xs: seq<int>, ys: seq<int>, a: nat, b: nat, d: nat)
    requires a <= b < |xs| && |xs| == |ys| && forall i :: a <= i <= b ==> Within(xs[i], ys[i], d)
    ensures Within(MaxOver(xs, a, b), MaxOver(ys, a, b), d)
    decreases b
  {
    if a < b { MaxOverNear(xs, ys, a, b - 1, d); }
  }

  /** A clock that is off by so much at most makes gaps differ by twice as much at most. */
  lemma GapsStayClose(ts: seq<Tick>, clock: Clock, prior: Option<Tick>, d: nat)
    requires forall i :: 0 <= i < |ts| ==> Within(clock(ts[i].ticks / TICKS_PER_MICROSECOND), ts[i].ticks, d)
    ensures |Rows(Converted(clock, ts), prior)| == |Rows(Exactly(ts), prior)|
    ensures forall k :: 0 <= k < |Rows(Exactly(ts), prior)| ==>
      Within(Rows(Converted(clock, ts), prior)[k].gap, Rows(Exactly(ts), prior)[k].gap, 2 * d)
  {
    hide Minute, Change, Starts, MinutesOf, Rows, RowOf, Converted, Exactly, Gaps;
    SameRowCount(ts, clock, prior);
    forall k | 0 <= k < |Rows(Exactly(ts), prior)|
      ensures Within(Rows(Converted(clock, ts), prior)[k].gap, Rows(Exactly(ts), prior)[k].gap, 2 * d)
    {
      SameSegments(ts, clock, prior, k);
      var starts := Starts(MinutesOf(Exactly(ts)));
      var a, b := starts[k], End(starts, |ts|, k);
      forall i | a <= i <= b
        ensures Within(Gaps(Converted(clock, ts), prior)[i], Gaps(Exactly(ts), prior)[i], 2 * d)
      {
        GapStaysClose(ts, clock, prior, i, d);
      }
      RowGap(Converted(clock, ts), prior, a, b);
      RowGap(Exactly(ts), prior, a, b);
      MaxOverNear(Gaps(Converted(clock, ts), prior), Gaps(Exactly(ts), prior), a, b, 2 * d);
    }
  }

  lemma RowGap(qs: seq<Quote>, prior: Option<Tick>, a: nat, b: nat)
    requires a <= b < |qs|
    ensures RowOf(qs, prior, a, b).gap == MaxOver(Gaps(qs, prior), a, b)
  {}

  lemma GapStaysClose(ts: seq<Tick>, clock: Clock, prior: Option<Tick>, i: nat, d: nat)
    requires i < |ts| && Within(clock(ts[i].ticks / TICKS_PER_MICROSECOND), ts[i].ticks, d)
    requires i > 0 ==> Within(clock(ts[i - 1].ticks / TICKS_PER_MICROSECOND), ts[i - 1].ticks, d)
    ensures Within(Gaps(Converted(clock, ts), prior)[i], Gaps(Exactly(ts), prior)[i], 2 * d)
  {}

  // ----------------------------------------------------------------------------- chaining

  lemma MergeIsAssociative(a: Row, b: Row, c: Row)
    ensures Merge(Merge(a, b), c) == Merge(a, Merge(b, c))
  {}

  lemma JoinIsAssociative(x: seq<Row>, y: seq<Row>, one: Row)
    ensures Join(Join(x, y), [one]) == Join(x, Join(y, [one]))
  {
    assert [one][1..] == [];
    if y == [] {
      assert x + y == x && y + [one] == [one];
    } else if x == [] {
      assert Join(x, y) == y && x + Join(y, [one]) == Join(y, [one]);
    } else {
      JoinsInTheMiddle(x, y, one);
    }
  }

  /** Where two lists of rows meet. */
  lemma JoinSplit(p: seq<Row>, u: Row, v: Row, q: seq<Row>)
    ensures Join(p + [u], [v] + q) == p + (if u.minute == v.minute then [Merge(u, v)] else [u, v]) + q
  {
    hide Merge;
    assert (p + [u])[..|p|] == p && ([v] + q)[1..] == q;
    assert p + [u] + ([v] + q) == p + [u, v] + q;
  }

  lemma JoinsOneRow(p: seq<Row>, u: Row, v: Row, one: Row)
    ensures Join(Join(p + [u], [v]), [one]) == Join(p + [u], Join([v], [one]))
  {
    hide Merge, Join;
    MergeIsAssociative(u, v, one);
    MergeMinute(u, v);
    MergeMinute(v, one);
    JoinSplit(p, u, v, []);
    JoinSplit([], v, one, []);
    assert [v] + [] == [v] && [] + [v] == [v] && [one] + [] == [one];
    if u.minute == v.minute {
      assert Join(p + [u], [v]) == p + [Merge(u, v)];
      JoinSplit(p, Merge(u, v), one, []);
    } else {
      assert Join(p + [u], [v]) == p + [u] + [v];
      JoinSplit(p + [u], v, one, []);
    }
    if v.minute == one.minute {
      assert Join([v], [one]) == [Merge(v, one)] + [];
      JoinSplit(p, u, Merge(v, one), []);
    } else {
      assert Join([v], [one]) == [v] + [one];
      JoinSplit(p, u, v, [one]);
    }
  }

  lemma JoinsManyRows(p: seq<Row>, u: Row, v: Row, q: seq<Row>, w: Row, one: Row)
    ensures Join(Join(p + [u], [v] + q + [w]), [one]) == Join(p + [u], Join([v] + q + [w], [one]))
  {
    hide Merge, Join;
    var met := if u.minute == v.minute then [Merge(u, v)] else [u, v];
    assert [v] + q + [w] == [v] + (q + [w]) && [one] + [] == [one];
    JoinSplit(p, u, v, q + [w]);
    assert p + met + (q + [w]) == p + met + q + [w];
    JoinSplit(p + met + q, w, one, []);
    JoinSplit([v] + q, w, one, []);
    var end := if w.minute == one.minute then [Merge(w, one)] else [w, one];
    assert [v] + q + end + [] == [v] + (q + end);
    JoinSplit(p, u, v, q + end);
    assert p + met + q + end + [] == p + met + (q + end);
  }

  lemma JoinsInTheMiddle(x: seq<Row>, y: seq<Row>, one: Row)
    requires x != [] && y != []
    ensures Join(Join(x, y), [one]) == Join(x, Join(y, [one]))
  {
    hide Merge, Join;
    var m, n := |x| - 1, |y| - 1;
    assert x == x[..m] + [x[m]];
    if n == 0 {
      assert y == [y[0]];
      JoinsOneRow(x[..m], x[m], y[0], one);
    } else {
      assert y == [y[0]] + y[1..n] + [y[n]];
      JoinsManyRows(x[..m], x[m], y[0], y[1..n], y[n], one);
    }
  }

  lemma MergeMinute(a: Row, b: Row)
    ensures Merge(a, b).minute == a.minute
  {}

  /**
    Chaining: the rows of one file after another, each with the last quote before it as its prior, are
    the rows of both together, the row of a shared minute being merged.
   */
  lemma {:induction false} RowsChain(a: seq<Quote>, b: seq<Quote>, prior: Option<Tick>)
    ensures Rows(a + b, prior) == Join(Rows(a, prior), Rows(b, LastQuote(a, prior)))
    ensures LastQuote(a + b, prior) == LastQuote(b, LastQuote(a, prior))
  {
    hide Rows, Join, NewRow;
    if b == [] {
      assert a + b == a;
      NoRows(LastQuote(a, prior));
      JoinsNothing(Rows(a, prior));
    } else {
      var n, between := |b| - 1, LastQuote(a, prior);
      assert b == b[..n] + [b[n]] && a + b == a + b[..n] + [b[n]];
      RowsChain(a, b[..n], prior);
      RowsAppend(a + b[..n], prior, b[n]);
      RowsAppend(b[..n], between, b[n]);
      JoinIsAssociative(Rows(a, prior), Rows(b[..n], between), NewRow(LastQuote(b[..n], between), b[n]));
    }
  }

  lemma JoinsNothing(rows: seq<Row>)
    ensures Join(rows, []) == rows
  {}

  /** Files in order chain through the last quote; an empty file leaves the prior quote as it is. */
  lemma FilesChain(a: File, b: File, prior: Option<Tick>)
    requires Batch(a, prior).Some?
    requires b.ticks != [] ==> b.ticks[0].ticks == b.first
    requires a.ticks != [] && b.ticks != [] ==> a.ticks[|a.ticks| - 1].ticks <= b.first
    ensures var first := Batch(a, prior).value;
      var both := File(a.ticks + b.ticks, if a.ticks == [] then b.first else a.first, if b.ticks == [] then a.last else b.last);
      Batch(both, prior) == match Batch(b, first.last)
        case None => None
        case Some(second) => Some(Aggregated(Join(first.rows, second.rows), second.last))
    ensures a.ticks == [] ==> Batch(a, prior).value == Aggregated([], prior)
  {
    hide Batch, Rows, Join, Accepted, Exactly, LastQuote;
    var both := File(a.ticks + b.ticks, if a.ticks == [] then b.first else a.first, if b.ticks == [] then a.last else b.last);
    var xs, ys := Exactly(a.ticks), Exactly(b.ticks);
    BatchAccepts(a, prior);
    BatchAccepts(b, LastQuote(xs, prior));
    BatchAccepts(both, prior);
    NoRows(prior);
    EmptyFile(prior);
    RowsChain(xs, ys, prior);
    assert Exactly(a.ticks + b.ticks) == xs + ys by { ExactlyConcat(a.ticks, b.ticks); }
    if Accepted(b) {
      BothAccepted(a, b, both);
    } else if Accepted(both) {
      SecondAccepted(a, b, both);
    }
  }

  lemma EmptyFile(prior: Option<Tick>)
    ensures Exactly([]) == [] && LastQuote([], prior) == prior
  {}

  lemma ExactlyConcat(a: seq<Tick>, b: seq<Tick>)
    ensures Exactly(a + b) == Exactly(a) + Exactly(b)
  {}

  lemma BothAccepted(a: File, b: File, both: File)
    requires Accepted(a) && Accepted(b) && both.ticks == a.ticks + b.ticks
    requires a.ticks != [] && b.ticks != [] ==> a.ticks[|a.ticks| - 1].ticks <= b.ticks[0].ticks
    requires both.first == (if a.ticks == [] then b.first else a.first) && both.last == if b.ticks == [] then a.last else b.last
    ensures Accepted(both)
  {}

  lemma SecondAccepted(a: File, b: File, both: File)
    requires Accepted(a) && Accepted(both) && both.ticks == a.ticks + b.ticks
    requires a.ticks == [] ==> both.first == b.first
    requires both.last == if b.ticks == [] then a.last else b.last
    requires b.ticks != [] && a.ticks != [] ==> b.ticks[0].ticks == b.first
    ensures Accepted(b)
  {
    var n := |a.ticks|;
    forall i | 0 <= i < |b.ticks|
      ensures 0 < b.ticks[i].bid <= b.ticks[i].ask && (i > 0 ==> b.ticks[i - 1].ticks <= b.ticks[i].ticks)
    {
      assert both.ticks[n + i] == b.ticks[i];
      assert i > 0 ==> both.ticks[n + i - 1] == b.ticks[i - 1];
    }
  }

  function TickCount(rows: seq<Row>): int {
    if rows == [] then 0 else TickCount(rows[..|rows| - 1]) + rows[|rows| - 1].count
  }

  lemma TickCountAppend(rows: seq<Row>, one: Row)
    ensures TickCount(rows + [one]) == TickCount(rows) + one.count
  {
    assert (rows + [one])[..|rows|] == rows;
  }

  lemma TickCountJoin(rows: seq<Row>, one: Row)
    ensures TickCount(Join(rows, [one])) == TickCount(rows) + one.count
  {
    hide TickCount;
    assert [one][1..] == [];
    TickCountAppend(rows, one);
    if rows != [] {
      var n := |rows| - 1;
      assert rows == rows[..n] + [rows[n]];
      TickCountAppend(rows[..n], rows[n]);
      TickCountAppend(rows[..n], Merge(rows[n], one));
      assert Join(rows, [one]) == if rows[n].minute == one.minute then rows[..n] + [Merge(rows[n], one)] else rows + [one];
    }
  }

  /** Every tick is counted in exactly one row. */
  lemma {:induction false} CountsAddUp(qs: seq<Quote>, prior: Option<Tick>)
    ensures TickCount(Rows(qs, prior)) == |qs|
  {
    hide Rows, Join;
    if qs == [] {
      NoRows(prior);
    } else {
      var n := |qs| - 1;
      assert qs == qs[..n] + [qs[n]];
      CountsAddUp(qs[..n], prior);
      RowsAppend(qs[..n], prior, qs[n]);
      TickCountJoin(Rows(qs[..n], prior), NewRow(LastQuote(qs[..n], prior), qs[n]));
    }
  }
}
