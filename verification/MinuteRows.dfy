/** What a row says, told from the ticks of its minute alone. */
module MinuteRows {
  import opened Text
  import opened Minutes
  import opened MinutesParity

  // ------------------------------------------------------------ reductions over a segment

  lemma {:induction false} MaxOverIs(xs: seq<int>, a: nat, b: nat) returns (at: nat)
    requires a <= b < |xs|
    ensures a <= at <= b && xs[at] == MaxOver(xs, a, b) && forall i :: a <= i <= b ==> xs[i] <= MaxOver(xs, a, b)
    decreases b
  {
    at := b;
    if a < b {
      var before := MaxOverIs(xs, a, b - 1);
      if xs[b] <= xs[before] { at := before; }
    }
  }

  lemma {:induction false} MinOverIs(xs: seq<int>, a: nat, b: nat) returns (at: nat)
    requires a <= b < |xs|
    ensures a <= at <= b && xs[at] == MinOver(xs, a, b) && forall i :: a <= i <= b ==> xs[i] >= MinOver(xs, a, b)
    decreases b
  {
    at := b;
    if a < b {
      var before := MinOverIs(xs, a, b - 1);
      if xs[b] >= xs[before] { at := before; }
    }
  }

  /** Bid and ask of a quote together are above those of the quote before it, the prior one before the first. */
  predicate Rose(qs: seq<Quote>, prior: Option<Tick>, i: nat)
    requires i < |qs|
  {
    var t := qs[i].tick;
    if i == 0 then prior.Some? && t.bid + t.ask > prior.value.bid + prior.value.ask
    else t.bid + t.ask > qs[i - 1].tick.bid + qs[i - 1].tick.ask
  }

  /** They are below. */
  predicate Fell(qs: seq<Quote>, prior: Option<Tick>, i: nat)
    requires i < |qs|
  {
    var t := qs[i].tick;
    if i == 0 then prior.Some? && t.bid + t.ask < prior.value.bid + prior.value.ask
    else t.bid + t.ask < qs[i - 1].tick.bid + qs[i - 1].tick.ask
  }

  function Rises(qs: seq<Quote>, prior: Option<Tick>, a: nat, b: nat): set<nat>
    requires a <= b < |qs|
  {
    set i: nat | a <= i <= b && Rose(qs, prior, i)
  }

  function Falls(qs: seq<Quote>, prior: Option<Tick>, a: nat, b: nat): set<nat>
    requires a <= b < |qs|
  {
    set i: nat | a <= i <= b && Fell(qs, prior, i)
  }

  lemma RisesHas(qs: seq<Quote>, prior: Option<Tick>, a: nat, b: nat, i: nat)
    requires a <= b < |qs|
    ensures i in Rises(qs, prior, a, b) <==> a <= i <= b && Rose(qs, prior, i)
  {
    hide Rose;
  }

  lemma RisesStep(qs: seq<Quote>, prior: Option<Tick>, a: nat, b: nat)
    requires a <= b < |qs|
    ensures |Rises(qs, prior, a, b)| == (if a == b then 0 else |Rises(qs, prior, a, b - 1)|) + if Rose(qs, prior, b) then 1 else 0
  {
    hide Rose, Rises;
    var before: set<nat> := if a == b then {} else Rises(qs, prior, a, b - 1);
    forall i: nat
      ensures i in Rises(qs, prior, a, b) <==> i in before || (i == b && Rose(qs, prior, b))
      ensures i in before ==> i < b
    {
      RisesHas(qs, prior, a, b, i);
      if a < b { RisesHas(qs, prior, a, b - 1, i); }
    }
    assert Rises(qs, prior, a, b) == before + if Rose(qs, prior, b) then {b} else {};
  }

  lemma FallsHas(qs: seq<Quote>, prior: Option<Tick>, a: nat, b: nat, i: nat)
    requires a <= b < |qs|
    ensures i in Falls(qs, prior, a, b) <==> a <= i <= b && Fell(qs, prior, i)
  {
    hide Fell;
  }

  lemma FallsStep(qs: seq<Quote>, prior: Option<Tick>, a: nat, b: nat)
    requires a <= b < |qs|
    ensures |Falls(qs, prior, a, b)| == (if a == b then 0 else |Falls(qs, prior, a, b - 1)|) + if Fell(qs, prior, b) then 1 else 0
  {
    hide Fell, Falls;
    var before: set<nat> := if a == b then {} else Falls(qs, prior, a, b - 1);
    forall i: nat
      ensures i in Falls(qs, prior, a, b) <==> i in before || (i == b && Fell(qs, prior, b))
      ensures i in before ==> i < b
    {
      FallsHas(qs, prior, a, b, i);
      if a < b { FallsHas(qs, prior, a, b - 1, i); }
    }
    assert Falls(qs, prior, a, b) == before + if Fell(qs, prior, b) then {b} else {};
  }

  lemma {:induction false} MovesCount(qs: seq<Quote>, prior: Option<Tick>, a: nat, b: nat)
    requires a <= b < |qs|
    ensures SumOver(Moves(qs, prior, 1), a, b) == |Rises(qs, prior, a, b)|
    ensures SumOver(Moves(qs, prior, -1), a, b) == |Falls(qs, prior, a, b)|
    decreases b
  {
    hide Moves, Rose, Fell, Rises, Falls;
    MoveIs(qs, prior, b);
    RisesStep(qs, prior, a, b);
    FallsStep(qs, prior, a, b);
    if a < b { MovesCount(qs, prior, a, b - 1); }
  }

  lemma MoveIs(qs: seq<Quote>, prior: Option<Tick>, i: nat)
    requires i < |qs|
    ensures Moves(qs, prior, 1)[i] == (if Rose(qs, prior, i) then 1 else 0)
    ensures Moves(qs, prior, -1)[i] == (if Fell(qs, prior, i) then 1 else 0)
  {}

  // ------------------------------------------------------------------------- what a row says

  /** The time from the quote before, the prior one before the first; none where there is no quote before. */
  function Since(qs: seq<Quote>, prior: Option<Tick>, i: nat): int
    requires i < |qs|
  {
    if i > 0 then qs[i].tick.ticks - qs[i - 1].tick.ticks
    else if prior.Some? then qs[0].tick.ticks - prior.value.ticks else 0
  }

  /** The largest of these times in a segment; a time that goes back counts as none. */
  ghost predicate IsLargestGap(qs: seq<Quote>, prior: Option<Tick>, a: nat, b: nat, gap: int)
    requires a <= b < |qs|
  {
    && gap >= 0 && (forall i :: a <= i <= b ==> Since(qs, prior, i) <= gap)
    && (gap == 0 || exists i :: a <= i <= b && Since(qs, prior, i) == gap)
  }

  /** The row of a segment: its minute, first, highest, lowest and last quotes, how often the price moved, the largest gap. */
  ghost predicate Describes(row: Row, qs: seq<Quote>, prior: Option<Tick>, a: nat, b: nat)
    requires a <= b < |qs|
  {
    && (forall i :: a <= i <= b ==>
          row.minute * TICKS_PER_MINUTE <= qs[i].at - EPOCH_TICKS < (row.minute + 1) * TICKS_PER_MINUTE)
    && row.bidOpen == qs[a].tick.bid && row.askOpen == qs[a].tick.ask
    && (forall i :: a <= i <= b ==> row.bidLow <= qs[i].tick.bid <= row.bidHigh && row.askLow <= qs[i].tick.ask <= row.askHigh)
    && (exists i :: a <= i <= b && qs[i].tick.bid == row.bidHigh) && (exists i :: a <= i <= b && qs[i].tick.ask == row.askHigh)
    && (exists i :: a <= i <= b && qs[i].tick.bid == row.bidLow) && (exists i :: a <= i <= b && qs[i].tick.ask == row.askLow)
    && row.bidClose == qs[b].tick.bid && row.askClose == qs[b].tick.ask
    && row.count == b - a + 1 && row.up == |Rises(qs, prior, a, b)| && row.down == |Falls(qs, prior, a, b)|
    && IsLargestGap(qs, prior, a, b, row.gap) && row.closed == qs[b].at
  }

  lemma MinuteIs(ticks: int)
    ensures Minute(ticks) * TICKS_PER_MINUTE <= ticks - EPOCH_TICKS < (Minute(ticks) + 1) * TICKS_PER_MINUTE
  {}

  lemma PricesAre(qs: seq<Quote>, prior: Option<Tick>, a: nat, b: nat)
    requires a <= b < |qs|
    ensures var row := RowOf(qs, prior, a, b);
      && (forall i :: a <= i <= b ==> row.bidLow <= qs[i].tick.bid <= row.bidHigh && row.askLow <= qs[i].tick.ask <= row.askHigh)
      && (exists i :: a <= i <= b && qs[i].tick.bid == row.bidHigh) && (exists i :: a <= i <= b && qs[i].tick.ask == row.askHigh)
      && (exists i :: a <= i <= b && qs[i].tick.bid == row.bidLow) && (exists i :: a <= i <= b && qs[i].tick.ask == row.askLow)
  {
    hide MaxOver, MinOver, SumOver, Minute, Gaps, Moves;
    var bh := MaxOverIs(Bids(qs), a, b);
    var ah := MaxOverIs(Asks(qs), a, b);
    var bl := MinOverIs(Bids(qs), a, b);
    var al := MinOverIs(Asks(qs), a, b);
    assert forall i :: a <= i <= b ==> Bids(qs)[i] == qs[i].tick.bid && Asks(qs)[i] == qs[i].tick.ask;
  }

  lemma GapIsSince(qs: seq<Quote>, prior: Option<Tick>, i: nat)
    requires i < |qs|
    ensures Gaps(qs, prior)[i] == if Since(qs, prior, i) < 0 then 0 else Since(qs, prior, i)
  {}

  lemma GapIsLargest(qs: seq<Quote>, prior: Option<Tick>, a: nat, b: nat)
    requires a <= b < |qs|
    ensures IsLargestGap(qs, prior, a, b, MaxOver(Gaps(qs, prior), a, b))
  {
    hide MaxOver, Since, Gaps;
    var at := MaxOverIs(Gaps(qs, prior), a, b);
    forall i | a <= i <= b
      ensures Since(qs, prior, i) <= Gaps(qs, prior)[i] && Gaps(qs, prior)[i] >= 0
    {
      GapIsSince(qs, prior, i);
    }
    GapIsSince(qs, prior, at);
  }

  lemma SegmentRow(qs: seq<Quote>, prior: Option<Tick>, a: nat, b: nat)
    requires a <= b < |qs| && forall i :: a <= i <= b ==> Minute(qs[i].at) == Minute(qs[a].at)
    ensures Describes(RowOf(qs, prior, a, b), qs, prior, a, b)
  {
    hide MaxOver, MinOver, SumOver, Minute, Gaps, Moves, Bids, Asks, Rises, Falls, IsLargestGap;
    PricesAre(qs, prior, a, b);
    MovesCount(qs, prior, a, b);
    GapIsLargest(qs, prior, a, b);
    forall i | a <= i <= b
      ensures Minute(qs[a].at) * TICKS_PER_MINUTE <= qs[i].at - EPOCH_TICKS < (Minute(qs[a].at) + 1) * TICKS_PER_MINUTE
    {
      MinuteIs(qs[i].at);
    }
  }

  /** The segments follow each other from the first quote to the last. */
  ghost predicate Segments(qs: seq<Quote>, bounds: seq<(nat, nat)>) {
    && (forall k :: 0 <= k < |bounds| ==> bounds[k].0 <= bounds[k].1 < |qs|)
    && (forall k :: 0 <= k < |bounds| ==> bounds[k].0 == if k == 0 then 0 else bounds[k - 1].1 + 1)
    && (if bounds == [] then qs == [] else bounds[|bounds| - 1].1 + 1 == |qs|)
  }

  /**
    The rows of any quotes: the quotes fall into segments one after another, each of one minute and the
    next of another, and each row describes its segment.
   */
  lemma RowsDescribe(qs: seq<Quote>, prior: Option<Tick>) returns (bounds: seq<(nat, nat)>)
    ensures Segments(qs, bounds) && |bounds| == |Rows(qs, prior)|
    ensures forall k :: 0 <= k < |bounds| ==> Describes(Rows(qs, prior)[k], qs, prior, bounds[k].0, bounds[k].1)
    ensures forall k :: 0 < k < |bounds| ==> Rows(qs, prior)[k].minute != Rows(qs, prior)[k - 1].minute
  {
    hide Starts, RowOf, Rows, Minute, Describes, MinutesOf;
    var starts := Starts(MinutesOf(qs));
    assert |Rows(qs, prior)| == |starts| by { CountRows(qs, prior); }
    bounds := seq(|starts|, k requires 0 <= k < |starts| => (starts[k], EndOf(starts, |qs|, k)));
    if qs == [] { NoStarts(); NoMinutes(); }
    forall k | 0 <= k < |bounds|
      ensures bounds[k].0 <= bounds[k].1 < |qs| && Describes(Rows(qs, prior)[k], qs, prior, bounds[k].0, bounds[k].1)
    {
      RowAt(qs, prior, k);
      SegmentMinute(qs, k);
      SegmentRow(qs, prior, bounds[k].0, bounds[k].1);
    }
    forall k | 0 < k < |bounds|
      ensures Rows(qs, prior)[k].minute != Rows(qs, prior)[k - 1].minute
    {
      RowAt(qs, prior, k);
      RowAt(qs, prior, k - 1);
      RowMinute(qs, prior, bounds[k].0, bounds[k].1);
      RowMinute(qs, prior, bounds[k - 1].0, bounds[k - 1].1);
      SegmentMinute(qs, k - 1);
      assert starts[k] in starts;
      StartsAre(MinutesOf(qs), starts[k]);
    }
  }

  lemma CountRows(qs: seq<Quote>, prior: Option<Tick>)
    ensures |Rows(qs, prior)| == |Starts(MinutesOf(qs))|
  {
    hide Starts, RowOf, MinutesOf;
  }

  lemma NoMinutes()
    ensures MinutesOf([]) == []
  {}

  function EndOf(starts: seq<nat>, n: nat, k: nat): nat
    requires k < |starts|
  {
    if End(starts, n, k) >= 0 then End(starts, n, k) else 0
  }

  /** All quotes of a segment lie in one minute. */
  lemma SegmentMinute(qs: seq<Quote>, k: nat)
    requires k < |Starts(MinutesOf(qs))|
    ensures var starts := Starts(MinutesOf(qs));
      && starts[k] <= End(starts, |qs|, k) < |qs|
      && forall i :: starts[k] <= i <= End(starts, |qs|, k) ==> Minute(qs[i].at) == Minute(qs[starts[k]].at)
  {
    hide Starts, Minute;
    var ms := MinutesOf(qs);
    var starts := Starts(ms);
    forall i | starts[k] <= i <= End(starts, |qs|, k)
      ensures Minute(qs[i].at) == Minute(qs[starts[k]].at)
    {
      SameMinute(ms, starts[k], End(starts, |qs|, k), k, i);
    }
  }

  lemma {:induction false} SameMinute(ms: seq<int>, a: nat, b: int, k: nat, i: nat)
    requires var starts := Starts(ms); k < |starts| && a == starts[k] && b == End(starts, |ms|, k)
    requires a <= i <= b < |ms|
    ensures ms[i] == ms[a]
    decreases i
  {
    hide Starts;
    if a < i {
      NotAStart(Starts(ms), |ms|, k, i);
      StartsAre(ms, i);
      SameMinute(ms, a, b, k, i - 1);
    }
  }

  /** The segments of a file, whose ticks are the quotes themselves. */
  ghost predicate DescribesFile(rows: seq<Row>, qs: seq<Quote>, prior: Option<Tick>, bounds: seq<(nat, nat)>) {
    && Segments(qs, bounds) && |bounds| == |rows|
    && (forall k :: 0 <= k < |bounds| ==> Describes(rows[k], qs, prior, bounds[k].0, bounds[k].1))
    && (forall k :: 0 < k < |bounds| ==> rows[k].minute != rows[k - 1].minute)
  }

  /**
    The rows the batch form returns describe the file's ticks; those of the tick-by-tick form describe the
    quotes it received, their times in microseconds and their ticks as its clock gives them.
   */
  lemma FormsDescribe(f: File, clock: Clock, prior: Option<Tick>) returns (batch: seq<(nat, nat)>, streamed: seq<(nat, nat)>)
    ensures Batch(f, prior).Some? ==> DescribesFile(Batch(f, prior).value.rows, Exactly(f.ticks), prior, batch)
    ensures Streamed(f, clock, prior).Some? ==>
      DescribesFile(Streamed(f, clock, prior).value.rows, Converted(clock, f.ticks), prior, streamed)
    ensures Batch(f, prior).Some? ==> Batch(f, prior).value.last == if f.ticks == [] then prior else Some(f.ticks[|f.ticks| - 1])
    ensures Streamed(f, clock, prior).Some? ==>
      Streamed(f, clock, prior).value.last == if f.ticks == [] then prior else
        var t := f.ticks[|f.ticks| - 1];
        Some(Tick(clock(t.ticks / TICKS_PER_MICROSECOND), t.bid, t.ask))
  {
    hide Rows, Describes, Accepted, Segments;
    BatchAccepts(f, prior);
    batch := RowsDescribe(Exactly(f.ticks), prior);
    streamed := RowsDescribe(Converted(clock, f.ticks), prior);
  }
}
