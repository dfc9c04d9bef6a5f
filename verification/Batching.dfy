/** Cutting an ordered list of rows into consecutive batches bounded in bytes and in items. */
module Batching {
  import opened Text
  import opened Values
  import opened Json

  type Row = Value

  function RowSize(f: FloatText, row: Row): nat {
    |Wire(f, row)|
  }

  /** The number of bytes of a batch on the wire. */
  function Size(f: FloatText, batch: seq<Row>): nat {
    |Wire(f, List(batch))|
  }

  predicate Fits(f: FloatText, limit: int, maxItems: int, batch: seq<Row>) {
    |batch| <= maxItems && Size(f, batch) <= limit
  }

  // ------------------------------------------------- the size of a batch, row by row

  lemma {:induction false} ItemsAppend(f: FloatText, batch: seq<Row>, row: Row)
    ensures DumpsItems(f, batch + [row])
         == (if batch == [] then "" else DumpsItems(f, batch) + ",") + Dumps(f, row)
  {
    if batch == [] {
      assert batch + [row] == [row];
    } else if |batch| == 1 {
      assert (batch + [row])[1..] == [row];
      assert DumpsItems(f, batch + [row]) == Dumps(f, batch[0]) + "," + DumpsItems(f, [row]);
    } else {
      assert (batch + [row])[1..] == batch[1..] + [row];
      ItemsAppend(f, batch[1..], row);
      assert DumpsItems(f, batch + [row])
          == Dumps(f, batch[0]) + "," + (DumpsItems(f, batch[1..]) + "," + Dumps(f, row));
      Regroup(Dumps(f, batch[0]) + ",", DumpsItems(f, batch[1..]), ",", Dumps(f, row));
      Regroup(DumpsItems(f, batch[1..]), ",", Dumps(f, row), "");
    }
  }

  lemma Brackets(f: FloatText, batch: seq<Row>)
    ensures Size(f, batch) == 2 + |Utf8(DumpsItems(f, batch))|
  {
    var body := DumpsItems(f, batch);
    Utf8Concat("[" + body, "]");
    Utf8Concat("[", body);
    Utf8One('[');
    Utf8One(']');
  }

  /** The planner's running size: a further row costs its own bytes and, after the first, a comma. */
  lemma SizeAppend(f: FloatText, batch: seq<Row>, row: Row)
    ensures Size(f, []) == 2
    ensures Size(f, batch + [row]) == Size(f, batch) + RowSize(f, row) + (if batch == [] then 0 else 1)
  {
    Brackets(f, []);
    Brackets(f, batch);
    Brackets(f, batch + [row]);
    ItemsAppend(f, batch, row);
    if batch == [] {
      assert "" + Dumps(f, row) == Dumps(f, row);
    } else {
      Utf8Concat(DumpsItems(f, batch) + ",", Dumps(f, row));
      Utf8Concat(DumpsItems(f, batch), ",");
      Utf8One(',');
    }
  }

  lemma {:induction false} SizeOfTail(f: FloatText, batch: seq<Row>)
    requires batch != []
    ensures Size(f, batch[1..]) <= Size(f, batch) && RowSize(f, batch[0]) + 2 <= Size(f, batch)
  {
    var n := |batch| - 1;
    assert batch == batch[..n] + [batch[n]];
    SizeAppend(f, batch[..n], batch[n]);
    if n == 0 {
      assert [] + [batch[0]] == batch && batch[1..] == [];
      SizeAppend(f, [], batch[0]);
    } else {
      SizeOfTail(f, batch[..n]);
      assert batch[1..] == batch[..n][1..] + [batch[n]];
      SizeAppend(f, batch[..n][1..], batch[n]);
    }
  }

  lemma {:induction false} SizeOfSuffix(f: FloatText, batch: seq<Row>, k: nat)
    requires k <= |batch|
    ensures Size(f, batch[k..]) <= Size(f, batch)
  {
    if k > 0 {
      SizeOfTail(f, batch);
      assert batch[1..][k - 1..] == batch[k..];
      SizeOfSuffix(f, batch[1..], k - 1);
    } else {
      assert batch[0..] == batch;
    }
  }

  lemma {:induction false} SizeOfPrefix(f: FloatText, batch: seq<Row>, k: nat)
    requires k <= |batch|
    ensures Size(f, batch[..k]) <= Size(f, batch)
    decreases |batch| - k
  {
    if k < |batch| {
      assert batch[..k + 1] == batch[..k] + [batch[k]];
      SizeAppend(f, batch[..k], batch[k]);
      SizeOfPrefix(f, batch, k + 1);
    } else {
      assert batch[..k] == batch;
    }
  }

  // ------------------------------------------------------------------ the cuts

  /**
    The batches of `rows` when `current` is already open: a row joins the open batch unless that
    would break a limit. `None` is the error for a row no batch can hold.
   */
  function Cut(f: FloatText, limit: int, maxItems: int, current: seq<Row>, rows: seq<Row>): Option<seq<seq<Row>>>
    decreases |rows|
  {
    if rows == [] then Some(if current == [] then [] else [current])
    else if RowSize(f, rows[0]) + 2 > limit then None
    else if current != [] && !Fits(f, limit, maxItems, current + [rows[0]]) then
      var rest :- Cut(f, limit, maxItems, [rows[0]], rows[1..]);
      Some([current] + rest)
    else Cut(f, limit, maxItems, current + [rows[0]], rows[1..])
  }

  /** `bounded_batches`. */
  method BoundedBatches(f: FloatText, rows: seq<Row>, limit: int, maxItems: int) returns (r: Option<seq<seq<Row>>>)
    ensures r == Cut(f, limit, maxItems, [], rows)
  {
    var batches: seq<seq<Row>> := [];
    var current: seq<Row> := [];
    assert rows[0..] == rows;
    PrependNothing(Cut(f, limit, maxItems, [], rows));
    for i := 0 to |rows|
      invariant i > 0 ==> current != [] && Size(f, current) <= limit
      invariant i == 0 ==> current == []
      invariant Prepend(batches, Cut(f, limit, maxItems, current, rows[i..])) == Cut(f, limit, maxItems, [], rows)
    {
      var row := rows[i];
      var candidate := current + [row];
      assert rows[i..][0] == row && rows[i..][1..] == rows[i + 1..];
      RowInCandidate(f, current, row);
      assert current == [] ==> candidate == [row];
      ghost var rest := Cut(f, limit, maxItems, [row], rows[i + 1..]);
      PrependOne(batches, current, rest);
      if current != [] && (Size(f, candidate) > limit || |candidate| > maxItems) {
        batches := batches + [current];
        current := [row];
      } else {
        current := candidate;
      }
      if Size(f, current) > limit {
        assert RowSize(f, row) + 2 > limit;
        return None;
      }
    }
    if current != [] {
      batches := batches + [current];
    }
    return Some(batches);
  }

  function Prepend(batches: seq<seq<Row>>, rest: Option<seq<seq<Row>>>): Option<seq<seq<Row>>> {
    match rest case None => None case Some(bs) => Some(batches + bs)
  }

  lemma PrependNothing(rest: Option<seq<seq<Row>>>)
    ensures Prepend([], rest) == rest
  {
    if rest.Some? { assert [] + rest.value == rest.value; }
  }

  lemma PrependOne(batches: seq<seq<Row>>, current: seq<Row>, rest: Option<seq<seq<Row>>>)
    ensures Prepend(batches, Prepend([current], rest)) == Prepend(batches + [current], rest)
  {
    if rest.Some? { assert batches + ([current] + rest.value) == batches + [current] + rest.value; }
  }

  lemma RowInCandidate(f: FloatText, current: seq<Row>, row: Row)
    ensures Size(f, [row]) == RowSize(f, row) + 2 <= Size(f, current + [row])
  {
    SizeAppend(f, [], row);
    assert [] + [row] == [row];
    SizeAppend(f, current, row);
    SizeOfPrefix(f, current, 0);
  }

  // ------------------------------------------------------- what the cuts guarantee

  /** Consecutive non-empty batches that make up `rows`, each within both limits. */
  ghost predicate IsPartition(f: FloatText, limit: int, maxItems: int, rows: seq<Row>, batches: seq<seq<Row>>) {
    && Concat(batches) == rows
    && forall i :: 0 <= i < |batches| ==> batches[i] != [] && Fits(f, limit, maxItems, batches[i])
  }

  /** The batches hold the rows in order, none is empty and none breaks a limit. */
  lemma {:induction false} CutIsPartition(f: FloatText, limit: int, maxItems: int, current: seq<Row>, rows: seq<Row>)
    requires maxItems >= 1
    requires current != [] ==> Fits(f, limit, maxItems, current)
    requires Cut(f, limit, maxItems, current, rows).Some?
    ensures IsPartition(f, limit, maxItems, current + rows, Cut(f, limit, maxItems, current, rows).value)
    decreases |rows|
  {
    if rows == [] {
      assert current + rows == current;
      ConcatOne(current);
    } else {
      var row := rows[0];
      RowInCandidate(f, current, row);
      assert current == [] ==> current + [row] == [row];
      assert rows == [row] + rows[1..];
      if current != [] && !Fits(f, limit, maxItems, current + [row]) {
        CutIsPartition(f, limit, maxItems, [row], rows[1..]);
        var rest := Cut(f, limit, maxItems, [row], rows[1..]).value;
        assert ([current] + rest)[1..] == rest;
      } else {
        CutIsPartition(f, limit, maxItems, current + [row], rows[1..]);
        assert current + [row] + rows[1..] == current + rows;
      }
    }
  }

  /** Cutting fails exactly when some row is too large for a batch of its own. */
  lemma {:induction false} CutFailsExactly(f: FloatText, limit: int, maxItems: int, current: seq<Row>, rows: seq<Row>)
    ensures Cut(f, limit, maxItems, current, rows).None?
       <==> exists i :: 0 <= i < |rows| && RowSize(f, rows[i]) + 2 > limit
    decreases |rows|
  {
    if rows != [] {
      var next := if current != [] && !Fits(f, limit, maxItems, current + [rows[0]]) then [rows[0]] else current + [rows[0]];
      CutFailsExactly(f, limit, maxItems, next, rows[1..]);
      var tail := rows[1..];
      assert forall i :: 0 <= i < |tail| ==> tail[i] == rows[i + 1];
      assert forall i :: 1 <= i < |rows| ==> rows[i] == tail[i - 1];
    }
  }

  /** An open batch and rows that end with the last rows of a partition need at most one batch more. */
  lemma {:induction false} OpenBatchCosts(f: FloatText, limit: int, maxItems: int, current: seq<Row>, rows: seq<Row>, other: seq<seq<Row>>, d: nat)
    requires current != [] && Cut(f, limit, maxItems, current, rows).Some?
    requires IsPartition(f, limit, maxItems, Concat(other), other)
    requires d <= |Concat(other)| && rows == Concat(other)[d..]
    ensures |Cut(f, limit, maxItems, current, rows).value| <= 1 + |other|
    decreases |rows|, |other|, 0
  {
    hide Size, RowSize;
    if rows != [] {
      var first, later := other[0], other[1..];
      assert Concat(other) == first + Concat(later);
      if d >= |first| {
        assert rows == Concat(later)[d - |first|..];
        OpenBatchCosts(f, limit, maxItems, current, rows, later, d - |first|);
      } else if Fits(f, limit, maxItems, current + [rows[0]]) {
        assert rows[1..] == Concat(other)[d + 1..];
        OpenBatchCosts(f, limit, maxItems, current + [rows[0]], rows[1..], other, d + 1);
      } else {
        var tail := first[d..];
        SizeOfSuffix(f, first, d);
        assert rows == tail + Concat(later);
        assert [rows[0]] + rows[1..][..|tail| - 1] == tail;
        assert rows[1..][|tail| - 1..] == Concat(later);
        ClosingBatchCosts(f, limit, maxItems, [rows[0]], rows[1..], |tail| - 1, later);
      }
    }
  }

  /** The same when the open batch can still take the first `k` rows, up to a cut of the partition. */
  lemma {:induction false} ClosingBatchCosts(f: FloatText, limit: int, maxItems: int, current: seq<Row>, rows: seq<Row>, k: nat, later: seq<seq<Row>>)
    requires current != [] && Cut(f, limit, maxItems, current, rows).Some?
    requires k <= |rows| && Fits(f, limit, maxItems, current + rows[..k]) && rows[k..] == Concat(later)
    requires IsPartition(f, limit, maxItems, Concat(later), later)
    ensures |Cut(f, limit, maxItems, current, rows).value| <= 1 + |later|
    decreases |rows|, |later|, 1
  {
    hide Size, RowSize, Concat;
    if k == 0 {
      assert rows == Concat(later)[0..];
      OpenBatchCosts(f, limit, maxItems, current, rows, later, 0);
    } else {
      var next := current + [rows[0]];
      assert (current + rows[..k])[..|current| + 1] == next;
      SizeOfPrefix(f, current + rows[..k], |current| + 1);
      assert rows[..k] == [rows[0]] + rows[1..][..k - 1];
      assert next + rows[1..][..k - 1] == current + rows[..k];
      assert rows[1..][k - 1..] == rows[k..];
      ClosingBatchCosts(f, limit, maxItems, next, rows[1..], k - 1, later);
    }
  }

  /** No partition within the limits has fewer batches, and when cutting fails there is no partition. */
  lemma CutIsOptimal(f: FloatText, limit: int, maxItems: int, rows: seq<Row>, other: seq<seq<Row>>)
    requires IsPartition(f, limit, maxItems, rows, other)
    ensures Cut(f, limit, maxItems, [], rows).Some?
    ensures |Cut(f, limit, maxItems, [], rows).value| <= |other|
  {
    forall i | 0 <= i < |rows|
      ensures RowSize(f, rows[i]) + 2 <= limit
    {
      EveryRowFits(f, limit, maxItems, rows, other, i);
    }
    CutFailsExactly(f, limit, maxItems, [], rows);
    if rows != [] {
      var first, later := other[0], other[1..];
      assert rows == first + Concat(later);
      assert [rows[0]] + rows[1..][..|first| - 1] == first;
      assert rows[1..][|first| - 1..] == Concat(later);
      assert [] + [rows[0]] == [rows[0]];
      ClosingBatchCosts(f, limit, maxItems, [rows[0]], rows[1..], |first| - 1, later);
    }
  }

  lemma {:induction false} EveryRowFits(f: FloatText, limit: int, maxItems: int, rows: seq<Row>, batches: seq<seq<Row>>, i: nat)
    requires IsPartition(f, limit, maxItems, rows, batches) && i < |rows|
    ensures RowSize(f, rows[i]) + 2 <= limit
    decreases |batches|
  {
    var first, later := batches[0], batches[1..];
    assert rows == first + Concat(later);
    if i < |first| {
      SizeOfSuffix(f, first, i);
      SizeOfTail(f, first[i..]);
    } else {
      EveryRowFits(f, limit, maxItems, Concat(later), later, i - |first|);
    }
  }

  /** A batch could not have taken the first row of the next one. */
  predicate IsFullBefore(f: FloatText, limit: int, maxItems: int, batch: seq<Row>, next: seq<Row>) {
    next != [] && !Fits(f, limit, maxItems, batch + [next[0]])
  }

  /** The cuts are greedy: no batch but the last could have taken one row more. */
  lemma {:induction false} CutIsGreedy(f: FloatText, limit: int, maxItems: int, current: seq<Row>, rows: seq<Row>)
    requires Cut(f, limit, maxItems, current, rows).Some?
    ensures var bs := Cut(f, limit, maxItems, current, rows).value;
      && (current != [] ==> bs != [] && current <= bs[0])
      && (current == [] && rows != [] ==> bs != [] && bs[0] != [] && bs[0][0] == rows[0])
      && forall k :: 0 < k < |bs| ==> IsFullBefore(f, limit, maxItems, bs[k - 1], bs[k])
    decreases |rows|
  {
    hide Fits, RowSize;
    if rows != [] {
      if current != [] && !Fits(f, limit, maxItems, current + [rows[0]]) {
        CutIsGreedy(f, limit, maxItems, [rows[0]], rows[1..]);
        var rest := Cut(f, limit, maxItems, [rows[0]], rows[1..]).value;
        var bs := [current] + rest;
        forall k | 0 < k < |bs|
          ensures IsFullBefore(f, limit, maxItems, bs[k - 1], bs[k])
        {
          assert bs[k] == rest[k - 1];
          if k > 1 { assert bs[k - 1] == rest[k - 2]; }
        }
      } else {
        CutIsGreedy(f, limit, maxItems, current + [rows[0]], rows[1..]);
      }
    }
  }
}
