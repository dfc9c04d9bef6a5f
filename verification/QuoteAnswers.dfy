/** What the quote reader answers, told from the lines of the file alone. */
module QuoteAnswers {
  import opened Text
  import opened Sorting
  import opened QuoteReader

  // --------------------------------------------------------------------------- the lines

  predicate IsLine(line: Bytes) {
    line != [] && line[|line| - 1] == NEWLINE && NEWLINE !in line[..|line| - 1]
  }

  /** The complete lines are the file up to its last line break, cut after every line break. */
  lemma {:induction false} LinesAre(b: Bytes)
    ensures Concat(Lines(b)) == b[..Reach(b)] && NEWLINE !in b[Reach(b)..]
    ensures forall k :: 0 <= k < |Lines(b)| ==> IsLine(Lines(b)[k])
    decreases |b|
  {
    hide FirstLine, Lines, Reach;
    LinesStart(b);
    FirstLineEnds(b);
    match FirstLine(b)
    case None =>
      assert b[0..] == b && b[..0] == [];
    case Some(n) =>
      LinesAre(b[n..]);
      var rest := Lines(b[n..]);
      assert ([b[..n]] + rest)[1..] == rest;
      assert b[..n] + b[n..][..Reach(b[n..])] == b[..Reach(b)];
      assert b[n..][Reach(b[n..])..] == b[Reach(b)..];
      assert b[..n][..n - 1] == b[..n - 1];
  }

  /** The records are those of the lines that parse, in the order of the lines. */
  lemma {:induction false} RecordsAre(parse: Parser, lines: seq<Bytes>) returns (p: seq<nat>)
    ensures |p| == |Records(parse, lines)|
    ensures forall k :: 0 <= k < |p| ==> p[k] < |lines| && parse(lines[p[k]]) == Some(Records(parse, lines)[k])
    ensures forall i, j :: 0 <= i < j < |p| ==> p[i] < p[j]
    ensures forall i :: 0 <= i < |lines| && parse(lines[i]).Some? ==> i in p
  {
    if lines == [] {
      p := [];
    } else {
      var n := |lines| - 1;
      p := RecordsAre(parse, lines[..n]);
      RecordsConcat(parse, lines[..n], [lines[n]]);
      OneRecord(parse, lines[n]);
      assert lines == lines[..n] + [lines[n]];
      if parse(lines[n]).Some? { p := p + [n]; }
    }
  }

  lemma OneRecord(parse: Parser, line: Bytes)
    ensures Records(parse, [line]) == match parse(line) case None => [] case Some(o) => [o]
  {
    assert [line][1..] == [];
  }

  // -------------------------------------------------------------------------- the answer

  /** A row may be used at a decision: received by then, and of the last sixty-one minutes up to then. */
  predicate IsUsable(o: Observation, decision: int) {
    o.received <= decision && o.event <= decision && decision - o.event <= 61 * 60 * 1_000_000
  }

  ghost predicate IsSelection(all: seq<Observation>, chosen: seq<Observation>, p: seq<nat>) {
    && |p| == |chosen| && (forall k :: 0 <= k < |p| ==> p[k] < |all| && chosen[k] == all[p[k]])
    && (forall i, j :: 0 <= i < j < |p| ==> p[i] < p[j])
  }

  lemma SelectMore(all: seq<Observation>, chosen: seq<Observation>, p: seq<nat>, o: Observation)
    requires IsSelection(all, chosen, p)
    ensures IsSelection(all + [o], chosen, p) && IsSelection(all + [o], chosen + [o], p + [|all|])
  {}

  lemma {:induction false} VisibleIs(all: seq<Observation>, decision: int) returns (p: seq<nat>)
    ensures IsSelection(all, Visible(all, decision), p)
    ensures forall i :: i in p <==> 0 <= i < |all| && IsUsable(all[i], decision)
  {
    hide IsSelection, Visible;
    if all == [] {
      p := [];
      NothingVisibleYet(decision);
    } else {
      var n := |all| - 1;
      p := VisibleIs(all[..n], decision);
      VisibleConcat(all[..n], [all[n]], decision);
      OneVisible(all[n], decision);
      SelectMore(all[..n], Visible(all[..n], decision), p, all[n]);
      assert all == all[..n] + [all[n]];
      assert Visible(all[..n], decision) + [] == Visible(all[..n], decision);
      if IsUsable(all[n], decision) { p := p + [n]; }
    }
  }

  lemma NothingVisibleYet(decision: int)
    ensures IsSelection([], Visible([], decision), [])
  {}

  lemma OneVisible(o: Observation, decision: int)
    ensures Visible([o], decision) == if IsUsable(o, decision) then [o] else []
  {
    assert [o][1..] == [];
  }

  /** Earlier by its time, then by its receipt, then by its place in the file. */
  predicate ComesBefore(all: seq<Observation>, i: int, j: int) {
    && 0 <= i < |all| && 0 <= j < |all|
    && var a, b := all[i], all[j];
       a.event < b.event || (a.event == b.event && (a.received < b.received || (a.received == b.received && i < j)))
  }

  lemma KeyOrder(a: Observation, b: Observation)
    ensures Less(TimeKey(a), TimeKey(b)) <==> a.event < b.event || (a.event == b.event && a.received < b.received)
    ensures TimeKey(a) == TimeKey(b) <==> a.event == b.event && a.received == b.received
  {
    var x, y := TimeKey(a), TimeKey(b);
    assert x[1..] == [a.received] && y[1..] == [b.received] && x[0] == a.event && y[0] == b.event && x[1] == a.received && y[1] == b.received;
    assert Less([a.received], [b.received]) <==> a.received < b.received;
  }

  /** Reading a whole file: its usable records, each once, in the order of time. */
  lemma RereadIs(parse: Parser, content: Bytes, decision: int) returns (p: seq<nat>)
    ensures var all, answer := Records(parse, Lines(content)), Reread(parse, Some(content), decision);
      && |p| == |answer| && (forall k :: 0 <= k < |p| ==> p[k] < |all| && answer[k] == all[p[k]])
      && (forall i :: i in p <==> 0 <= i < |all| && IsUsable(all[i], decision))
      && forall i, j :: 0 <= i < j < |p| ==> ComesBefore(all, p[i], p[j])
  {
    hide IsUsable, Visible, Lines, Records;
    var all := Records(parse, Lines(content));
    var chosen := VisibleIs(all, decision);
    var visible := Visible(all, decision);
    var keys := Keys(visible, TimeKey);
    var q := StableOrder(keys);
    p := seq(|q|, k requires 0 <= k < |q| => chosen[q[k]]);
    forall i, j | 0 <= i < j < |p|
      ensures ComesBefore(all, p[i], p[j])
    {
      assert Precedes(keys, q[i], q[j]);
      KeyOrder(visible[q[i]], visible[q[j]]);
    }
    forall i: int
      ensures i in p <==> i in chosen
    {
      if i in chosen {
        var k :| 0 <= k < |chosen| && chosen[k] == i;
        assert k in q;
        var n :| 0 <= n < |q| && q[n] == k;
        assert p[n] == i;
      }
    }
  }

  /**
    In every history whose decision times do not go back, the answer to each call holds exactly the usable
    records of the complete lines, each once and in the order of time; so none that was received later.
   */
  lemma AnswerIs(parse: Parser, calls: seq<Call>, k: nat) returns (p: seq<nat>)
    requires InOrder(calls) && k < |calls| && calls[k].file.Some?
    ensures Answer(parse, calls[..k], calls[k]).Some?
    ensures var all, answer := Records(parse, Lines(calls[k].file.value)), Answer(parse, calls[..k], calls[k]).value;
      && |p| == |answer| && (forall n :: 0 <= n < |p| ==> p[n] < |all| && answer[n] == all[p[n]])
      && (forall i :: i in p <==> 0 <= i < |all| && IsUsable(all[i], calls[k].decision))
      && forall i, j :: 0 <= i < j < |p| ==> ComesBefore(all, p[i], p[j])
  {
    hide Answer, Reread, IsUsable, Lines, Records;
    EveryCallAgrees(parse, calls, k);
    p := RereadIs(parse, calls[k].file.value, calls[k].decision);
  }
}
